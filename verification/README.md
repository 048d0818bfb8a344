# QuineDB, modelled and proved in Dafny

QuineDB is a Redis-like store with one thread per core. Each core owns a shard of the keys and an
inbox. A command read from a connection runs where it arrived if that core owns its key; otherwise it
travels as a request to the owner, and the reply travels back. This project models that stack, from the
bytes of a command to the bytes of a snapshot, and proves what it promises.

`dafny verify dfyconfig.toml` checks everything.

## Layout

| files | what they hold |
|---|---|
| `Bytes` | byte strings, `std::to_string`, `std::stoi`, `std::stol`, string order, iteration order |
| `RespParser`, `ParserTheorems`, `ParserReference` | the streaming command parser, its inverse, and a reader of whole inputs it agrees with |
| `ChunkTheorems`, `ReadTheorems` | commands that arrive in pieces, for a driver that presents again what was not consumed and for `handle_data`; whole sessions |
| `Connection` | the write queue and the read handler of a connection |
| `Protocol`, `ProtocolPipelines`, `ProtocolSafety`, `ProtocolTheorems`, `ProtocolProgress`, `ProtocolDelivery` | the inter-core protocol as a transition system and its theorems, for every service it is run with |
| `ItcChannel` | the inbox class |
| `Router` | FNV-1a and the consistent-hash ring |
| `Values`, `HashMap`, `Shard` | sorted sets, the open-addressing table, a core's shard |
| `Commands`, `CommandTheorems`, `CommandLaws`, `ShardCommands` | the commands as functions of their key's slot, what they keep, what they read and write, and their loops on a shard |
| `SnapshotFormat`, `Snapshot`, `SnapshotTheorems`, `SnapshotFile` | the snapshot writer and reader |
| `ReadWriteTheorems` | what is written is read back, over every history of commands |
| `Server`, `TwoCores` | the protocol run with the real router, registry and commands; restart from a snapshot; a run that forwards a lower-case command |

## How to read it

A **slot** is what a shard keeps under one key: the table's value and the expiry side map's timestamp.
A command is a function `Apply` from a slot to a slot and a reply; the loops of the commands and their
calls on a shard are methods proved equal to it (`ShardCommands.Served`).

The **protocol** takes one step per mutex section, system call or message: store the notify fd, count in,
pass the barrier, connect, disconnect, receive, push, notify, complete the event read, wake, swap the
inbox, handle one message, finish. Steps of different cores interleave freely. `issued`, `log` and `done`
are histories that no step reads. It is proved for every `Service` that meets `ServiceOk`, and
`Server.RealServiceOk` shows that the real router, registry and commands do.

A **history** is a list of executed commands with their replies (`ReadWriteTheorems.History`); every run
leaves one. The laws of what is read after what was written are about histories: two executions on a key,
anything on other keys in between, whichever cores executed them.

Where the code falls short of what one would expect of it, the model keeps the code, a lemma gives a
concrete input, and another says exactly when the property holds:

| expectation | exact condition | concrete input |
|---|---|---|
| a command in any number of chunks is recognised to its last byte when the caller presents again what was not consumed | no cut between the CR and LF of a size header that starts after the cut before (`ChunkTheorems.CommandInChunks`) | `ReadTheorems.PingTorn` |
| `handle_data` recognises a command in any number of reads | no cut tears a size header, or an argument's CRLF (`ReadTheorems.HandledInReads`) | `ReadTheorems.PingTorn` |
| the commands of a connection are executed one by one | no cut tears a command, and every command ends a read (`ReadTheorems.SessionInOrder`) | `ReadTheorems.PipelinedIsDropped` |
| a forwarded command is answered as a local one | its name was sent in upper case (`Server.ForwardingTransparent`) | `TwoCores.LowerCaseRun` |
| a snapshot restores the database | no key has an expiry, and every new shard has room (`SnapshotTheorems.RoundTrip`) | `SnapshotTheorems.ExpiryLost` |
| what was written is what was submitted, in order | no write was short (`Connection.WrittenInOrder`) | `Connection.ShortWriteLosesBytes` |
| DEL's reply does not depend on when an expired key is collected | the key is not there, or has not expired (`CommandTheorems.DelTells`; over runs, `CommandTheorems.LazyAgreesWithEager`) | `CommandTheorems.DelOfExpired` |
| a counting reply is the change in size | ZADD does not add a member and then meet a bad score (`CommandTheorems.CountExact`; over runs, `CommandTheorems.CountsConserved`) | `CommandTheorems.ZAddHalfway` |

The project's own documentation calls the channel lock-free; the code takes a mutex, and the model follows
the code.

## Model

| member | source | states |
|---|---|---|
| `RespParser.RespParser.Consume` | src/network/resp_parser.cpp:21-135 | the parsing loop, for every parser state and input, ends (a lexicographic measure: copying argument data may not advance) with the state, verdict and `consumed` of the function `Parse`, including the paths that leave `consumed` unassigned |
| `RespParser.RespParser.Advance` | src/network/resp_parser.cpp:24-130 | one turn of the state machine is `Step` on the input left, in all five states |
| `RespParser.RespParser.ReadSize` | src/network/resp_parser.cpp:35-58 | reading a size header distinguishes: no CR yet, not a number, a number whose LF is missing, a complete header |
| `RespParser.RespParser.Reset` | src/network/resp_parser.cpp:13-19 | back to the initial state |
| `ParserTheorems.ParseExtend` | src/network/resp_parser.cpp:21-135 | a verdict, once reached, does not change with more input |
| `ParserTheorems.ParseResume` | src/network/resp_parser.cpp:21-135 | for all bytes and every parser state, parsing in two calls is parsing in one, when what the first left unaccounted for is presented again |
| `ParserTheorems.ParseEncode` | src/network/resp_parser.cpp:24-130 | the parser inverts the printer: an encoded command followed by any bytes gives Complete, exactly the arguments, and `consumed` equal to the encoding's length |
| `ParserTheorems.ParseProperPrefix` | src/network/resp_parser.cpp:24-130 | every proper prefix of an encoded command gives Partial |
| `ParserReference.ParserRecognises` | src/network/resp_parser.cpp:21-135 | on every input, well-formed or not, the state machine gives the verdict of a reader that looks at the whole input at once: a command with its arguments and byte count, the beginning of one, an error, or a negative size |
| `ParserReference.ArgumentsAgree` | src/network/resp_parser.cpp:61-130 | the same from any point between two arguments on, for any arguments already read |
| `ChunkTheorems.ChunkIndependence` | src/network/resp_parser.cpp:21-135 | for all bytes and any number of chunks, a re-presenting driver whose cuts are clean reaches the one-shot parser, verdict and byte count |
| `ChunkTheorems.CutVerdict` | src/network/resp_parser.cpp:35-130 | where a cut falls in an encoded command decides whether `consumed` is assigned and whether bytes are left over |
| `ChunkTheorems.BehindDriver` | src/network/resp_parser.cpp:35-130 | presented a part of the command again, the parser never gets to the command's end |
| `ChunkTheorems.CommandInChunks` | src/network/resp_parser.cpp:21-135 | for every cutting into any number of chunks: the command is recognised to its last byte if and only if no cut falls between the CR and LF of a size header that starts after the cut before |
| `ChunkTheorems.RepresentedInTwo` | src/network/resp_parser.cpp:55-85 | cut in two: if and only if the cut is not between the CR and LF of a size header |
| `ReadTheorems.HandleReadsIndependence` | src/network/connection.cpp:127-148 | reads that are consumed to their last byte are parsed by `handle_data` as if they had been one |
| `ReadTheorems.BuiltParse` | src/network/resp_parser.cpp:24-130 | from any parser state and for all bytes, the parser takes at least as many bytes as a client needs to bring it where it gets, or to send the command it completes |
| `ReadTheorems.HandledInReads` | src/network/connection.cpp:127-148 | for every cutting into any number of reads: `handle_data`, which ignores `consumed`, recognises the command if and only if no cut tears a size header or an argument's CRLF |
| `ReadTheorems.HandledInTwo` | src/network/connection.cpp:127-148 | in two reads: if and only if the cut tears nothing |
| `ReadTheorems.PingTorn` | src/network/resp_parser.cpp:55-58 | PING cut after its third byte is not recognised even when presented again; cut after its second, not by `handle_data` |
| `ReadTheorems.SessionTakesBytes` | src/network/connection.cpp:127-148 | whatever the reads, commands are executed only from as many bytes as they are sent with |
| `ReadTheorems.SessionInOrder` | src/network/connection.cpp:87-148 | for every list of commands and every cutting of their bytes into reads: exactly these are executed, in order and without an error, if and only if no cut tears a command and every command ends a read |
| `ReadTheorems.PipelinedIsDropped` | src/network/connection.cpp:127-148 | of any two commands in one read, the second is never executed |
| `Connection.Connection.HandleData` | src/network/connection.cpp:127-148 | the response to a read is the command's, the protocol error's or nothing, as the parser's verdict says; the parser is reset after a verdict |
| `Connection.Connection.SubmitWrite` | src/network/connection.cpp:75-85 | data is queued; a write is started exactly if none is outstanding |
| `Connection.Connection.HandleWrite` | src/network/connection.cpp:105-125 | the head of the queue is dropped and the next write, of the new head, is started |
| `Connection.WriteQueue` | src/network/connection.cpp:75-125 | over every sequence of submissions and completions: `is_writing_` if and only if the queue is non-empty, exactly then one write is outstanding, and it is of the queue's head; what was submitted is what completed, in order, followed by the queue |
| `Connection.WrittenInOrder` | src/network/connection.cpp:105-125 | over every sequence: bytes written followed by bytes queued are the bytes submitted if and only if every completed write was full; then the bytes written are a prefix of the bytes submitted |
| `Connection.Drained` | src/network/connection.cpp:105-125 | with the queue empty, everything submitted was written if and only if every write was full |
| `Connection.ShortWriteLosesBytes` | src/network/connection.cpp:105-125 | a short write of one reply splices the next reply into it |
| `ItcChannel.ItcChannel.Push` | src/core/itc_channel.hpp:23-27 | appends to what was pushed, and nothing is lost, duplicated or reordered |
| `ItcChannel.ItcChannel.TryPop` | src/core/itc_channel.hpp:32-40 | hands over the oldest message not yet handed over, or none exactly if all were |
| `ItcChannel.ItcChannel.ConsumeAll` | src/core/itc_channel.hpp:45-55 | everything pushed so far has been handled once, in order of pushing |
| `Router.HashKey` | src/core/router.cpp:7-15 | the loop computes `Fnv`; what that is, `XorByteBits` and `FnvVectors` say |
| `Router.XorByteBits` | src/core/router.cpp:11-11 | `hash ^= c`, bit by bit: bit i of the result is set if and only if bits i of the state and of the byte differ |
| `Router.FnvVectors` | src/core/router.cpp:7-15 | the published FNV-1a values: 2166136261 for the empty key, 0xE40C292C for "a", 0x6222E842 for "fo" |
| `Router.StepInjective` | src/core/router.cpp:9-13 | each hash step is a permutation of the 32-bit states |
| `Router.StepSeparates` | src/core/router.cpp:9-13 | different bytes send a state to different states |
| `Router.OneByteSeparates` | src/core/router.cpp:7-15 | two keys of equal length that differ in exactly one byte have different hashes |
| `Router.Router.InitializeRing` | src/core/router.cpp:21-32 | the nested loops build the ring of all virtual nodes, the last writer winning a collision |
| `Router.RingHolds` | src/core/router.cpp:21-32 | the ring's points, for any number of shards: a position is on the ring if and only if it is the hash of a label "SHARD-s-VN-v" with v below 100, and it belongs to the last shard that has such a label |
| `Router.Router.GetShardId` | src/core/router.cpp:34-49 | the lookup is `ShardId`, the owner of the clockwise successor of the key's hash |
| `Router.SuccessorIsNearest` | src/core/router.cpp:41-48 | `lower_bound` with wrap-around is the unique nearest position clockwise |
| `Router.RingNeverEmpty` | src/core/router.cpp:35-38 | with at least one shard the ring is never empty, so the CRC fallback is not reached |
| `Router.ShardIdInRange` | src/core/router.cpp:34-49 | every key's owner is one of the shards |
| `Router.MinimalMovement` | src/core/router.cpp:21-49 | from n to n + 1 shards a key moves if and only if a new virtual node comes no later clockwise than its old one, and then to shard n, collisions included |
| `Router.GrowthMovesToNewShards` | src/core/router.cpp:21-49 | growing to any number of shards, a key stays or moves to a new shard |
| `HashMap.FindKey` | src/storage/hash_map.hpp:36-97 | in a table that represents a map, probing finds exactly the live keys, with their values, and runs out exactly when a missing key meets a table with no slot left unused |
| `HashMap.StepRefines` | src/storage/hash_map.hpp:36-97 | put, get and del answer as the map does and keep the representation: a live key sits in one slot, every slot on its probe path is occupied |
| `HashMap.RunRefines` | src/storage/hash_map.hpp:36-97 | over every operation sequence the table answers as a mathematical map does: tombstones neither hide nor resurrect a key |
| `HashMap.InsertBudget` | src/storage/hash_map.hpp:36-59 | over every operation sequence on a new table, used slots are as many as puts that inserted, never more than the capacity, whatever was deleted |
| `HashMap.MapRunBudget` | src/storage/hash_map.hpp:36-59 | from any state, used slots grow by exactly the puts that inserted and never pass the capacity |
| `HashMap.EntriesOfTable` | src/storage/hash_map.hpp:101-107 | `for_each` visits exactly the map, each key once |
| `HashMap.HashMap.constructor` | src/storage/hash_map.hpp:30-32 | a new table represents the empty map with nothing used |
| `HashMap.HashMap.Seek` | src/storage/hash_map.hpp:37-50 | the probe loop shared by put, get and del ends within capacity steps, at the slot `Find` names |
| `HashMap.HashMap.Put` | src/storage/hash_map.hpp:36-59 | the map's put; full exactly when the key is not live and every slot is used, and then nothing changes; `size_` stays the live count |
| `HashMap.HashMap.Get` | src/storage/hash_map.hpp:62-74 | the map's lookup |
| `HashMap.HashMap.Del` | src/storage/hash_map.hpp:82-97 | the map's removal; the slot stays used |
| `HashMap.HashMap.ForEach` | src/storage/hash_map.hpp:101-107 | the loop visits the live slots in table order |
| `Values.SortedSet.Insert` | src/storage/value.hpp:36-44 | tree and dictionary stay in agreement, whether the member is new or changes score |
| `Values.SortedSet.Erase` | src/storage/value.hpp:46-54 | tree and dictionary stay in agreement; true exactly if the member was there |
| `Values.InsertIndexed` | src/storage/value.hpp:36-44 | the tree is exactly the (score, member) pairs of the dictionary, strictly increasing, after an insert |
| `Values.EraseIndexed` | src/storage/value.hpp:46-54 | the same after an erase |
| `Values.TreeDetermined` | src/storage/value.hpp:26-54 | the tree is determined by the dictionary |
| `Values.TreeRank` | src/storage/value.hpp:26-30 | the i-th entry of the tree has exactly i entries below it in (score, member) order |
| `Values.TreeSize` | src/storage/value.hpp:56-58 | the tree and the dictionary have the same size |
| `Shard.Shard.constructor` | src/storage/shard.cpp:6-6 | a new shard has no keys, no expiries and 10000 free slots |
| `Shard.Shard.Set` | src/storage/shard.cpp:8-12 | the value is stored and the key's expiry cleared; if the table is full nothing changes, expiries included |
| `Shard.Shard.Get` | src/storage/shard.cpp:14-29 | the value is found if and only if the key has one and `now` is not past its timestamp; past it, the key is removed from both maps; otherwise nothing changes, and no other key ever does |
| `Shard.Shard.Peek` | src/storage/shard.cpp:31-49 | the value is found if and only if the key has one and `now` is not past its timestamp, as by the mutating `get` |
| `Shard.Shard.Del` | src/storage/shard.cpp:51-54 | the key is removed from both maps; true exactly if the table had it, expired or not |
| `Shard.Shard.SetExpiry` | src/storage/shard.cpp:56-58 | sets the key's timestamp only |
| `Shard.Shard.GetExpiry` | src/storage/shard.cpp:60-66 | the key's timestamp, or -1 |
| `Shard.SetOnSlots` | src/storage/shard.cpp:8-12 | `set` changes its key's slot only, and fails exactly when a new key finds every slot used |
| `Shard.GetOnSlots` | src/storage/shard.cpp:14-29 | `get` changes its key's slot only, to empty exactly if it had expired |
| `Shard.DelOnSlots` | src/storage/shard.cpp:51-54 | `del` empties its key's slot only |
| `CommandTheorems.ClampExact` | src/commands/list_commands.hpp:161-167 | a range holds exactly the indices from its start to its stop, negative ones counted from the end, and index 0 even if the stop lies before the list |
| `CommandTheorems.FindsRegistered` | src/main.cpp:158-189 | the registry finds every registered name, with its own command |
| `ShardCommands.AddMembers` | src/commands/set_commands.hpp:43-49 | SADD's loop is set union, and counts the growth, duplicate arguments once |
| `ShardCommands.EraseMembers` | src/commands/set_commands.hpp:140-146 | SREM's loop is set difference, and counts the shrinkage |
| `ShardCommands.AssignFields` | src/commands/hash_commands.hpp:45-61 | HSET's loop gives each field the value of the last pair that names it, leaves other fields alone, and counts the new ones |
| `ShardCommands.EraseFields` | src/commands/hash_commands.hpp:193-199 | HDEL's loop removes exactly the named fields, and counts them |
| `ShardCommands.AddAllScores` | src/commands/zset_commands.hpp:46-69 | ZADD's loop stops at the first bad score and keeps what it did: each member named before it has a score that compares equal to that of the last such pair, every other member keeps its score; it counts the new members |
| `ShardCommands.EraseScores` | src/commands/zset_commands.hpp:192-198 | ZREM's loop erases the members in order, and counts those that were there |
| `ShardCommands.PushFront` | src/commands/list_commands.hpp:45-49 | LPUSH's loop puts the arguments before the list, last first |
| `ShardCommands.ClampRange` | src/commands/list_commands.hpp:161-167 | the in-place index arithmetic of LRANGE and ZRANGE is `Clamp` |
| `ShardCommands.RangeReply` | src/commands/list_commands.hpp:159-174 | LRANGE's reply bytes are the array reply of the slice, the header count matching |
| `ShardCommands.SortedRangeReply` | src/commands/zset_commands.hpp:109-148 | ZRANGE's reply bytes are the array reply of the entries, with or without scores, the header count matching |
| `ShardCommands.ModifyList` | src/commands/list_commands.hpp:21-328 | the list commands on a stored value leave the value of `ApplyList` and reply with its bytes, LRANGE by its reply loop |
| `ShardCommands.ModifySet` | src/commands/set_commands.hpp:20-200 | the set commands on a stored value leave the value of `ApplySet` and reply with its bytes |
| `ShardCommands.ModifyHash` | src/commands/hash_commands.hpp:20-250 | the hash commands on a stored value leave the value of `ApplyHash` and reply with its bytes |
| `ShardCommands.ModifySorted` | src/commands/zset_commands.hpp:21-306 | the sorted-set commands on a stored value leave the value of `ApplySorted` and reply with its bytes, ZADD by the loop above, ZRANGE by its reply loop; what these are, `ZscoreAfterZadd`, `ZscoreAfterZrem` and `ZrangeByRank` say |
| `ShardCommands.OnMissing` | src/commands/set_commands.hpp:31-41 | a command that creates its key does to it what it does to an empty collection; the others answer nil, zero or an empty array and store nothing |
| `ShardCommands.Execute` | src/commands/set_commands.hpp:26-49 | every list, set, hash and sorted-set command, run on a shard's table and expiry map, has the effect and reply bytes of `Apply` on its key, touches no other key, and throws exactly if it must insert and every slot is used |
| `ShardCommands.ExecuteSetDel` | src/commands/string_commands.hpp:19-114 | SET and DEL on a shard, in the same terms |
| `ShardCommands.ExecuteGetTtl` | src/commands/generic_commands.hpp:69-116 | GET and TTL on a shard, in the same terms; and outright: GET replies with the stored string until the timestamp has passed, nil after, an error for another type; TTL with r whole seconds, 1000 r <= timestamp - now < 1000 (r + 1) |
| `ShardCommands.ExecuteExpire` | src/commands/generic_commands.hpp:18-60 | EXPIRE on a shard, in the same terms |
| `CommandTheorems.ApplyKeeps` | src/commands/generic_commands.hpp:31-46 | every command keeps sorted sets indexed, and expiries on live keys only |
| `CommandTheorems.AddScoresKeeps` | src/commands/zset_commands.hpp:46-69 | ZADD adds exactly the members before the first bad score, and succeeds if and only if there is none |
| `CommandTheorems.LazyIsEager` | src/storage/shard.cpp:14-29 | but for DEL's reply, no command can tell an expired key from a removed one |
| `CommandTheorems.DelTells` | src/storage/shard.cpp:51-54 | DEL's reply differs if and only if the key is there and has expired |
| `CommandTheorems.DelOfExpired` | src/storage/shard.cpp:51-54 | DEL of a key that has expired replies 1 before it is collected and 0 after |
| `CommandTheorems.LazyAgreesWithEager` | src/storage/shard.cpp:8-66 | over every sequence of commands on any keys, while time does not go back, a reply differs from that of a store that removes every key the moment its timestamp is past if and only if it is DEL's, of a key that has expired and was not yet collected |
| `CommandTheorems.CountExact` | src/commands/zset_commands.hpp:46-69 | for SADD, SREM, HSET, HDEL, ZADD and ZREM, the reply is the change in size if and only if ZADD does not fail after adding a member |
| `CommandTheorems.ZAddHalfway` | src/commands/zset_commands.hpp:46-69 | a ZADD that replies with the float error has added the member before the bad score |
| `CommandTheorems.CountsConserved` | src/commands/set_commands.hpp:43-49 | over any run of these commands on a key, the final size is at least the initial size plus what the replies say was added minus what they say was removed, and equal to it if and only if no ZADD fails after adding a member |
| `CommandTheorems.CardReply` | src/commands/set_commands.hpp:175-200 | SCARD, HLEN and ZCARD reply with that size, or the wrong-type error exactly for another type |
| `CommandTheorems.RangeRanks` | src/commands/zset_commands.hpp:109-148 | with and without scores: ZRANGE's i-th member has exactly `lo + i` entries below it, its score follows if asked for, and nothing else is listed |
| `CommandTheorems.ArrayReplyParses` | src/commands/zset_commands.hpp:129-148 | an array reply parses back to exactly its items |
| `CommandLaws.IntegerReads` | src/commands/generic_commands.hpp:101-101 | the number in an integer reply reads back, whatever its sign |
| `CommandLaws.LastPairWins` | src/commands/hash_commands.hpp:45-61 | HSET gives each field the value of the last pair that names it; other fields keep theirs |
| `CommandLaws.LastScoreWins` | src/commands/zset_commands.hpp:46-69 | ZADD gives each member a score that compares equal to that of the last pair naming it before the first bad score; other members keep theirs |
| `CommandLaws.SliceExact` | src/commands/list_commands.hpp:155-174 | LRANGE lists exactly the items whose index lies between its start and its stop, in order |
| `CommandLaws.MissingReads` | src/commands/list_commands.hpp:79-183 | what each reading or removing command answers for a key that is not there or whose timestamp has passed |
| `CommandLaws.WrongTypeExact` | src/commands/string_commands.hpp:52-83 | a command gives the wrong-type error if and only if its key is live and holds another kind of value, and then changes nothing |
| `ReadWriteTheorems.RunIsHistory` | src/main.cpp:54-105 | the executed commands of every run, on any number of cores, form a history, so the laws below hold in every run |
| `ReadWriteTheorems.Kept` | src/storage/shard.cpp:8-66 | commands on other keys leave what is stored under a key alone, expired or not |
| `ReadWriteTheorems.GetAfterSet` | src/commands/string_commands.hpp:19-83 | after SET, and any commands on other keys, GET replies with the value, at any time |
| `ReadWriteTheorems.GetAfterDel` | src/commands/string_commands.hpp:52-114 | after DEL, GET replies nil; DEL replies 1 if and only if something was stored |
| `ReadWriteTheorems.GetAfterExpire` | src/commands/generic_commands.hpp:18-60 | after SET and EXPIRE of n seconds whose second clock reading is t, GET at `now` replies with the value if and only if now <= t + 1000 n, and nil otherwise |
| `ReadWriteTheorems.TtlAfterExpire` | src/commands/generic_commands.hpp:69-116 | TTL then replies with the whole seconds left, -2 once t + 1000 n has passed at either of its clock readings; a timestamp of -1 passes for none |
| `ReadWriteTheorems.TtlAfterSet` | src/commands/generic_commands.hpp:69-116 | after SET, TTL replies -1 |
| `ReadWriteTheorems.HgetAfterHset` | src/commands/hash_commands.hpp:20-121 | after HSET, HGET replies with the value of the last pair naming the field, or with what was there before if none does |
| `ReadWriteTheorems.HgetallAfterHset` | src/commands/hash_commands.hpp:130-167 | after HSET, HGETALL lists every field once, in order, each followed by its value |
| `ReadWriteTheorems.HgetAfterHdel` | src/commands/hash_commands.hpp:176-214 | after HDEL, HGET finds exactly the fields that were there and were not named |
| `ReadWriteTheorems.ZscoreAfterZadd` | src/commands/zset_commands.hpp:273-306 | after ZADD, ZSCORE shows a score that compares equal to that of the last pair naming the member before the first bad score, that very score unless it is a zero; the score of before if no such pair does |
| `ReadWriteTheorems.ZscoreAfterZrem` | src/commands/zset_commands.hpp:175-212 | after ZREM, ZSCORE finds exactly the members that were there and were not named |
| `ReadWriteTheorems.ZrangeByRank` | src/commands/zset_commands.hpp:86-148 | in every history, ZRANGE lists exactly the members whose number of entries below lies between its start and its stop, in that order, each with its score if asked for in any spelling |
| `ReadWriteTheorems.SmembersAfter` | src/commands/set_commands.hpp:20-111 | after SADD or SREM, SMEMBERS lists once and in order exactly the members that were there or added, or that were there and not removed |
| `ReadWriteTheorems.LrangeAfterPush` | src/commands/list_commands.hpp:136-183 | after LPUSH or RPUSH, LRANGE lists the selected items of the arguments, last first, before the list, or of the arguments after it |
| `ReadWriteTheorems.WholeListAfterPush` | src/commands/list_commands.hpp:136-183 | and LRANGE 0 -1 all of it |
| `ReadWriteTheorems.LlenAfterPush` | src/commands/list_commands.hpp:21-54 | LLEN then replies with the length the push replied with |
| `ReadWriteTheorems.PopAfterPush` | src/commands/list_commands.hpp:79-111 | LPOP replies with the first item and RPOP with the last, whichever end was pushed to |
| `ReadWriteTheorems.QueueConserved` | src/commands/list_commands.hpp:207-284 | over every history in which a key is pushed to at one end and popped at the other: what was there and what was pushed is, in order, what the pops replied with followed by what is there |
| `ReadWriteTheorems.PingAnswered` | src/network/connection.cpp:150-169 | PING, however it is spelled, is answered with +PONG and changes nothing |
| `ReadWriteTheorems.ExpireRefused` | src/commands/generic_commands.hpp:24-29 | EXPIRE of something that `std::stol` refuses gets the integer error and changes nothing |
| `ReadWriteTheorems.ArityRefused` | src/commands/string_commands.hpp:19-43 | every command with a number of words it does not take is refused and changes nothing |
| `ReadWriteTheorems.SetRefused` | src/commands/string_commands.hpp:19-43 | so SET with anything but a key and a value |
| `ReadWriteTheorems.FoundInLowerCase` | src/network/connection.cpp:150-161 | a connection finds every registered command by its lower-case name too |
| `ProtocolPipelines.NeverForwardedAgain` | src/main.cpp:57-79 | a request in a batch is for a key its core owns, so it runs there, is not forwarded again, and gives a non-empty reply |
| `ProtocolPipelines.TrafficStep` | src/main.cpp:54-105 | every step keeps, for each pair of cores, the order and content of requests and replies: executed then pending is issued, answered then pending is replied |
| `ProtocolSafety.WakefulStep` | src/core/topology.hpp:33-56 | every step keeps the start-up order and the wake-up invariant |
| `ProtocolSafety.AllRegistered` | src/core/topology.hpp:33-44 | once a core runs, every notify fd is registered |
| `ProtocolSafety.ConnectedStep` | src/main.cpp:45-48 | every step keeps each connection on the core that created it, and each command's origin with its connection |
| `ProtocolSafety.RefinesStep` | src/commands/string_commands.hpp:19-114 | every step keeps the shards, together, equal to one map on which the executed commands ran one by one |
| `ProtocolTheorems.Reachable` | src/main.cpp:26-115 | all invariants hold in every state of every run |
| `ProtocolTheorems.Linearizable` | src/main.cpp:54-105 | in every state of every run: each key is only on its owner, the shards are one map after the executed commands, each execution's reply is that map's at that point, no command executes twice, and every reply handed over is an execution's |
| `ProtocolTheorems.EveryReply` | src/main.cpp:94-103 | every reply handed over is the one its command got on its owner, and goes to the connection that sent it; one that is dropped was for a connection that is closed |
| `ProtocolTheorems.RealTimeOrder` | src/main.cpp:54-105 | a command answered before another was sent executes before it |
| `ProtocolTheorems.ExecutionWasIssued` | src/main.cpp:57-79 | every execution is of a command that was sent, with its arguments, on the core it was routed to |
| `ProtocolTheorems.ExecutedOnce` | src/main.cpp:57-79 | no command executes twice |
| `ProtocolTheorems.Accounting` | src/main.cpp:78-103 | for each pair of cores, commands sent are requests pending, plus replies pending, plus replies delivered or dropped |
| `ProtocolTheorems.InboxIsHome` | src/main.cpp:56-103 | every request waiting at a core is for a key it owns, and every response for a connection it created |
| `ProtocolTheorems.SameOwnerExecutes` | src/core/itc_channel.hpp:45-55 | two commands of one core for one owner execute in the order sent |
| `ProtocolTheorems.SameOwnerAnswers` | src/main.cpp:56-103 | and their replies are handed over in that order |
| `ProtocolTheorems.NoWakeupIsLost` | src/core/io_context.cpp:25-38 | in every state of every run, a core with messages waiting has an event pending, a read completed, a swap ahead, or a producer about to notify; and whoever notifies finds every fd registered |
| `ProtocolProgress.InternalWorks` | src/core/io_context.cpp:119-143 | every step the cores take on their own reduces the work left |
| `ProtocolProgress.SomeoneCanStep` | src/core/io_context.cpp:119-143 | unless everything is quiet, some core can step: no deadlock |
| `ProtocolProgress.QuietAnswered` | src/main.cpp:94-103 | when everything is quiet, every command has an answer, and it was delivered unless the connection is closed |
| `ProtocolProgress.InternalRunBounded` | src/core/io_context.cpp:119-143 | the cores on their own cannot run for ever, whatever the schedule |
| `ProtocolProgress.EveryScheduleAnswers` | src/core/io_context.cpp:119-143 | whatever the schedule, a run of the cores on their own that cannot go on has answered every command, within the work there was, and delivered every answer whose connection is not closed |
| `ProtocolProgress.Drains` | src/main.cpp:54-105 | from every reachable state, the cores on their own can answer every command sent so far |
| `ProtocolDelivery.DeliveredIffOpen` | src/main.cpp:94-103 | in every run, at the step that hands over a reply: it is delivered if and only if no earlier step disconnected its connection |
| `ProtocolDelivery.EveryDelivery` | src/main.cpp:94-103 | the same of every reply of every run, in terms of the actions of the run alone |
| `ProtocolDelivery.EveryRunAttends` | src/main.cpp:94-103 | in every run that has come to rest, every command was answered, and its answer delivered if the run never disconnected its connection |
| `SnapshotFormat.WordRoundTrip` | src/persistence/rdb_manager.hpp:152-164 | fixed-size little-endian numbers read back |
| `SnapshotFormat.StringInverts` | src/persistence/rdb_manager.hpp:152-164 | `read_string` inverts `write_string` below 2^32 bytes, whatever follows |
| `SnapshotFormat.CountedInverts` | src/persistence/rdb_manager.hpp:214-257 | a counted run of items reads back, for any item whose reader inverts its writer |
| `SnapshotFormat.TakenAllSize` | src/persistence/rdb_manager.hpp:214-257 | whatever run of items is read took exactly the bytes writing it would |
| `Snapshot.HashRoundTrip` | src/persistence/rdb_manager.hpp:234-244 | assigning a hash's pairs in field order rebuilds the hash |
| `Snapshot.SortedRoundTrip` | src/persistence/rdb_manager.hpp:246-257 | inserting a sorted set's entries in tree order rebuilds it, tree and dictionary |
| `Snapshot.ValueInverts` | src/persistence/rdb_manager.hpp:166-257 | every storable value reads back |
| `Snapshot.TakenValueSize` | src/persistence/rdb_manager.hpp:214-257 | whatever value is read, from any bytes, took at least the bytes writing it would |
| `Snapshot.OneKeyFile` | src/persistence/rdb.hpp:9-20 | the file of one string key with an expiry, byte by byte |
| `Snapshot.RecordInverts` | src/persistence/rdb_manager.hpp:75-138 | the reader as written inverts the writer on records without an expiry; the corrected reader on all |
| `Snapshot.TakenRecordSize` | src/persistence/rdb_manager.hpp:81-119 | for a record with an expiry the reader as written takes at least 13 bytes more than its entry, 4 more than the writer writes |
| `SnapshotTheorems.FillSlots` | src/persistence/rdb_manager.hpp:140-145 | after a load, each key is in its owner's shard as last read, and nowhere else |
| `SnapshotTheorems.FillRoom` | src/persistence/rdb_manager.hpp:140-145 | a load throws if and only if some shard is to hold more keys than it has slots |
| `SnapshotTheorems.RoundTrip` | src/persistence/rdb_manager.hpp:18-149 | for every database and any new number of cores: loading what was saved restores the same global map, each key with its new owner only, if and only if no key has an expiry and every new shard has room; without expiries, lack of room is the only failure |
| `SnapshotTheorems.CorrectedRoundTrip` | src/persistence/rdb_manager.hpp:84-119 | with the corrected reader, expiries are restored too |
| `SnapshotFile.SameCoresRoom` | src/persistence/rdb_manager.hpp:140-145 | with the same cores there is always room: a shard holds no more keys than its table has slots |
| `SnapshotTheorems.ExpiryLost` | src/persistence/rdb_manager.hpp:81-90 | a database of one key with an expiry is not restored |
| `SnapshotFile.WriteEntry` | src/persistence/rdb_manager.hpp:166-212 | the loops over a value's items write its entry |
| `SnapshotFile.WriteShard` | src/persistence/rdb_manager.hpp:39-53 | the callback writes the records of a shard in table order, each expiry before its key |
| `SnapshotFile.ListingLists` | src/persistence/rdb_manager.hpp:27-54 | the shards' records, in shard and table order, are every key of the database, once |
| `SnapshotFile.SaveShards` | src/persistence/rdb_manager.hpp:18-61 | the file is the snapshot of that listing |
| `SnapshotFile.ReadItems` | src/persistence/rdb_manager.hpp:214-257 | the reading loops take the counted run of items |
| `SnapshotFile.ReadRecord` | src/persistence/rdb_manager.hpp:75-138 | one turn of the loop reads the record `TakeRecord` names, value by value |
| `SnapshotFile.InsertRecord` | src/persistence/rdb_manager.hpp:113-118 | one insertion changes the owner's shard only |
| `SnapshotFile.LoadRecords` | src/persistence/rdb_manager.hpp:75-146 | the loop, which inserts each record as it is read, leaves the shards as `Load` says |
| `SnapshotFile.LoadFile` | src/persistence/rdb_manager.hpp:63-149 | the header checks and the loop, for every file: loaded, refused, threw, or ran out inside a record |
| `SnapshotFile.SaveAndLoad` | src/persistence/rdb_manager.hpp:18-149 | saving shards without expiries and loading the file into as many fresh ones never throws, and restores every key where it was |
| `Server.RealServiceOk` | src/main.cpp:158-189 | the real router, registry and commands meet what the protocol's theorems ask |
| `Server.ForwardingTransparent` | src/main.cpp:59-77 | a command to be forwarded is answered by its owner as it would be locally if and only if its name was sent in upper case |
| `Server.LowerCaseForwarded` | src/main.cpp:59-77 | a lower-case GET is answered with nil by a connection and with an unknown-command error by the inter-core handler |
| `Server.ForwardedIsUnknown` | src/main.cpp:59-77 | in every run, a forwarded command whose name is not in upper case is answered with an unknown-command error |
| `TwoCores.LowerCaseRun` | src/main.cpp:59-77 | a run of two cores in which a lower-case GET is forwarded and so answered |
| `Server.PlacementInvisible` | src/main.cpp:54-105 | in every run of upper-case commands, the shards and all replies are those of one thread executing the commands in order |
| `Server.ShardServes` | src/main.cpp:64-79 | what a shard does when it runs a command is what the protocol's single map says, at every key |
| `Server.AlwaysPlaced` | src/core/topology.hpp:87-94 | in every run of the server, each key is only in its owner's shard, sorted sets stay indexed, and only live keys have an expiry |
| `Server.RestartInPlace` | src/main.cpp:151-156 | with as many cores as before, the same without any assumption about room |
| `Server.Restart` | src/main.cpp:151-156 | from every state of every run, saving and loading into any number of cores with room starts the new server on exactly the database the old one had reached: without expiries for the reader as written, with them for the corrected one |

## Left out

- `src/network/tcp_server.cpp`, sockets, submission and completion queues: only the event counter and the completion of a read are steps of the protocol.
- Object lifetime of connections, including what happens after a write error; a closed connection only leaves its core's table.
- `src/consensus`, `src/storage/engine.hpp`, configuration and deployment: not part of the server's data path.
- `Router::crc16`: shown unreachable, not modelled.
- The topology's registration, barrier and notification, and the handler in `main.cpp`, are steps of the transition system rather than methods of a class; `ItcChannel` is both.
- SAVE running beside other cores: a save is one atomic step, and SAVE's reply is a parameter.
- A shard that is full: in the protocol every insertion finds room; `ShardCommands.Served` says exactly when one does not.
- `std::stod` and the printing of scores are parameters; scores are 64-bit patterns other than NaN, and a load that reads a NaN is not modelled further.
- `std::hash` in the table is an arbitrary function, and time is an input.
- Overflow of 64-bit timestamps in EXPIRE and of the 32-bit connection counter.
- A load that runs out inside a record reads indeterminate values in the original; the model stops there.
- `SnapshotFormat` writes numbers low byte first: hosts of the other byte order are not modelled.
- Redis's own semantics of range ends below the start of a list: the model has the code's clamping to 0.
