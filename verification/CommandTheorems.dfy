/** Laws of the commands: lazy expiry is invisible, reply counts are conserved, sorted sets stay
    indexed, and array replies parse back. */
module CommandTheorems {
  import opened Bytes
  import opened Values
  import opened Protocol
  import opened Commands
  import RespParser
  import ParserTheorems

  // ---------------------------------------------------------------- the registry

  lemma AllCommands(c: Command)
    ensures c in ALL
  {
  }

  lemma TextChars(c: Command)
    ensures 3 <= |Text(c)| <= 8 && forall i :: 0 <= i < |Text(c)| ==> 'A' <= Text(c)[i] <= 'Z'
  {
  }

  lemma TextInjective(c: Command, d: Command)
    requires |Text(c)| == |Text(d)| && forall i :: 0 <= i < |Text(c)| ==> Text(c)[i] == Text(d)[i]
    ensures c == d
  {
    TextChars(c);
    assert Text(c)[0] == Text(d)[0] && Text(c)[1] == Text(d)[1] && Text(c)[2] == Text(d)[2];
  }

  /** The registry finds exactly the registered names, each with its own command. */
  lemma FindsRegistered(c: Command)
    ensures Find(Ascii(Text(c)), ALL) == Some(c)
  {
    hide Text, Find, Ascii;
    AllCommands(c);
    var r := Find(Ascii(Text(c)), ALL);
    TextChars(c);
    TextChars(r.value);
    AsciiInjective(Text(c), Text(r.value));
    TextInjective(c, r.value);
  }

  lemma AsciiInjective(s: string, t: string)
    requires (forall i :: 0 <= i < |s| ==> s[i] <= 'Z') && (forall i :: 0 <= i < |t| ==> t[i] <= 'Z') && Ascii(s) == Ascii(t)
    ensures s == t
  {
    forall i | 0 <= i < |s| ensures i < |t| && s[i] == t[i] {
      assert Ascii(s)[i] == Ascii(t)[i];
    }
  }

  // ---------------------------------------------------------------- what every command keeps

  /** Only live keys have an expiry, and a sorted set's indexes agree. */
  ghost predicate SlotOk(slot: Slot) {
    && (slot.expiry.Some? ==> slot.value.Some?)
    && (slot.value.Some? && slot.value.value.Sorted? ==> Indexed(slot.value.value.zset))
  }

  ghost function MembersBeforeError(env: Env, pairs: seq<Bytes>): set<Bytes>
    decreases |pairs|
  {
    if |pairs| < 2 || env.stod(pairs[0]).None? then {}
    else {pairs[1]} + MembersBeforeError(env, pairs[2..])
  }

  /** Some score among the pairs is not a number. */
  ghost predicate BadScore(env: Env, pairs: seq<Bytes>)
    decreases |pairs|
  {
    |pairs| >= 2 && (env.stod(pairs[0]).None? || BadScore(env, pairs[2..]))
  }

  /** ZADD keeps the indexes in agreement and adds exactly the members before the first bad score. */
  lemma {:induction false} AddScoresKeeps(env: Env, z: ZSet, pairs: seq<Bytes>)
    requires Indexed(z)
    ensures var y := AddScores(env, z, pairs).0;
            Indexed(y) && y.dict.Keys == z.dict.Keys + MembersBeforeError(env, pairs)
    ensures AddScores(env, z, pairs).1 <==> !BadScore(env, pairs)
    decreases |pairs|
  {
    if |pairs| >= 2 && env.stod(pairs[0]).Some? {
      var score, m := env.stod(pairs[0]).value, pairs[1];
      InsertIndexed(z, ZEntry(score, m));
      var y := if m in z.dict && Rank(z.dict[m]) == Rank(score) then z else ZInsert(z, ZEntry(score, m));
      AddScoresKeeps(env, y, pairs[2..]);
    }
  }

  lemma {:induction false} RemoveMembersKeeps(z: ZSet, ms: seq<Bytes>)
    requires Indexed(z)
    ensures var y := RemoveMembers(z, ms); Indexed(y) && y.dict == z.dict - ToSet(ms)
    decreases |ms|
  {
    if ms == [] {
      assert z.dict - ToSet(ms) == z.dict;
    } else {
      EraseIndexed(z, ms[0]);
      RemoveMembersKeeps(ZErase(z, ms[0]), ms[1..]);
      assert ToSet(ms) == {ms[0]} + ToSet(ms[1..]);
      assert ZErase(z, ms[0]).dict == z.dict - {ms[0]};
      assert z.dict - {ms[0]} - ToSet(ms[1..]) == z.dict - ToSet(ms);
    }
  }

  lemma SortedKeeps(env: Env, c: Command, args: seq<Bytes>, p: Slot)
    requires c in {ZADD, ZRANGE, ZREM, ZCARD, ZSCORE} && ArityOk(c, |args|) && SlotOk(p)
    ensures SlotOk(ApplySorted(env, c, args, p).0)
  {
    hide AddScores, RemoveMembers, Indexed, Range, Stoi;
    EmptyIndexed();
    AddScoresKeeps(env, EMPTY_ZSET, args[2..]);
    if p.value.Some? && p.value.value.Sorted? {
      AddScoresKeeps(env, p.value.value.zset, args[2..]);
      RemoveMembersKeeps(p.value.value.zset, args[2..]);
    }
  }

  lemma StringsKeep(c: Command, args: seq<Bytes>, clock: Clock, slot: Slot)
    requires OnStrings(c) && ArityOk(c, |args|) && (c == EXPIRE ==> Stol(args[2]).Some?) && SlotOk(slot)
    ensures SlotOk(ApplyString(c, args, clock, slot).0)
  {
    hide Indexed, Stol;
  }

  lemma CollectionsKeep(env: Env, c: Command, args: seq<Bytes>, p: Slot)
    requires !OnStrings(c) && Early(env, c, args) == None && c !in {ZADD, ZRANGE, ZREM, ZCARD, ZSCORE} && SlotOk(p)
    ensures SlotOk(ApplyTyped(env, c, args, p).0)
  {
    hide Indexed, Stoi, Slice, SetFields, Reverse, ApplySorted, Early;
    if c in {LPUSH, LPOP, LRANGE, RPUSH, RPOP, LLEN} {
      hide ApplySet, ApplyHash;
    } else {
      hide ApplyList;
    }
  }

  /** Every command keeps expiries on live keys only and sorted sets indexed. */
  lemma ApplyKeeps(env: Env, c: Command, args: seq<Bytes>, clock: Clock, slot: Slot)
    requires Early(env, c, args) == None && SlotOk(slot)
    ensures SlotOk(Apply(env, c, args, clock, slot).0)
  {
    hide Indexed, ApplyString, ApplyList, ApplySet, ApplyHash, ApplySorted;
    if OnStrings(c) {
      StringsKeep(c, args, clock, slot);
    } else if c in {ZADD, ZRANGE, ZREM, ZCARD, ZSCORE} {
      SortedKeeps(env, c, args, Purge(slot, clock.first));
    } else {
      CollectionsKeep(env, c, args, Purge(slot, clock.first));
    }
  }

  // ---------------------------------------------------------------- lazy and eager expiry

  /** Except for DEL's reply, a command cannot tell an expired key from a removed one. */
  lemma LazyIsEager(env: Env, c: Command, args: seq<Bytes>, clock: Clock, slot: Slot)
    requires Early(env, c, args) == None
    ensures var lazy, eager := Apply(env, c, args, clock, slot), Apply(env, c, args, clock, Purge(slot, clock.first));
            lazy.0 == eager.0 && (c != DEL ==> lazy.1 == eager.1)
  {
    hide ApplyList, ApplySet, ApplyHash, ApplySorted;
  }

  /** DEL's reply counts an expired key that was not collected yet: exactly then it differs. */
  lemma DelTells(env: Env, args: seq<Bytes>, clock: Clock, slot: Slot)
    requires Early(env, DEL, args) == None
    ensures Apply(env, DEL, args, clock, slot).1 == Apply(env, DEL, args, clock, Purge(slot, clock.first)).1
            <==> !Stale(slot, clock.first)
  {
  }

  /** The key has expired and has not been collected. */
  predicate Stale(slot: Slot, now: int) {
    slot.value.Some? && slot.expiry.Some? && slot.expiry.value < now
  }

  /** A key that expired at 5, deleted at 6: one key removed if it was still there, none otherwise. */
  lemma DelOfExpired(env: Env)
    ensures var args, clock, slot := [Ascii("DEL"), Ascii("k")], Clock(6, 6), Slot(Some(Str([])), Some(5));
            && Early(env, DEL, args) == None
            && Apply(env, DEL, args, clock, slot).1 == Int(1)
            && Apply(env, DEL, args, clock, Purge(slot, 6)).1 == Int(0)
  {
  }

  datatype Op = Op(command: Command, key: Bytes, args: seq<Bytes>, clock: Clock)

  ghost predicate OpsOk(env: Env, ops: seq<Op>) {
    forall i :: 0 <= i < |ops| ==> Early(env, ops[i].command, ops[i].args) == None
  }

  /** Clock readings never go back, from `now` on. */
  ghost predicate Timely(ops: seq<Op>, now: int)
    decreases |ops|
  {
    ops == [] || (now <= ops[0].clock.first <= ops[0].clock.second && Timely(ops[1..], ops[0].clock.second))
  }

  ghost function Step(env: Env, db: Db, op: Op): (Db, Reply)
    requires Early(env, op.command, op.args) == None
  {
    var (slot, reply) := Apply(env, op.command, op.args, op.clock, At(db, op.key));
    (db[op.key := slot], reply)
  }

  /** A store that removes keys as soon as they expire. */
  ghost function PurgeAll(db: Db, now: int): Db {
    map k | k in db :: if db[k].expiry.Some? && db[k].expiry.value < now then EMPTY_SLOT else db[k]
  }

  ghost function LazyRun(env: Env, db: Db, ops: seq<Op>): seq<Reply>
    requires OpsOk(env, ops)
    decreases |ops|
  {
    if ops == [] then []
    else
      var (next, reply) := Step(env, db, ops[0]);
      [reply] + LazyRun(env, next, ops[1..])
  }

  ghost function EagerRun(env: Env, db: Db, ops: seq<Op>): seq<Reply>
    requires OpsOk(env, ops)
    decreases |ops|
  {
    if ops == [] then []
    else
      var (next, reply) := Step(env, PurgeAll(db, ops[0].clock.first), ops[0]);
      [reply] + EagerRun(env, next, ops[1..])
  }

  /** For each command, whether it finds its key expired and not yet collected. */
  ghost function FindsStale(env: Env, db: Db, ops: seq<Op>): seq<bool>
    requires OpsOk(env, ops)
    decreases |ops|
  {
    if ops == [] then []
    else [Stale(At(db, ops[0].key), ops[0].clock.first)] + FindsStale(env, Step(env, db, ops[0]).0, ops[1..])
  }

  /** The two stores hold the same unexpired slots. */
  ghost predicate SameUnexpired(lazy: Db, eager: Db, now: int) {
    forall k :: Purge(At(lazy, k), now) == Purge(At(eager, k), now)
  }

  lemma StepSame(env: Env, lazy: Db, eager: Db, op: Op, now: int)
    requires Early(env, op.command, op.args) == None && SameUnexpired(lazy, eager, now)
    requires now <= op.clock.first <= op.clock.second
    ensures var l, e := Step(env, lazy, op), Step(env, PurgeAll(eager, op.clock.first), op);
            && SameUnexpired(l.0, e.0, op.clock.second)
            && (l.1 == e.1 <==> !(op.command == DEL && Stale(At(lazy, op.key), op.clock.first)))
  {
    hide Apply;
    var t, k := op.clock.first, op.key;
    var purged := PurgeAll(eager, t);
    forall j ensures At(purged, j) == Purge(At(lazy, j), t) {
      assert Purge(At(lazy, j), now) == Purge(At(eager, j), now);
    }
    LazyIsEager(env, op.command, op.args, op.clock, At(lazy, k));
    if op.command == DEL { DelTells(env, op.args, op.clock, At(lazy, k)); }
    var l, e := Step(env, lazy, op).0, Step(env, purged, op).0;
    forall j ensures Purge(At(l, j), op.clock.second) == Purge(At(e, j), op.clock.second) {
      assert At(purged, j) == Purge(At(lazy, j), t);
    }
  }

  /** Lazy expiry agrees with eager expiry over every sequence of commands, while time does not go
      back: a reply differs exactly when it is DEL's, of a key that has expired and was not yet
      collected. */
  lemma {:induction false} LazyAgreesWithEager(env: Env, lazy: Db, eager: Db, ops: seq<Op>, now: int)
    requires OpsOk(env, ops) && Timely(ops, now) && SameUnexpired(lazy, eager, now)
    ensures var l, e := LazyRun(env, lazy, ops), EagerRun(env, eager, ops);
            var stale := FindsStale(env, lazy, ops);
            && |l| == |e| == |stale| == |ops|
            && forall i :: 0 <= i < |ops| ==> (l[i] == e[i] <==> !(ops[i].command == DEL && stale[i]))
    decreases |ops|
  {
    hide Step, SameUnexpired;
    if ops != [] {
      StepSame(env, lazy, eager, ops[0], now);
      var l, e := Step(env, lazy, ops[0]).0, Step(env, PurgeAll(eager, ops[0].clock.first), ops[0]).0;
      LazyAgreesWithEager(env, l, e, ops[1..], ops[0].clock.second);
    }
  }

  // ---------------------------------------------------------------- conserved counts

  /** The size of the collection under a key. */
  ghost function Card(slot: Slot): nat {
    match slot.value
    case None => 0
    case Some(v) =>
      match v
      case Set(ms) => |ms|
      case Hash(fs) => |fs|
      case Sorted(z) => |z.dict|
      case Nothing => 0
      case Str(_) => 0
      case List(_) => 0
  }

  /** What a reply says was added, or removed. */
  function Claimed(c: Command, reply: Reply): int {
    if !reply.Int? then 0
    else if c in {SADD, HSET, ZADD} then reply.n
    else -reply.n
  }

  const COUNTING: set<Command> := {SADD, SREM, HSET, HDEL, ZADD, ZREM}

  /** ZADD on this slot adds a new member and then stops at a bad score. */
  ghost predicate FailsHalfway(env: Env, c: Command, args: seq<Bytes>, slot: Slot)
    requires ArityOk(c, |args|)
  {
    && c == ZADD
    && (slot.value.None? || slot.value.value.Sorted?)
    && BadScore(env, args[2..])
    && !(MembersBeforeError(env, args[2..]) <= Members(slot))
  }

  /** A counting command's reply says by how much the collection grew or shrank, duplicates
      included, exactly unless ZADD fails halfway. */
  lemma CountExact(env: Env, c: Command, args: seq<Bytes>, clock: Clock, slot: Slot)
    requires Early(env, c, args) == None && c in COUNTING && SlotOk(slot) && !Expired(slot, clock.first)
    ensures var (after, reply) := Apply(env, c, args, clock, slot);
            && (Card(after) == Card(slot) + Claimed(c, reply) <==> !FailsHalfway(env, c, args, slot))
            && Card(after) >= Card(slot) + Claimed(c, reply)
    ensures Apply(env, c, args, clock, slot).0.expiry in {slot.expiry, None}
  {
    hide ApplySet, ApplyHash, ApplySorted, Card, SlotOk, Early, Members, BadScore, MembersBeforeError;
    EarlyArity(env, c, args);
    assert Purge(slot, clock.first) == slot;
    if c == ZADD {
      CountZAdd(env, args, slot);
    } else if c == ZREM {
      CountZRem(env, args, slot);
    } else if c in {SADD, SREM} {
      CountSet(c, args, slot);
    } else {
      CountHash(c, args, slot);
    }
  }

  lemma EarlyArity(env: Env, c: Command, args: seq<Bytes>)
    requires Early(env, c, args) == None
    ensures ArityOk(c, |args|)
  {
  }

  lemma CountSet(c: Command, args: seq<Bytes>, slot: Slot)
    requires c in {SADD, SREM} && ArityOk(c, |args|)
    ensures var (after, reply) := ApplySet(c, args, slot);
            Card(after) == Card(slot) + Claimed(c, reply) && after.expiry in {slot.expiry, None}
  {
  }

  lemma CountHash(c: Command, args: seq<Bytes>, slot: Slot)
    requires c in {HSET, HDEL} && ArityOk(c, |args|)
    ensures var (after, reply) := ApplyHash(c, args, slot);
            Card(after) == Card(slot) + Claimed(c, reply) && after.expiry in {slot.expiry, None}
  {
    hide SetFields;
  }

  lemma CountZRem(env: Env, args: seq<Bytes>, slot: Slot)
    requires ArityOk(ZREM, |args|)
    ensures var (after, reply) := ApplySorted(env, ZREM, args, slot);
            Card(after) == Card(slot) + Claimed(ZREM, reply) && after.expiry in {slot.expiry, None}
  {
    hide RemoveMembers, AddScores;
  }

  ghost function Members(slot: Slot): set<Bytes> {
    if slot.value.Some? && slot.value.value.Sorted? then slot.value.value.zset.dict.Keys else {}
  }

  lemma CountZAdd(env: Env, args: seq<Bytes>, slot: Slot)
    requires ArityOk(ZADD, |args|) && SlotOk(slot)
    ensures var (after, reply) := ApplySorted(env, ZADD, args, slot);
            && after.expiry in {slot.expiry, None}
            && (Card(after) == Card(slot) + Claimed(ZADD, reply) <==> !FailsHalfway(env, ZADD, args, slot))
            && Card(after) >= Card(slot) + Claimed(ZADD, reply)
  {
    ZAddShape(env, args, slot);
    if slot.value.None? || slot.value.value.Sorted? {
      var z := if slot.value.Some? then slot.value.value.zset else EMPTY_ZSET;
      assert Indexed(z) by { EmptyIndexed(); }
      hide ApplySorted, AddScores, Indexed, MembersBeforeError, BadScore, Card, Members, SlotOk;
      AddScoresKeeps(env, z, args[2..]);
      GrowsUnlessIncluded(z.dict.Keys, MembersBeforeError(env, args[2..]));
    }
  }

  lemma ZAddShape(env: Env, args: seq<Bytes>, slot: Slot)
    requires ArityOk(ZADD, |args|)
    ensures var (after, reply) := ApplySorted(env, ZADD, args, slot);
            && after.expiry in {slot.expiry, None}
            && if slot.value.None? || slot.value.value.Sorted? then
                 var z := if slot.value.Some? then slot.value.value.zset else EMPTY_ZSET;
                 var (y, ok) := AddScores(env, z, args[2..]);
                 && Card(after) == |y.dict.Keys| && Card(slot) == |z.dict.Keys| && Members(slot) == z.dict.Keys
                 && Claimed(ZADD, reply) == if ok then |y.dict.Keys| - |z.dict.Keys| else 0
               else after == slot && Claimed(ZADD, reply) == 0
  {
    hide AddScores, RemoveMembers, Range, Stoi;
  }

  /** ZADD k 1 a x b, where `x` is not a number: an error, and yet `a` was added. */
  lemma ZAddHalfway(env: Env, clock: Clock)
    requires env.stod(Ascii("1")).Some? && env.stod(Ascii("x")).None?
    ensures var args := [Ascii("ZADD"), Ascii("k"), Ascii("1"), Ascii("a"), Ascii("x"), Ascii("b")];
            && Early(env, ZADD, args) == None
            && var (after, reply) := Apply(env, ZADD, args, clock, EMPTY_SLOT);
               reply == Err(NotFloat) && Card(after) == 1
  {
    hide Ascii, ZInsert, ApplyString, ApplyList, ApplySet, ApplyHash, Stol;
    var pairs := [Ascii("1"), Ascii("a"), Ascii("x"), Ascii("b")];
    var args := [Ascii("ZADD"), Ascii("k")] + pairs;
    assert args[2..] == pairs && pairs[2..] == [Ascii("x"), Ascii("b")];
    var z := ZInsert(EMPTY_ZSET, ZEntry(env.stod(Ascii("1")).value, Ascii("a")));
    assert AddScores(env, z, pairs[2..]) == (z, false);
    assert AddScores(env, EMPTY_ZSET, pairs) == (z, false);
    OneInserted(ZEntry(env.stod(Ascii("1")).value, Ascii("a")));
  }

  lemma OneInserted(e: ZEntry)
    ensures |ZInsert(EMPTY_ZSET, e).dict| == 1
  {
    assert ZInsert(EMPTY_ZSET, e).dict.Keys == {e.member};
  }

  lemma GrowsUnlessIncluded(a: set<Bytes>, b: set<Bytes>)
    ensures (|a + b| == |a| <==> b <= a) && |a + b| >= |a|
  {
    if b <= a {
      assert a + b == a;
    } else {
      assert a + b == a + (b - a);
      assert |a + (b - a)| == |a| + |b - a|;
    }
  }

  ghost function RunOn(env: Env, slot: Slot, ops: seq<Op>): (Slot, int)
    requires OpsOk(env, ops)
    decreases |ops|
  {
    if ops == [] then (slot, 0)
    else
      var (next, reply) := Apply(env, ops[0].command, ops[0].args, ops[0].clock, slot);
      var (last, sum) := RunOn(env, next, ops[1..]);
      (last, Claimed(ops[0].command, reply) + sum)
  }

  /** Some command of the run is a ZADD that adds a member and then stops at a bad score. */
  ghost predicate SomeHalfway(env: Env, slot: Slot, ops: seq<Op>)
    requires OpsOk(env, ops)
    decreases |ops|
  {
    ops != [] &&
    (FailsHalfway(env, ops[0].command, ops[0].args, slot) ||
     SomeHalfway(env, Apply(env, ops[0].command, ops[0].args, ops[0].clock, slot).0, ops[1..]))
  }

  /** Reply counts are conserved: over any run of counting commands on a key that does not expire
      meanwhile, the final size is the initial size plus what the replies say was added, minus what
      they say was removed, exactly unless some ZADD fails halfway; then it is larger. */
  lemma {:induction false} CountsConserved(env: Env, slot: Slot, ops: seq<Op>)
    requires OpsOk(env, ops) && SlotOk(slot)
    requires forall i :: 0 <= i < |ops| ==> ops[i].command in COUNTING && !Expired(slot, ops[i].clock.first)
    ensures var (last, sum) := RunOn(env, slot, ops);
            && SlotOk(last) && Card(last) >= Card(slot) + sum
            && (Card(last) == Card(slot) + sum <==> !SomeHalfway(env, slot, ops))
    decreases |ops|
  {
    hide Apply, SlotOk, Card, FailsHalfway;
    if ops != [] {
      var op := ops[0];
      CountExact(env, op.command, op.args, op.clock, slot);
      ApplyKeeps(env, op.command, op.args, op.clock, slot);
      var next := Apply(env, op.command, op.args, op.clock, slot).0;
      assert forall i :: 0 <= i < |ops[1..]| ==> ops[1..][i] == ops[i + 1];
      CountsConserved(env, next, ops[1..]);
    }
  }

  /** SCARD, HLEN and ZCARD reply with that size. */
  lemma CardReply(env: Env, c: Command, args: seq<Bytes>, clock: Clock, slot: Slot)
    requires Early(env, c, args) == None && c in {SCARD, HLEN, ZCARD} && SlotOk(slot) && !Expired(slot, clock.first)
    ensures Apply(env, c, args, clock, slot) == (slot, Int(Card(slot))) || Apply(env, c, args, clock, slot).1 == Err(WrongType)
    ensures Apply(env, c, args, clock, slot).1 == Err(WrongType) <==>
            slot.value.Some? && !(if c == SCARD then slot.value.value.Set? else if c == HLEN then slot.value.value.Hash? else slot.value.value.Sorted?)
  {
    hide Early, SlotOk, ApplySet, ApplyHash, ApplySorted, ArityOk;
    EarlyArity(env, c, args);
    assert Purge(slot, clock.first) == slot;
    if c == SCARD { SetCard(args, slot); }
    else if c == HLEN { HashCard(args, slot); }
    else { SortedCard(env, args, slot); }
  }

  ghost predicate IsCard(slot: Slot, holds: bool, out: (Slot, Reply)) {
    if slot.value.Some? && !holds then out.1 == Err(WrongType) else out == (slot, Int(Card(slot)))
  }

  lemma SetCard(args: seq<Bytes>, slot: Slot)
    requires ArityOk(SCARD, |args|)
    ensures IsCard(slot, slot.value.Some? && slot.value.value.Set?, ApplySet(SCARD, args, slot))
  {
  }

  lemma HashCard(args: seq<Bytes>, slot: Slot)
    requires ArityOk(HLEN, |args|)
    ensures IsCard(slot, slot.value.Some? && slot.value.value.Hash?, ApplyHash(HLEN, args, slot))
  {
  }

  lemma SortedCard(env: Env, args: seq<Bytes>, slot: Slot)
    requires ArityOk(ZCARD, |args|) && SlotOk(slot)
    ensures IsCard(slot, slot.value.Some? && slot.value.value.Sorted?, ApplySorted(env, ZCARD, args, slot))
  {
    if slot.value.Some? && slot.value.value.Sorted? { TreeSize(slot.value.value.zset); }
    hide Indexed, AddScores, RemoveMembers, Range, Stoi;
  }

  // ---------------------------------------------------------------- ranges

  /** An index counted from the end if it is negative. */
  function FromEnd(i: int, size: nat): int {
    if i < 0 then size + i else i
  }

  /** A range holds exactly the indices from its start to its stop, and index 0 even if the stop lies
      before the list. */
  lemma ClampExact(start: int, stop: int, size: nat, i: nat)
    requires i < size
    ensures var r := Clamp(start, stop, size);
            (r.Some? && r.value.0 <= i <= r.value.1) <==>
            FromEnd(start, size) <= i && (i <= FromEnd(stop, size) || i == 0)
  {
  }

  /** ZRANGE lists nothing for an empty range. Otherwise its i-th member is the one with exactly
      `lo + i` entries below it, followed, if asked for, by its score; and it lists nothing else. */
  lemma RangeRanks(env: Env, z: ZSet, start: int, stop: int, withScores: bool, i: nat)
    requires Indexed(z)
    ensures var range, items := Clamp(start, stop, |z.tree|), Range(env, z, start, stop, withScores);
            if range.None? then items == []
            else
              var (lo, hi) := range.value;
              var width := if withScores then 2 else 1;
              && |items| == (hi - lo + 1) * width
              && (lo + i <= hi ==>
                    var e := z.tree[lo + i];
                    && |Below(z, e)| == lo + i
                    && items[i * width] == e.member && (withScores ==> items[i * width + 1] == env.showScore(e.score)))
  {
    hide Clamp, Indexed, Below;
    var range := Clamp(start, stop, |z.tree|);
    if range.Some? {
      var (lo, hi) := range.value;
      ListedEntries(env, z.tree[lo..hi + 1], withScores, i);
      if lo + i <= hi { TreeRank(z, lo + i); }
    }
  }

  lemma {:induction false} ListedEntries(env: Env, es: seq<ZEntry>, withScores: bool, i: nat)
    ensures var items, width := ListAll(env, es, withScores), if withScores then 2 else 1;
            && |items| == |es| * width
            && (i < |es| ==> items[i * width] == es[i].member && (withScores ==> items[i * width + 1] == env.showScore(es[i].score)))
  {
    if es != [] { ListedEntries(env, es[..|es| - 1], withScores, i); }
  }

  /** A non-empty array reply parses back to exactly its items: the header count is the number of
      bulk strings that follow. */
  lemma ArrayReplyParses(items: seq<Bytes>, tail: Bytes)
    requires ParserTheorems.Encodable(items)
    ensures var r := RespParser.Parse(RespParser.FRESH, Render(Array(items)) + tail);
            r.result == RespParser.Complete && r.parser.args == items && r.boundary == |Render(Array(items))|
  {
    hide RespParser.Parse, ParserTheorems.Encode, ErrorText;
    ParserTheorems.ParseEncode(items, tail);
  }
}
