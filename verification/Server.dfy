/** The whole server: the protocol run with the real router, registry and commands; where a command
    runs; and a restart from a snapshot. */
module Server {
  import opened Bytes
  import opened Values
  import opened Commands
  import opened CommandTheorems
  import opened Protocol
  import opened ProtocolPipelines
  import opened ProtocolSafety
  import opened ProtocolTheorems
  import Router
  import Shard
  import ShardCommands
  import Snapshot
  import SnapshotTheorems
  import SnapshotFile

  // ---------------------------------------------------------------- the real service

  lemma RenderNotEmpty(r: Reply)
    ensures Render(r) != []
  {
    match r
    case Bulk(b) => assert |Render(r)| >= 2;
    case Array(items) => assert |Render(r)| >= 2;
    case _ =>
  }

  /** What the command of that name answers before it looks at its key. */
  ghost function EarlyNamed(env: Env, name: Bytes, args: seq<Bytes>): (r: Option<Bytes>)
    ensures r == None ==> |args| >= 2
    ensures r != Some([])
  {
    var c := Find(name, ALL);
    var reply := if c.None? then Some(Err(Unknown(name))) else Early(env, c.value, args);
    if reply == None then None else RenderNotEmpty(reply.value); Some(Render(reply.value))
  }

  /** The command of that name on its key's slot. */
  ghost function ApplyNamed(env: Env, name: Bytes, args: seq<Bytes>, clock: Clock, slot: Slot): (r: (Slot, Bytes))
    ensures r.1 != []
  {
    var c := Find(name, ALL);
    var (t, reply) := if c.Some? && Early(env, c.value, args) == None then Apply(env, c.value, args, clock, slot) else (slot, Ok);
    RenderNotEmpty(reply);
    (t, Render(reply))
  }

  function Fallback(name: Bytes): Reply {
    if name == Ascii("PING") then Pong else Err(Unknown(name))
  }

  ghost function RealService(env: Env, n: nat): Service
    requires n > 0
  {
    Service(
      n,
      key => Router.ShardId(n, key),
      Upper,
      name => Find(name, ALL).Some?,
      (name, args) => EarlyNamed(env, name, args),
      (name, args, clock, slot) => ApplyNamed(env, name, args, clock, slot),
      name => Render(Fallback(name)),
      name => Render(Err(Unknown(name))),
      Render(Err(Empty)))
  }

  /** The router, the registry and the commands meet what the protocol asks of them. */
  lemma RealServiceOk(env: Env, n: nat)
    requires n > 0
    ensures ServiceOk(RealService(env, n))
  {
    hide Render, EarlyNamed, ApplyNamed, Router.ShardId;
    var sv := RealService(env, n);
    forall name ensures sv.unknown(name) != [] { RenderNotEmpty(Err(Unknown(name))); }
    forall key ensures sv.owner(key) < n { Router.ShardIdInRange(n, key); }
    forall name, args ensures sv.early(name, args) == EarlyNamed(env, name, args) {
    }
    forall name, args, clock, slot ensures sv.apply(name, args, clock, slot) == ApplyNamed(env, name, args, clock, slot) {
    }
  }

  // ---------------------------------------------------------------- where a command runs

  /** Commands are registered under upper-case names only. */
  lemma RegisteredIsUpper(name: Bytes)
    requires Find(name, ALL).Some?
    ensures Upper(name) == name
  {
    hide Find, Text, Ascii, Upper;
    TextChars(Find(name, ALL).value);
    UpperIsUpper(Text(Find(name, ALL).value));
  }

  lemma UpperIsUpper(s: string)
    requires forall i :: 0 <= i < |s| ==> 'A' <= s[i] <= 'Z'
    ensures Upper(Ascii(s)) == Ascii(s)
  {
  }

  /** The errors a command gives once it has looked at its key. */
  ghost predicate KeyedReply(r: Reply) {
    r.Err? ==> r.error in {WrongType, NotInteger, NotFloat}
  }

  lemma ApplyReplies(env: Env, c: Command, args: seq<Bytes>, clock: Clock, slot: Slot)
    requires Early(env, c, args) == None
    ensures KeyedReply(Apply(env, c, args, clock, slot).1)
  {
    hide Early, Stoi, Stol, Range, Slice, AddScores, RemoveMembers, SetFields, Reverse, Purge;
    if OnStrings(c) { hide ApplyTyped; }
    else if c in {LPUSH, LPOP, LRANGE, RPUSH, RPOP, LLEN} { hide ApplyString, ApplySet, ApplyHash, ApplySorted; }
    else if c in {SADD, SMEMBERS, SCARD, SREM} { hide ApplyString, ApplyList, ApplyHash, ApplySorted; }
    else if c in {HSET, HGET, HGETALL, HDEL, HLEN} { hide ApplyString, ApplyList, ApplySet, ApplySorted; }
    else { hide ApplyString, ApplyList, ApplySet, ApplyHash; }
  }

  lemma UnknownText(name: Bytes)
    ensures var t := Render(Err(Unknown(name))); |t| > 5 && t[0] == 45 && t[5] == 117
  {
    var head := Ascii("-ERR unknown command '");
    assert |head| == 22 && head[0] == 45 && head[5] == 117;
    assert Render(Err(Unknown(name)))[0] == head[0] && Render(Err(Unknown(name)))[5] == head[5];
  }

  lemma ErrorTexts()
    ensures |ErrorText(WrongType)| > 5 && ErrorText(WrongType)[5] == 87
    ensures |ErrorText(NotInteger)| > 5 && ErrorText(NotInteger)[5] == 118
    ensures |ErrorText(NotFloat)| > 5 && ErrorText(NotFloat)[5] == 118
  {
    assert "-ERR WRONGTYPE"[5] == 'W';
    assert "-ERR value is not an integer or out of range"[5] == 'v';
    assert "-ERR value is not a valid float"[5] == 'v';
  }

  lemma KeyedIsNotUnknown(r: Reply, name: Bytes)
    requires KeyedReply(r)
    ensures Render(r) != Render(Err(Unknown(name)))
  {
    UnknownText(name);
    ErrorTexts();
    hide ErrorText;
    match r
    case Err(e) => assert Render(r)[5] == ErrorText(e)[5];
    case Bulk(b) => assert Render(r)[0] == DOLLAR;
    case Array(items) => assert Render(r)[0] == STAR;
    case _ =>
  }

  /** A command that is to be forwarded is answered by its owner as it would be here, exactly when it
      was sent with an upper-case name: the owner looks up the name as it was sent. */
  lemma ForwardingTransparent(env: Env, n: nat, db: Db, args: seq<Bytes>, clock: Clock)
    requires n > 0 && ServiceOk(RealService(env, n))
    requires Decide(RealService(env, n), false, args).Keyed?
    ensures Serve(RealService(env, n), db, true, args, clock) == Serve(RealService(env, n), db, false, args, clock)
            <==> Upper(args[0]) == args[0]
  {
    hide ServiceOk, Render, Find, Early, Apply, Upper, Router.ShardId;
    var name := Upper(args[0]);
    if name != args[0] {
      if Find(args[0], ALL).Some? { RegisteredIsUpper(args[0]); }
      var c := Find(name, ALL).value;
      ApplyReplies(env, c, args, clock, At(db, args[1]));
      KeyedIsNotUnknown(Apply(env, c, args, clock, At(db, args[1])).1, args[0]);
    }
  }

  lemma GetNames()
    ensures Upper(Ascii("get")) == Ascii("GET") && Ascii("GET")[0] == 71 && Ascii("get")[0] == 103
    ensures Ascii("SET")[0] == 83
  {
  }

  lemma GetIsKeyed(env: Env, n: nat)
    requires n > 0 && ServiceOk(RealService(env, n))
    ensures var args := [Ascii("get"), Ascii("k")];
            Decide(RealService(env, n), false, args) == Keyed(Ascii("GET"), Ascii("k")) && Upper(args[0]) != args[0]
  {
    hide ServiceOk, Render, Router.ShardId, Find, Upper, Ascii;
    GetNames();
    FindsRegistered(GET);
  }

  /** A lower-case GET of a missing key: nil where the connection owns the key, an error where it
      does not. */
  lemma LowerCaseForwarded(env: Env, n: nat, clock: Clock)
    requires n > 0 && ServiceOk(RealService(env, n))
    ensures var args := [Ascii("get"), Ascii("k")];
            && Serve(RealService(env, n), map[], false, args, clock).1 == Render(Nil)
            && Serve(RealService(env, n), map[], true, args, clock).1 == Render(Err(Unknown(Ascii("get"))))
  {
    hide ServiceOk, Render, Router.ShardId, Find, Upper, Ascii;
    GetNames();
    FindsRegistered(GET);
    if Find(Ascii("get"), ALL).Some? { RegisteredIsUpper(Ascii("get")); }
  }

  /** Forwarded commands were keyed, and what the inter-core handler ran had been forwarded. */
  ghost predicate Labelled(sv: Service, s: Sys)
    requires ServiceOk(sv)
  {
    && (forall i :: 0 <= i < |s.issued| && s.issued[i].dest != s.issued[i].core ==> Decide(sv, false, s.issued[i].args).Keyed?)
    && (forall i :: 0 <= i < |s.log| ==> (s.log[i].remote <==> s.log[i].origin != s.log[i].core))
  }

  lemma LabelledStep(sv: Service, s: Sys, act: Action)
    requires ServiceOk(sv) && Enabled(s, act) && Labelled(sv, s)
    requires CoreShape(s.cores[act.core], |s.cores|, act.core)
    ensures Labelled(sv, Next(sv, s, act))
  {
    hide ServiceOk, Decide, Serve;
  }

  lemma {:induction false} LabelledRun(sv: Service, db: Db, states: seq<Sys>, actions: seq<Action>, n: nat)
    requires ServiceOk(sv) && IsRun(sv, states, actions) && Init(sv, db, states[0]) && n < |states|
    ensures Labelled(sv, states[n])
  {
    hide ServiceOk, Enabled, Next, Wakeful, Connected, Told, Refines, CoreShape, Pipelined;
    if n > 0 {
      LabelledRun(sv, db, states, actions, n - 1);
      Reachable(sv, db, states, actions, n - 1);
      EnabledCore(states[n - 1], actions[n - 1]);
      LabelledStep(sv, states[n - 1], actions[n - 1]);
    }
  }

  lemma UnknownRemote(env: Env, n: nat, db: Db, args: seq<Bytes>, clock: Clock)
    requires n > 0 && ServiceOk(RealService(env, n)) && args != [] && Upper(args[0]) != args[0]
    ensures Serve(RealService(env, n), db, true, args, clock) == (db, Render(Err(Unknown(args[0]))))
  {
    hide ServiceOk, Render, Find, Upper, Router.ShardId;
    if Find(args[0], ALL).Some? { RegisteredIsUpper(args[0]); }
  }

  /** In every run, a forwarded command whose name is not in upper case is answered with an
      unknown-command error. */
  lemma ForwardedIsUnknown(env: Env, n: nat, db: Db, states: seq<Sys>, actions: seq<Action>, i: nat, j: nat)
    requires n > 0 && ServiceOk(RealService(env, n))
    requires IsRun(RealService(env, n), states, actions) && Init(RealService(env, n), db, states[0]) && i < |states|
    requires j < |states[i].done| && states[i].done[j].tag < |states[i].issued|
    requires var c := states[i].issued[states[i].done[j].tag];
             c.dest != c.core && c.args != [] && Upper(c.args[0]) != c.args[0]
    ensures states[i].done[j].payload == Render(Err(Unknown(states[i].issued[states[i].done[j].tag].args[0])))
  {
    hide RealService, ServiceOk, Enabled, Next, Inv, Serve, Render, Upper, Labelled, Init;
    Reachable(RealService(env, n), db, states, actions, i);
    LabelledRun(RealService(env, n), db, states, actions, i);
    var at, clock := RemoteReply(RealService(env, n), db, states[i], j);
    UnknownRemote(env, n, at, states[i].issued[states[i].done[j].tag].args, clock);
  }

  /** The reply to a forwarded command is what the inter-core handler gave. */
  lemma RemoteReply(sv: Service, db: Db, s: Sys, j: nat) returns (at: Db, clock: Clock)
    requires ServiceOk(sv) && Inv(sv, db, s) && Labelled(sv, s) && j < |s.done| && s.done[j].tag < |s.issued|
    requires s.issued[s.done[j].tag].dest != s.issued[s.done[j].tag].core
    ensures s.done[j].payload == Serve(sv, at, true, s.issued[s.done[j].tag].args, clock).1
  {
    hide ServiceOk, Wakeful, Connected, Told, Traffic, Refines, Serve, Decide, Replay;
    EveryReply(sv, db, s, j);
    var k :| 0 <= k < |s.log| && ReplyOf(sv, db, s, j, k);
    ExecutionWasIssued(sv, s, k);
    at, clock := Replay(sv, db, s.log[..k]), s.log[k].clock;
  }

  /** The commands one after the other on one map, by one thread. */
  ghost function OneThread(sv: Service, db: Db, log: seq<Exec>): Db
    requires ServiceOk(sv)
  {
    if log == [] then db
    else
      var e := log[|log| - 1];
      Serve(sv, OneThread(sv, db, log[..|log| - 1]), false, e.args, e.clock).0
  }

  ghost predicate Transparent(sv: Service, log: seq<Exec>)
    requires ServiceOk(sv)
  {
    forall i :: 0 <= i < |log| ==> Decide(sv, log[i].remote, log[i].args) == Decide(sv, false, log[i].args)
  }

  lemma {:induction false} OneThreadReplays(sv: Service, db: Db, log: seq<Exec>)
    requires ServiceOk(sv) && Transparent(sv, log)
    ensures Replay(sv, db, log) == OneThread(sv, db, log)
  {
    hide ServiceOk, Decide;
    if log != [] { OneThreadReplays(sv, db, log[..|log| - 1]); }
  }

  ghost predicate UpperCase(sv: Service, s: Sys) {
    forall i :: 0 <= i < |s.issued| && s.issued[i].args != [] ==> sv.upper(s.issued[i].args[0]) == s.issued[i].args[0]
  }

  /** Where commands run cannot be told: in every run of upper-case commands, the shards are the map
      of one thread executing the commands in order, and every reply is that thread's. */
  lemma PlacementInvisible(sv: Service, db: Db, states: seq<Sys>, actions: seq<Action>, n: nat)
    requires ServiceOk(sv) && IsRun(sv, states, actions) && Init(sv, db, states[0]) && n < |states|
    requires UpperCase(sv, states[n])
    ensures var s := states[n];
            && |s.cores| == sv.cores && Matches(sv, s, OneThread(sv, db, s.log))
            && forall i :: 0 <= i < |s.log| ==>
                 s.log[i].reply == Serve(sv, OneThread(sv, db, s.log[..i]), false, s.log[i].args, s.log[i].clock).1
  {
    hide ServiceOk, Enabled, Next, Wakeful, Connected, Told, Traffic, Decide;
    var s := states[n];
    Reachable(sv, db, states, actions, n);
    LabelledRun(sv, db, states, actions, n);
    forall i | 0 <= i < |s.log| ensures Decide(sv, s.log[i].remote, s.log[i].args) == Decide(sv, false, s.log[i].args) {
      if s.log[i].remote {
        ExecutionWasIssued(sv, s, i);
        SameDecision(sv, s.log[i].args);
      }
    }
    OneThreadReplays(sv, db, s.log);
    forall i | 0 <= i < |s.log|
      ensures s.log[i].reply == Serve(sv, OneThread(sv, db, s.log[..i]), false, s.log[i].args, s.log[i].clock).1
    {
      OneThreadReplays(sv, db, s.log[..i]);
    }
  }

  lemma SameDecision(sv: Service, args: seq<Bytes>)
    requires ServiceOk(sv) && Decide(sv, false, args).Keyed? && sv.upper(args[0]) == args[0]
    ensures Decide(sv, true, args) == Decide(sv, false, args)
  {
  }

  // ---------------------------------------------------------------- shards and the single map

  /** A shard's slots as a map. */
  function DbOf(s: Shard.State): Db {
    map key | key in s.table.contents.Keys + s.expires.Keys :: Shard.SlotIn(s, key)
  }

  /** What a shard did when it ran a command is what the protocol's single map says, at every key. */
  lemma ShardServes(env: Env, n: nat, c: Command, args: seq<Bytes>, clock: Clock, s: Shard.State, t: Shard.State, out: Bytes, key: Bytes)
    requires n > 0 && ServiceOk(RealService(env, n)) && Early(env, c, args) == None
    requires ShardCommands.Served(env, c, args, clock, s, t, Some(out))
    requires Find(args[0], ALL) == Some(c)
    ensures var (db, reply) := Serve(RealService(env, n), DbOf(s), true, args, clock);
            At(DbOf(t), key) == At(db, key) && out == reply
  {
    hide ServiceOk, Render, Find, Early, Apply, Upper, Router.ShardId;
  }

  // ---------------------------------------------------------------- restart

  /** The system at start-up, with these shards. */
  ghost function Booted(shards: seq<Shard.State>): Sys {
    Sys(seq(|shards|, c requires 0 <= c < |shards| => Core(Boot, false, 0, Absent, [], {}, DbOf(shards[c]))),
        0, 1, map[], [], [], [])
  }

  /** These shards hold what the protocol's do. */
  ghost predicate Shows(s: Sys, ss: seq<Shard.State>) {
    && |ss| == |s.cores|
    && forall c, key :: 0 <= c < |ss| ==> Shard.SlotIn(ss[c], key) == At(s.cores[c].shard, key)
  }

  ghost predicate AllOk(db: Db) {
    forall key :: SlotOk(At(db, key))
  }

  lemma ApplyNamedKeeps(env: Env, name: Bytes, args: seq<Bytes>, clock: Clock, slot: Slot)
    requires SlotOk(slot)
    ensures SlotOk(ApplyNamed(env, name, args, clock, slot).0)
  {
    hide Find, Early, Apply, Render, SlotOk;
    var c := Find(name, ALL);
    if c.Some? && Early(env, c.value, args) == None { ApplyKeeps(env, c.value, args, clock, slot); }
  }

  lemma ServeKeeps(env: Env, n: nat, db: Db, remote: bool, args: seq<Bytes>, clock: Clock)
    requires n > 0 && ServiceOk(RealService(env, n)) && AllOk(db)
    ensures AllOk(Serve(RealService(env, n), db, remote, args, clock).0)
  {
    hide ServiceOk, Decide, ApplyNamed, SlotOk, Router.ShardId, Render;
    var d := Decide(RealService(env, n), remote, args);
    if d.Keyed? {
      ApplyNamedKeeps(env, d.name, args, clock, At(db, d.key));
      var after := db[d.key := ApplyNamed(env, d.name, args, clock, At(db, d.key)).0];
      assert Serve(RealService(env, n), db, remote, args, clock).0 == after;
      assert forall key :: At(after, key) == if key == d.key then after[key] else At(db, key);
    }
  }

  lemma {:induction false} ReplayKeeps(env: Env, n: nat, db: Db, log: seq<Exec>)
    requires n > 0 && ServiceOk(RealService(env, n)) && AllOk(db)
    ensures AllOk(Replay(RealService(env, n), db, log))
  {
    hide ServiceOk, Serve, AllOk;
    if log != [] {
      ReplayKeeps(env, n, db, log[..|log| - 1]);
      var e := log[|log| - 1];
      ServeKeeps(env, n, Replay(RealService(env, n), db, log[..|log| - 1]), e.remote, e.args, e.clock);
    }
  }

  lemma OwnedPlaced(sv: Service, s: Sys, db: Db, ss: seq<Shard.State>)
    requires ServiceOk(sv) && |s.cores| == sv.cores && Owned(sv, s) && Matches(sv, s, db) && AllOk(db) && Shows(s, ss)
    ensures SnapshotTheorems.Placed(sv.owner, ss)
    ensures forall c, key :: 0 <= c < |ss| ==> SlotOk(Shard.SlotIn(ss[c], key))
  {
    hide SlotOk, Shard.SlotIn;
    OkSlots();
    forall c, key | 0 <= c < |ss| ensures SlotOk(Shard.SlotIn(ss[c], key)) {
      if c == sv.owner(key) { assert At(s.cores[c].shard, key) == At(db, key); }
    }
    forall c, key | 0 <= c < |ss| && c != sv.owner(key) ensures Shard.SlotIn(ss[c], key) == EMPTY_SLOT {
      assert Shard.SlotIn(ss[c], key) == At(s.cores[c].shard, key);
    }
    assert SnapshotTheorems.Placed(sv.owner, ss);
  }

  /** In every run of the server, on every shard, sorted sets stay indexed and only live keys have
      an expiry; and each key is only in its owner's shard. */
  lemma AlwaysPlaced(env: Env, n: nat, db: Db, states: seq<Sys>, actions: seq<Action>, i: nat, ss: seq<Shard.State>)
    requires n > 0 && ServiceOk(RealService(env, n)) && AllOk(db)
    requires IsRun(RealService(env, n), states, actions) && Init(RealService(env, n), db, states[0]) && i < |states|
    requires Shows(states[i], ss)
    ensures SnapshotTheorems.Placed(RealService(env, n).owner, ss)
    ensures forall c, key :: 0 <= c < |ss| ==> SlotOk(Shard.SlotIn(ss[c], key))
  {
    hide RealService, Enabled, Next, Wakeful, Connected, Told, Traffic, SlotOk, Replay, Truthful, Serve, Shard.SlotIn, AllOk;
    hide SnapshotTheorems.Placed, Shows, ServiceOk;
    Reachable(RealService(env, n), db, states, actions, i);
    ReplayKeeps(env, n, db, states[i].log);
    OwnedPlaced(RealService(env, n), states[i], Replay(RealService(env, n), db, states[i].log), ss);
  }

  lemma OkSlots()
    ensures SlotOk(EMPTY_SLOT)
    ensures forall slot :: SlotOk(slot) ==> SnapshotTheorems.Sensible(slot)
  {
  }

  lemma AtDbOf(s: Shard.State, key: Bytes)
    ensures At(DbOf(s), key) == Shard.SlotIn(s, key)
    ensures key in DbOf(s) <==> Shard.SlotIn(s, key) != EMPTY_SLOT
  {
  }

  lemma BootedInit(sv: Service, shards: seq<Shard.State>, db: Db)
    requires ServiceOk(sv) && |shards| == sv.cores && SnapshotTheorems.Placed(sv.owner, shards)
    requires forall key :: SnapshotTheorems.Global(sv.owner, shards, key) == At(db, key)
    ensures Init(sv, db, Booted(shards))
  {
    hide DbOf, Shard.SlotIn;
    var s := Booted(shards);
    forall c, key | 0 <= c < |shards|
      ensures At(s.cores[c].shard, key) == Shard.SlotIn(shards[c], key)
      ensures key in s.cores[c].shard ==> sv.owner(key) == c
    {
      AtDbOf(shards[c], key);
    }
    forall key ensures At(s.cores[sv.owner(key)].shard, key) == At(db, key) {
      assert SnapshotTheorems.Global(sv.owner, shards, key) == At(db, key);
    }
  }

  /** A restart, with any number of cores: in every run, saving the shards and loading the file leaves
      the new server in an initial state for the database the old one had reached. As written, this
      is for databases without expiries; `SnapshotTheorems.RoundTrip` has the converse. */
  lemma Restart(env: Env, n: nat, db: Db, states: seq<Sys>, actions: seq<Action>, i: nat,
                ss: seq<Shard.State>, rs: seq<Snapshot.Record>, asWritten: bool, m: nat)
    requires n > 0 && ServiceOk(RealService(env, n)) && m > 0 && ServiceOk(RealService(env, m)) && AllOk(db)
    requires IsRun(RealService(env, n), states, actions) && Init(RealService(env, n), db, states[0]) && i < |states|
    requires Shows(states[i], ss) && SnapshotTheorems.Routes(RealService(env, n).owner, |ss|)
    requires SnapshotTheorems.Lists(rs, RealService(env, n).owner, ss)
    requires forall r :: r in rs ==> Snapshot.RecordOk(r) && r.expiry != Some(-1)
    requires asWritten ==> SnapshotTheorems.NoExpiry(rs)
    requires SnapshotTheorems.Routes(RealService(env, m).owner, m) && SnapshotTheorems.Room(RealService(env, m).owner, m, rs)
    ensures var out := SnapshotTheorems.Load(asWritten, RealService(env, m).owner, m, Snapshot.Save(rs));
            && out.Loaded?
            && Init(RealService(env, m), Replay(RealService(env, n), db, states[i].log), Booted(out.shards))
  {
    var sv, next, s := RealService(env, n), RealService(env, m), states[i];
    assert next.cores == m;
    AlwaysPlaced(env, n, db, states, actions, i, ss);
    hide RealService, Enabled, Next, Wakeful, Connected, Told, Traffic, Replay, Truthful, Serve, Shard.SlotIn;
    hide SnapshotTheorems.Load, Snapshot.Save, SnapshotTheorems.Placed, SnapshotTheorems.Lists, SnapshotTheorems.Room, Init;
    Reachable(sv, db, states, actions, i);
    var out := SnapshotTheorems.Load(asWritten, next.owner, m, Snapshot.Save(rs));
    if asWritten {
      SnapshotTheorems.RoundTrip(sv.owner, ss, rs, next.owner, m);
    } else {
      SnapshotTheorems.CorrectedRoundTrip(sv.owner, ss, rs, next.owner, m);
    }
    forall key ensures SnapshotTheorems.Global(next.owner, out.shards, key) == At(Replay(sv, db, s.log), key) {
      assert SnapshotTheorems.Global(sv.owner, ss, key) == At(s.cores[sv.owner(key)].shard, key);
    }
    BootedInit(next, out.shards, Replay(sv, db, s.log));
  }

  /** With as many cores as before, room needs no assumption: what the shards hold fits. */
  lemma RestartInPlace(env: Env, n: nat, db: Db, states: seq<Sys>, actions: seq<Action>, i: nat,
                       shards: seq<Shard.Shard>, ss: seq<Shard.State>)
    requires n > 0 && ServiceOk(RealService(env, n)) && AllOk(db)
    requires IsRun(RealService(env, n), states, actions) && Init(RealService(env, n), db, states[0]) && i < |states|
    requires Shows(states[i], ss) && SnapshotFile.Holding(shards, ss) && SnapshotFile.AllSaveable(ss)
    requires SnapshotTheorems.Routes(RealService(env, n).owner, n)
    ensures var out := SnapshotTheorems.Load(true, RealService(env, n).owner, n, Snapshot.Save(SnapshotFile.Listing(shards)));
            && out.Loaded?
            && Init(RealService(env, n), Replay(RealService(env, n), db, states[i].log), Booted(out.shards))
  {
    var owner, rs := RealService(env, n).owner, SnapshotFile.Listing(shards);
    AlwaysPlaced(env, n, db, states, actions, i, ss);
    CoreCount(env, n, db, states, actions, i);
    hide RealService, Enabled, Next, Replay, Shard.SlotIn, Init, Booted, AllOk;
    hide SnapshotTheorems.Load, Snapshot.Save, SnapshotTheorems.Placed, SnapshotTheorems.Lists, SnapshotTheorems.Room;
    hide SnapshotFile.Holding, SnapshotFile.Listing, SnapshotFile.AllSaveable, SnapshotTheorems.NoExpiry;
    SnapshotFile.ListingLists(shards, ss, owner);
    SnapshotFile.SaveableRecords(rs, owner, ss);
    SnapshotFile.SameCoresRoom(shards, ss, owner);
    NoExpiryIsNoMinusOne(rs);
    Restart(env, n, db, states, actions, i, ss, rs, true, n);
  }

  lemma CoreCount(env: Env, n: nat, db: Db, states: seq<Sys>, actions: seq<Action>, i: nat)
    requires n > 0 && ServiceOk(RealService(env, n))
    requires IsRun(RealService(env, n), states, actions) && Init(RealService(env, n), db, states[0]) && i < |states|
    ensures |states[i].cores| == n
  {
    assert RealService(env, n).cores == n;
    hide RealService, ServiceOk, Enabled, Next, Wakeful, Connected, Told, Traffic;
    Reachable(RealService(env, n), db, states, actions, i);
  }

  lemma NoExpiryIsNoMinusOne(rs: seq<Snapshot.Record>)
    requires SnapshotTheorems.NoExpiry(rs)
    ensures forall r :: r in rs ==> r.expiry != Some(-1)
  {
  }
}
