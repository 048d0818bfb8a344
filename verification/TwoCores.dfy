/** A run of two cores in which a lower-case command is forwarded. */
module TwoCores {
  import opened Bytes
  import Values
  import opened Protocol
  import opened ProtocolTheorems
  import opened ProtocolProgress
  import opened Commands
  import Shard
  import Server

  lemma Extend(sv: Service, states: seq<Sys>, actions: seq<Action>, act: Action)
    requires ServiceOk(sv) && IsRun(sv, states, actions) && Enabled(states[|actions|], act)
    ensures IsRun(sv, states + [Next(sv, states[|actions|], act)], actions + [act])
  {
    hide ServiceOk, Enabled, Next;
  }

  lemma Join(sv: Service, states: seq<Sys>, actions: seq<Action>, more: seq<Sys>, further: seq<Action>)
    requires ServiceOk(sv) && IsRun(sv, states, actions) && IsRun(sv, more, further) && more[0] == states[|actions|]
    ensures var all := states + more[1..];
            IsRun(sv, all, actions + further) && all[0] == states[0] && all[|actions + further|] == more[|further|]
  {
    hide ServiceOk, Enabled, Next;
    var all, acts := states + more[1..], actions + further;
    forall i | 0 <= i < |acts| ensures Enabled(all[i], acts[i]) && all[i + 1] == Next(sv, all[i], acts[i]) {
      if i >= |actions| {
        assert all[i] == more[i - |actions|] && all[i + 1] == more[i + 1 - |actions|];
      }
    }
  }

  /** Two cores have come to `at` in the start-up code, in step with each other. */
  ghost predicate Stage(s: Sys, at: Pc) {
    && |s.cores| == 2 && s.cores[0].pc == s.cores[1].pc == at
    && s.nextConn == 1 && s.issued == [] && s.done == []
    && (at == Barrier ==> s.registered == 2) && (at in {Boot, Registered} ==> s.registered == 0)
  }

  function StageAction(at: Pc, core: nat): Action
    requires at in {Boot, Registered, Barrier}
  {
    if at == Boot then SetFd(core) else if at == Registered then CountIn(core) else PassBarrier(core)
  }

  function NextStage(at: Pc): Pc
    requires at in {Boot, Registered, Barrier}
  {
    if at == Boot then Registered else if at == Registered then Barrier else Idle
  }

  lemma BothStep(sv: Service, states: seq<Sys>, actions: seq<Action>, at: Pc) returns (more: seq<Sys>, further: seq<Action>)
    requires ServiceOk(sv) && IsRun(sv, states, actions) && at in {Boot, Registered, Barrier} && Stage(states[|actions|], at)
    ensures IsRun(sv, more, further) && more[0] == states[0] && Stage(more[|further|], NextStage(at))
  {
    var s := states[|actions|];
    var a, b := StageAction(at, 0), StageAction(at, 1);
    Extend(sv, states, actions, a);
    var t := Next(sv, s, a);
    more, further := states + [t], actions + [a];
    assert more[|further|] == t;
    Extend(sv, more, further, b);
    more, further := more + [Next(sv, t, b)], further + [b];
  }

  /** Both cores reach their event loops. */
  lemma BootTwo(sv: Service, db: Db, s: Sys) returns (states: seq<Sys>, actions: seq<Action>)
    requires ServiceOk(sv) && sv.cores == 2 && Init(sv, db, s)
    ensures IsRun(sv, states, actions) && states[0] == s && Stage(states[|actions|], Idle)
  {
    states, actions := [s], [];
    assert Stage(s, Boot);
    hide ServiceOk, Enabled, Next, Stage;
    states, actions := BothStep(sv, states, actions, Boot);
    states, actions := BothStep(sv, states, actions, Registered);
    states, actions := BothStep(sv, states, actions, Barrier);
  }

  /** A client connects to a core and sends a command that another core owns. */
  lemma Forward(sv: Service, states: seq<Sys>, actions: seq<Action>, c: nat, args: seq<Bytes>, clock: Clock)
    returns (more: seq<Sys>, further: seq<Action>)
    requires ServiceOk(sv) && IsRun(sv, states, actions) && Stage(states[|actions|], Idle) && c < 2
    requires Decide(sv, false, args).Keyed? && sv.owner(args[1]) != c
    ensures IsRun(sv, more, further) && more[0] == states[0]
    ensures more[|further|].issued == [Issue(c, 1, args, sv.owner(args[1]))]
  {
    hide ServiceOk, Decide, Serve;
    var s := states[|actions|];
    var a, b := Connect(c), Receive(c, 1, args, clock);
    Extend(sv, states, actions, a);
    var t := Next(sv, s, a);
    more, further := states + [t], actions + [a];
    assert more[|further|] == t;
    Extend(sv, more, further, b);
    more, further := more + [Next(sv, t, b)], further + [b];
  }

  /** A run that forwards a command can go on until the command is answered. */
  lemma Answered(sv: Service, db: Db, states: seq<Sys>, actions: seq<Action>) returns (more: seq<Sys>, further: seq<Action>)
    requires ServiceOk(sv) && IsRun(sv, states, actions) && Init(sv, db, states[0]) && |states[|actions|].issued| == 1
    ensures IsRun(sv, more, further) && more[0] == states[0]
    ensures more[|further|].issued == states[|actions|].issued && HasAnswer(more[|further|], 0)
  {
    hide ServiceOk, Enabled, Next, Inv, Init, HasAnswer;
    var s := states[|actions|];
    Reachable(sv, db, states, actions, |actions|);
    Drains(sv, db, s);
    var tail: seq<Sys>, acts: seq<Action> :|
      IsRun(sv, tail, acts) && tail[0] == s && InternalRun(sv, tail, acts) && AllAnswered(tail[|acts|]) && tail[|acts|].issued == s.issued;
    Join(sv, states, actions, tail, acts);
    more, further := states + tail[1..], actions + acts;
  }

  /** Two empty shards, at start-up. */
  lemma FreshInit(sv: Service)
    requires ServiceOk(sv) && sv.cores == 2
    ensures Init(sv, map[], Server.Booted([Shard.NEW_SHARD, Shard.NEW_SHARD]))
  {
    hide Init, Server.Booted;
    var shards := [Shard.NEW_SHARD, Shard.NEW_SHARD];
    forall c, key | 0 <= c < 2 ensures Shard.SlotIn(shards[c], key) == Values.EMPTY_SLOT {
    }
    Server.BootedInit(sv, shards, map[]);
  }

  /** Two cores of any service, and a command sent to the one that does not own its key: there is a
      run in which it is forwarded and answered. */
  lemma ForwardedRun(sv: Service, args: seq<Bytes>, clock: Clock) returns (states: seq<Sys>, actions: seq<Action>, j: nat)
    requires ServiceOk(sv) && sv.cores == 2 && Decide(sv, false, args).Keyed?
    ensures IsRun(sv, states, actions) && Init(sv, map[], states[0])
    ensures var s := states[|actions|];
            && |s.issued| == 1 && s.issued[0].args == args && s.issued[0].core != s.issued[0].dest
            && j < |s.done| && s.done[j].tag == 0
  {
    assert sv.owner(args[1]) < 2;
    hide ServiceOk, Enabled, Next, Init, Stage, Decide;
    FreshInit(sv);
    states, actions := BootTwo(sv, map[], Server.Booted([Shard.NEW_SHARD, Shard.NEW_SHARD]));
    states, actions := Forward(sv, states, actions, 1 - sv.owner(args[1]), args, clock);
    states, actions := Answered(sv, map[], states, actions);
    j :| 0 <= j < |states[|actions|].done| && states[|actions|].done[j].tag == 0;
  }

  /** With a lower-case GET, the answer is an unknown-command error. */
  lemma LowerCaseRun(env: Env, clock: Clock) returns (states: seq<Sys>, actions: seq<Action>, j: nat)
    requires ServiceOk(Server.RealService(env, 2))
    ensures IsRun(Server.RealService(env, 2), states, actions) && Init(Server.RealService(env, 2), map[], states[0])
    ensures var s, args := states[|actions|], [Ascii("get"), Ascii("k")];
            && |s.issued| == 1 && s.issued[0].args == args && s.issued[0].core != s.issued[0].dest
            && j < |s.done| && s.done[j].tag == 0 && s.done[j].payload == Render(Err(Unknown(args[0])))
  {
    assert Server.RealService(env, 2).cores == 2;
    hide Server.RealService, ServiceOk, Enabled, Next, Init, Ascii, Upper, Render, Decide, IsRun;
    Server.GetIsKeyed(env, 2);
    states, actions, j := ForwardedRun(Server.RealService(env, 2), [Ascii("get"), Ascii("k")], clock);
    RunLength(Server.RealService(env, 2), states, actions);
    Server.ForwardedIsUnknown(env, 2, map[], states, actions, |actions|, j);
  }
}
