/** What every step of the protocol keeps: no lost wake-up, connections stay on their core, and the
    shards together are one map on which the executed commands ran one after the other. */
module ProtocolSafety {
  import opened Bytes
  import opened Protocol
  import opened ProtocolPipelines

  // ---------------------------------------------------------------- start-up

  predicate Counted(core: Core) {
    core.pc != Boot && core.pc != Registered
  }

  predicate Running(core: Core) {
    Counted(core) && core.pc != Barrier
  }

  function CountedCores(cores: seq<Core>): (n: nat)
    ensures n <= |cores|
  {
    if cores == [] then 0
    else CountedCores(cores[..|cores| - 1]) + if Counted(cores[|cores| - 1]) then 1 else 0
  }

  lemma {:induction false} CountedUpdate(cores: seq<Core>, c: nat, core: Core)
    requires c < |cores|
    ensures CountedCores(cores[c := core]) ==
            CountedCores(cores) - (if Counted(cores[c]) then 1 else 0) + (if Counted(core) then 1 else 0)
  {
    var n, u := |cores| - 1, cores[c := core];
    if c < n {
      assert u[..n] == cores[..n][c := core];
      CountedUpdate(cores[..n], c, core);
    } else {
      assert u[..n] == cores[..n];
    }
  }

  lemma {:induction false} AllCounted(cores: seq<Core>, c: nat)
    requires CountedCores(cores) == |cores| && c < |cores|
    ensures Counted(cores[c])
  {
    var n := |cores| - 1;
    if c < n { AllCounted(cores[..n], c); }
  }

  /** The barrier counts the registered cores, and no core is past it before the count is full. */
  ghost predicate BootOk(s: Sys) {
    && s.registered == CountedCores(s.cores)
    && (forall c :: 0 <= c < |s.cores| ==> s.cores[c].pc == Boot || s.cores[c].fd)
    && (forall c :: 0 <= c < |s.cores| && Running(s.cores[c]) ==> s.registered >= |s.cores|)
  }

  /** Once some core runs, every notify fd is registered. */
  lemma AllRegistered(s: Sys, c: nat, d: nat)
    requires BootOk(s) && c < |s.cores| && d < |s.cores| && Running(s.cores[c])
    ensures s.cores[d].fd && Counted(s.cores[d])
  {
    AllCounted(s.cores, d);
  }

  // ---------------------------------------------------------------- wake-ups

  /** Something will still make core `c` look at its inbox. */
  ghost predicate Alerted(s: Sys, c: nat)
    requires c < |s.cores|
  {
    || s.cores[c].events > 0
    || s.cores[c].read == Completed
    || s.cores[c].pc == Woken
    || exists p :: 0 <= p < |s.cores| && s.cores[p].pc.Notifying? && s.cores[p].pc.to == c
  }

  ghost predicate NoLostWakeup(s: Sys) {
    forall c :: 0 <= c < |s.cores| && s.cores[c].inbox != [] ==> Alerted(s, c)
  }

  /** A read of the event counter is outstanding exactly while the core is in its event loop: not
      before `run`, and not from the wake-up to the end of the batch. */
  ghost predicate Listening(core: Core) {
    (core.pc == Idle || ((core.pc.Pushing? || core.pc.Notifying?) && !core.pc.inBatch)) <==> core.read != Absent
  }

  ghost predicate Wakeful(s: Sys) {
    && BootOk(s)
    && NoLostWakeup(s)
    && (forall c :: 0 <= c < |s.cores| ==> Listening(s.cores[c]))
  }

  /** A core that moves from `x` to `y` without touching the start-up state or losing an alert. */
  ghost predicate Calm(x: Core, y: Core) {
    && Counted(y) == Counted(x) && (Running(y) ==> Running(x)) && y.fd == x.fd
    && (y.inbox == x.inbox || y.inbox == [])
    && (Listening(x) && (x.events > 0 || x.read == Completed || x.pc == Woken) ==>
          y.inbox == [] || y.events > 0 || y.read == Completed || y.pc == Woken)
    && (x.pc.Notifying? ==> y.pc == x.pc)
    && (Listening(x) ==> Listening(y))
  }

  lemma CalmKeeps(s: Sys, t: Sys, c: nat, core: Core)
    requires Wakeful(s) && c < |s.cores| && t.cores == s.cores[c := core] && t.registered == s.registered
    requires Calm(s.cores[c], core) && s.cores[c].pc != Boot
    ensures Wakeful(t)
  {
    CountedUpdate(s.cores, c, core);
    forall d | 0 <= d < |t.cores| && t.cores[d].inbox != [] ensures Alerted(t, d) {
      assert Alerted(s, d);
      if p :| 0 <= p < |s.cores| && s.cores[p].pc.Notifying? && s.cores[p].pc.to == d {
        assert t.cores[p].pc == s.cores[p].pc;
      }
    }
  }

  lemma BootKeeps(sv: Service, s: Sys, act: Action)
    requires ServiceOk(sv) && Wakeful(s) && Enabled(s, act) && (act.SetFd? || act.CountIn? || act.PassBarrier?)
    ensures Wakeful(Next(sv, s, act))
  {
    hide ServiceOk, Received, Handled, CountedCores;
    var c := act.core;
    var t := Next(sv, s, act);
    CountedUpdate(s.cores, c, t.cores[c]);
    assert t.cores == s.cores[c := t.cores[c]];
    assert Listening(s.cores[c]);
    hide Next;
    forall d | 0 <= d < |t.cores| && t.cores[d].inbox != [] ensures Alerted(t, d) {
      assert Alerted(s, d);
      if p :| 0 <= p < |s.cores| && s.cores[p].pc.Notifying? && s.cores[p].pc.to == d {
        assert t.cores[p].pc == s.cores[p].pc;
      }
    }
  }

  /** A push leaves its core about to notify the target. */
  lemma PushAlerts(sv: Service, s: Sys, c: nat)
    requires ServiceOk(sv) && Wakeful(s) && Enabled(s, Push(c))
    ensures Wakeful(Next(sv, s, Push(c)))
  {
    hide ServiceOk, Received, Handled, CountedCores;
    var t, to := Next(sv, s, Push(c)), s.cores[c].pc.to;
    assert t == Pushed(s, c);
    hide Next;
    var u := WithCore(s, c, t.cores[c].(inbox := s.cores[c].inbox));
    CountedUpdate(s.cores, c, u.cores[c]);
    CountedUpdate(u.cores, to, t.cores[to]);
    assert t.cores == u.cores[to := t.cores[to]];
    assert t.cores[c].pc.Notifying? && t.cores[c].pc.to == to;
    forall d | 0 <= d < |t.cores| && t.cores[d].inbox != [] ensures Alerted(t, d) {
      if d != to {
        assert Alerted(s, d);
        if p :| 0 <= p < |s.cores| && s.cores[p].pc.Notifying? && s.cores[p].pc.to == d {
          assert t.cores[p].pc == s.cores[p].pc;
        }
      }
    }
  }

  /** A notification always lands: the target's fd is registered by then. */
  lemma NotifyAlerts(sv: Service, s: Sys, c: nat)
    requires ServiceOk(sv) && Wakeful(s) && Enabled(s, Notify(c))
    ensures Wakeful(Next(sv, s, Notify(c)))
    ensures Next(sv, s, Notify(c)).cores[s.cores[c].pc.to].events == s.cores[s.cores[c].pc.to].events + 1
  {
    hide ServiceOk, Received, Handled, CountedCores;
    var t, to := Next(sv, s, Notify(c)), s.cores[c].pc.to;
    AllRegistered(s, c, to);
    assert t.cores[to].events == s.cores[to].events + 1;
    var u := WithCore(s, c, t.cores[c].(events := s.cores[c].events));
    CountedUpdate(s.cores, c, u.cores[c]);
    CountedUpdate(u.cores, to, t.cores[to]);
    assert t.cores == u.cores[to := t.cores[to]];
    assert t.registered == s.registered;
    hide Next;
    forall d | 0 <= d < |t.cores| && t.cores[d].inbox != [] ensures Alerted(t, d) {
      if d != to {
        assert Alerted(s, d);
        if p :| 0 <= p < |s.cores| && s.cores[p].pc.Notifying? && s.cores[p].pc.to == d {
          assert t.cores[p].pc == s.cores[p].pc;
        }
      }
    }
  }

  lemma ReceiveWakes(sv: Service, s: Sys, act: Action)
    requires ServiceOk(sv) && act.Receive? && Enabled(s, act) && |s.cores| == sv.cores && Wakeful(s)
    ensures Wakeful(Next(sv, s, act))
  {
    hide ServiceOk, Next, Decide, Serve, Destination, Wakeful;
    ReceiveDiff(sv, s, act);
    var c, t := act.core, Next(sv, s, act);
    CalmKeeps(s, t, c, t.cores[c]);
  }

  lemma HandleWakes(sv: Service, s: Sys, act: Action)
    requires ServiceOk(sv) && act.Handle? && Enabled(s, act) && Traffic(sv, s) && Wakeful(s)
    ensures Wakeful(Next(sv, s, act))
  {
    hide ServiceOk, Next, Decide, Serve, Wakeful, Traffic;
    HandleDiff(sv, s, act);
    var c, t := act.core, Next(sv, s, act);
    CalmKeeps(s, t, c, t.cores[c]);
  }

  lemma OtherWakes(sv: Service, s: Sys, act: Action)
    requires ServiceOk(sv) && Enabled(s, act) && Wakeful(s)
    requires act.Connect? || act.Disconnect? || act.ReadEvent? || act.Wake? || act.Swap? || act.Finish?
    ensures Wakeful(Next(sv, s, act))
  {
    hide ServiceOk, Received, Handled;
    var c, t := act.core, Next(sv, s, act);
    assert Listening(s.cores[c]);
    hide Wakeful;
    CalmKeeps(s, t, c, t.cores[c]);
  }

  lemma WakefulStep(sv: Service, s: Sys, act: Action)
    requires ServiceOk(sv) && Enabled(s, act) && Traffic(sv, s) && Wakeful(s)
    ensures Wakeful(Next(sv, s, act))
  {
    assert |s.cores| == sv.cores;
    hide ServiceOk, Enabled, Next, Wakeful, Traffic;
    match act
    case SetFd(_) => BootKeeps(sv, s, act);
    case CountIn(_) => BootKeeps(sv, s, act);
    case PassBarrier(_) => BootKeeps(sv, s, act);
    case Receive(_, _, _, _) => ReceiveWakes(sv, s, act);
    case Push(c) => PushAlerts(sv, s, c);
    case Notify(c) => NotifyAlerts(sv, s, c);
    case Handle(_, _) => HandleWakes(sv, s, act);
    case _ => OtherWakes(sv, s, act);
  }

  lemma {:induction false} NoneCounted(cores: seq<Core>)
    requires forall c :: 0 <= c < |cores| ==> cores[c].pc == Boot
    ensures CountedCores(cores) == 0
  {
    if cores != [] { NoneCounted(cores[..|cores| - 1]); }
  }

  lemma WakefulInit(sv: Service, db: Db, s: Sys)
    requires Init(sv, db, s)
    ensures Wakeful(s)
  {
    forall c | 0 <= c < |s.cores| ensures s.cores[c].pc == Boot && s.cores[c].inbox == [] && s.cores[c].read == Absent {
      assert s.cores[c] == Core(Boot, false, 0, Absent, [], {}, s.cores[c].shard);
    }
    NoneCounted(s.cores);
  }

  // ---------------------------------------------------------------- connections

  /** A connection is registered on the core that created it, and commands name the core and
      connection they came in on. */
  ghost predicate Connected(s: Sys) {
    && (forall c, x :: 0 <= c < |s.cores| && x in s.cores[c].conns ==> x in s.createdOn && s.createdOn[x] == c)
    && (forall x :: x in s.createdOn ==> x < s.nextConn)
    && (forall i :: 0 <= i < |s.issued| ==>
          s.issued[i].conn in s.createdOn && s.createdOn[s.issued[i].conn] == s.issued[i].core)
  }

  ghost predicate SameConnections(s: Sys, t: Sys) {
    && |t.cores| == |s.cores| && t.nextConn == s.nextConn && t.createdOn == s.createdOn
    && (forall c :: 0 <= c < |s.cores| ==> t.cores[c].conns <= s.cores[c].conns)
  }

  lemma ConnectedKept(s: Sys, t: Sys)
    requires Connected(s) && SameConnections(s, t) && t.issued == s.issued
    ensures Connected(t)
  {
  }

  lemma ConnectedStep(sv: Service, s: Sys, act: Action)
    requires ServiceOk(sv) && Enabled(s, act) && Traffic(sv, s) && Connected(s)
    ensures Connected(Next(sv, s, act))
  {
    var t := Next(sv, s, act);
    if act.Receive? {
      ReceiveConnected(sv, s, act);
    } else if act.Connect? {
      ConnectConnected(sv, s, act);
    } else {
      hide ServiceOk, Next, Connected, Traffic;
      OtherConnections(sv, s, act);
      ConnectedKept(s, t);
    }
  }

  lemma OtherConnections(sv: Service, s: Sys, act: Action)
    requires ServiceOk(sv) && Enabled(s, act) && Traffic(sv, s) && !act.Receive? && !act.Connect?
    ensures SameConnections(s, Next(sv, s, act)) && Next(sv, s, act).issued == s.issued
  {
    if act.Handle? {
      hide ServiceOk, Next, Decide, Serve, Traffic;
      HandleDiff(sv, s, act);
    } else {
      hide ServiceOk, Received, Handled, Traffic;
    }
  }

  /** A new connection's id is new. */
  lemma ConnectConnected(sv: Service, s: Sys, act: Action)
    requires ServiceOk(sv) && act.Connect? && Enabled(s, act) && Connected(s)
    ensures Connected(Next(sv, s, act))
  {
    hide ServiceOk, Received, Handled;
    var t := Next(sv, s, act);
    forall c, x | 0 <= c < |t.cores| && x in t.cores[c].conns ensures x in t.createdOn && t.createdOn[x] == c {
      assert x in s.cores[c].conns ==> x in s.createdOn && x < s.nextConn;
    }
    forall x | x in t.createdOn ensures x < t.nextConn {
      if x != s.nextConn { assert x in s.createdOn; }
    }
  }

  lemma ReceiveConnected(sv: Service, s: Sys, act: Action)
    requires ServiceOk(sv) && act.Receive? && Enabled(s, act) && |s.cores| == sv.cores && Connected(s)
    ensures Connected(Next(sv, s, act))
  {
    hide ServiceOk, Next, Decide, Serve, Destination;
    ReceiveDiff(sv, s, act);
  }

  // ---------------------------------------------------------------- one map

  ghost predicate Owned(sv: Service, s: Sys) {
    forall c, k :: 0 <= c < |s.cores| && k in s.cores[c].shard ==> sv.owner(k) == c
  }

  /** The single map after the executed commands, in the order they executed. */
  ghost function Replay(sv: Service, db: Db, log: seq<Exec>): Db
    requires ServiceOk(sv)
  {
    if log == [] then db
    else
      var e := log[|log| - 1];
      Serve(sv, Replay(sv, db, log[..|log| - 1]), e.remote, e.args, e.clock).0
  }

  /** Each key's slot on its owner is its slot in the single map. */
  ghost predicate Matches(sv: Service, s: Sys, db: Db)
    requires |s.cores| == sv.cores && ServiceOk(sv)
  {
    forall k :: At(s.cores[sv.owner(k)].shard, k) == At(db, k)
  }

  /** Each reply is what the single map gave at that point. */
  ghost predicate Truthful(sv: Service, db: Db, log: seq<Exec>)
    requires ServiceOk(sv)
  {
    forall i :: 0 <= i < |log| ==>
      log[i].reply == Serve(sv, Replay(sv, db, log[..i]), log[i].remote, log[i].args, log[i].clock).1
  }

  ghost predicate Refines(sv: Service, db: Db, s: Sys)
    requires ServiceOk(sv)
  {
    |s.cores| == sv.cores && Owned(sv, s) && Matches(sv, s, Replay(sv, db, s.log)) && Truthful(sv, db, s.log)
  }

  lemma ReplaySnoc(sv: Service, db: Db, log: seq<Exec>, e: Exec)
    requires ServiceOk(sv) && Truthful(sv, db, log)
    requires e.reply == Serve(sv, Replay(sv, db, log), e.remote, e.args, e.clock).1
    ensures Replay(sv, db, log + [e]) == Serve(sv, Replay(sv, db, log), e.remote, e.args, e.clock).0
    ensures Truthful(sv, db, log + [e])
  {
    hide ServiceOk, Serve;
    var more := log + [e];
    assert more[..|log|] == log;
    forall i | 0 <= i < |more|
      ensures more[i].reply == Serve(sv, Replay(sv, db, more[..i]), more[i].remote, more[i].args, more[i].clock).1
    {
      if i < |log| { assert more[..i] == log[..i]; }
    }
  }

  /** Running a command on its owner's shard is running it on the single map. */
  lemma ServeMatches(sv: Service, s: Sys, t: Sys, c: nat, db: Db, remote: bool, args: seq<Bytes>, clock: Clock)
    requires ServiceOk(sv) && |s.cores| == |t.cores| == sv.cores && c < |s.cores|
    requires Owned(sv, s) && Matches(sv, s, db)
    requires var d := Decide(sv, remote, args); d.Keyed? ==> sv.owner(d.key) == c
    requires forall i :: 0 <= i < |s.cores| ==>
               t.cores[i].shard == if i == c then Serve(sv, s.cores[c].shard, remote, args, clock).0 else s.cores[i].shard
    ensures Serve(sv, s.cores[c].shard, remote, args, clock).1 == Serve(sv, db, remote, args, clock).1
    ensures Owned(sv, t) && Matches(sv, t, Serve(sv, db, remote, args, clock).0)
  {
    var d := Decide(sv, remote, args);
    if d.Keyed? {
      assert At(s.cores[c].shard, d.key) == At(db, d.key);
    }
    hide Decide;
    forall k ensures At(t.cores[sv.owner(k)].shard, k) == At(Serve(sv, db, remote, args, clock).0, k) {
      assert At(s.cores[sv.owner(k)].shard, k) == At(db, k);
    }
  }

  lemma RefinesKept(sv: Service, db: Db, s: Sys, t: Sys)
    requires ServiceOk(sv) && Refines(sv, db, s) && |t.cores| == |s.cores| && t.log == s.log
    requires forall c :: 0 <= c < |s.cores| ==> t.cores[c].shard == s.cores[c].shard
    ensures Refines(sv, db, t)
  {
    hide Replay, Truthful;
  }

  lemma ExecutionRefines(sv: Service, db: Db, s: Sys, t: Sys, c: nat, e: Exec)
    requires ServiceOk(sv) && Refines(sv, db, s) && |t.cores| == |s.cores| && c < |s.cores| && t.log == s.log + [e]
    requires var d := Decide(sv, e.remote, e.args); d.Keyed? ==> sv.owner(d.key) == c
    requires e.reply == Serve(sv, s.cores[c].shard, e.remote, e.args, e.clock).1
    requires forall i :: 0 <= i < |s.cores| ==>
               t.cores[i].shard == if i == c then Serve(sv, s.cores[c].shard, e.remote, e.args, e.clock).0 else s.cores[i].shard
    ensures Refines(sv, db, t)
  {
    hide ServiceOk, Decide, Serve, Replay, Truthful, Matches, Owned;
    ServeMatches(sv, s, t, c, Replay(sv, db, s.log), e.remote, e.args, e.clock);
    ReplaySnoc(sv, db, s.log, e);
  }

  lemma ReceiveRefines(sv: Service, db: Db, s: Sys, act: Action)
    requires ServiceOk(sv) && act.Receive? && Enabled(s, act) && Refines(sv, db, s)
    ensures Refines(sv, db, Next(sv, s, act))
  {
    var c, t := act.core, Next(sv, s, act);
    var to := Destination(sv, c, act.args);
    ReceiveDiff(sv, s, act);
    hide ServiceOk, Next, Serve, Refines;
    if to != c {
      hide Decide;
      RefinesKept(sv, db, s, t);
    } else {
      ExecutionRefines(sv, db, s, t, c, t.log[|s.log|]);
    }
  }

  lemma HandleRefines(sv: Service, db: Db, s: Sys, act: Action)
    requires ServiceOk(sv) && act.Handle? && Enabled(s, act) && Traffic(sv, s) && Refines(sv, db, s)
    ensures Refines(sv, db, Next(sv, s, act))
  {
    hide ServiceOk, Next, Serve, Refines, Traffic, Decide;
    var c, t := act.core, Next(sv, s, act);
    HandleDiff(sv, s, act);
    if s.cores[c].pc.rest[0].Request? {
      NeverForwardedAgain(sv, s, c, act.clock);
      ExecutionRefines(sv, db, s, t, c, t.log[|s.log|]);
    } else {
      RefinesKept(sv, db, s, t);
    }
  }

  lemma RefinesStep(sv: Service, db: Db, s: Sys, act: Action)
    requires ServiceOk(sv) && Enabled(s, act) && Traffic(sv, s) && Refines(sv, db, s)
    ensures Refines(sv, db, Next(sv, s, act))
  {
    if act.Receive? {
      hide ServiceOk, Next, Refines, Traffic;
      ReceiveRefines(sv, db, s, act);
    } else if act.Handle? {
      hide ServiceOk, Next, Refines, Traffic;
      HandleRefines(sv, db, s, act);
    } else {
      hide ServiceOk, Received, Handled, Refines, Traffic;
      RefinesKept(sv, db, s, Next(sv, s, act));
    }
  }
}
