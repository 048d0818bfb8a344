/** The protocol does not get stuck: while a command is unanswered some core has a step to take, every
    such step spends a bounded amount of work, and when none is left every command is answered. */
module ProtocolProgress {
  import opened Protocol
  import opened ProtocolPipelines
  import opened ProtocolSafety
  import opened ProtocolTheorems

  /** A step the cores take by themselves: no client action, and no read of an empty counter. */
  ghost predicate Internal(s: Sys, a: Action)
    requires Enabled(s, a)
  {
    !a.Connect? && !a.Disconnect? && !a.Receive? && (a.ReadEvent? ==> s.cores[a.core].events > 0)
  }

  // ---------------------------------------------------------------- work

  function MessageWork(m: Message): nat {
    if m.Request? then 9 else 1
  }

  function MessagesWork(ms: seq<Message>): nat {
    if ms == [] then 0 else MessagesWork(ms[..|ms| - 1]) + MessageWork(ms[|ms| - 1])
  }

  function PcWork(pc: Pc): nat {
    match pc
    case Boot => 3
    case Registered => 2
    case Barrier => 1
    case Idle => 0
    case Woken => 3
    case Batch(rest) => 2 + MessagesWork(rest)
    case Pushing(_, msg, rest, _) => 9 + MessageWork(msg) + MessagesWork(rest)
    case Notifying(_, rest, _) => 8 + MessagesWork(rest)
  }

  function CoreWork(c: Core): nat {
    PcWork(c.pc) + 5 * c.events + (if c.read == Completed then 4 else 0) + MessagesWork(c.inbox)
  }

  function Work(cores: seq<Core>): nat {
    if cores == [] then 0 else Work(cores[..|cores| - 1]) + CoreWork(cores[|cores| - 1])
  }

  lemma {:induction false} WorkUpdate(cores: seq<Core>, c: nat, core: Core)
    requires c < |cores|
    ensures Work(cores[c := core]) == Work(cores) - CoreWork(cores[c]) + CoreWork(core)
  {
    hide CoreWork;
    var n, u := |cores| - 1, cores[c := core];
    if c < n {
      assert u[..n] == cores[..n][c := core];
      WorkUpdate(cores[..n], c, core);
    } else {
      assert u[..n] == cores[..n];
    }
  }

  lemma {:induction false} HeadWork(ms: seq<Message>)
    requires ms != []
    ensures MessagesWork(ms) == MessageWork(ms[0]) + MessagesWork(ms[1..])
  {
    if |ms| > 1 {
      HeadWork(ms[..|ms| - 1]);
      assert ms[1..][..|ms| - 2] == ms[..|ms| - 1][1..];
    }
  }

  lemma SnocWork(ms: seq<Message>, m: Message)
    ensures MessagesWork(ms + [m]) == MessagesWork(ms) + MessageWork(m)
  {
    assert (ms + [m])[..|ms|] == ms;
  }

  /** Steps that change only their own core. */
  lemma OwnStepWorks(sv: Service, s: Sys, act: Action)
    requires ServiceOk(sv) && Enabled(s, act) && Internal(s, act) && Wakeful(s)
    requires !act.Push? && !act.Notify? && !act.Handle?
    ensures Work(Next(sv, s, act).cores) < Work(s.cores)
  {
    hide ServiceOk, Received, Handled, Work, BootOk, NoLostWakeup;
    var c, t := act.core, Next(sv, s, act);
    assert Listening(s.cores[c]);
    assert t.cores == s.cores[c := t.cores[c]];
    WorkUpdate(s.cores, c, t.cores[c]);
  }

  lemma PushWorks(sv: Service, s: Sys, c: nat)
    requires ServiceOk(sv) && Enabled(s, Push(c))
    ensures Work(Next(sv, s, Push(c)).cores) < Work(s.cores)
  {
    hide ServiceOk, Received, Handled, Work, MessagesWork;
    var t, to, m := Next(sv, s, Push(c)), s.cores[c].pc.to, s.cores[c].pc.msg;
    assert t == Pushed(s, c);
    var u := s.cores[c := s.cores[c].(pc := Notifying(to, s.cores[c].pc.rest, s.cores[c].pc.inBatch))];
    WorkUpdate(s.cores, c, u[c]);
    WorkUpdate(u, to, t.cores[to]);
    SnocWork(u[to].inbox, m);
    assert t.cores == u[to := t.cores[to]];
  }

  lemma NotifyWorks(sv: Service, s: Sys, c: nat)
    requires ServiceOk(sv) && Enabled(s, Notify(c))
    ensures Work(Next(sv, s, Notify(c)).cores) < Work(s.cores)
  {
    hide ServiceOk, Received, Handled, Work, MessagesWork;
    var t, to := Next(sv, s, Notify(c)), s.cores[c].pc.to;
    var u := s.cores[c := s.cores[c].(pc := Resume(s.cores[c].pc.rest, s.cores[c].pc.inBatch))];
    WorkUpdate(s.cores, c, u[c]);
    WorkUpdate(u, to, t.cores[to]);
    assert t.cores == u[to := t.cores[to]];
  }

  lemma HandleWorks(sv: Service, s: Sys, act: Action)
    requires ServiceOk(sv) && act.Handle? && Enabled(s, act) && Traffic(sv, s)
    ensures Work(Next(sv, s, act).cores) < Work(s.cores)
  {
    hide ServiceOk, Next, Decide, Serve, Traffic, Work, MessagesWork;
    HandleDiff(sv, s, act);
    var c, t := act.core, Next(sv, s, act);
    WorkUpdate(s.cores, c, t.cores[c]);
    HeadWork(s.cores[c].pc.rest);
    assert t.cores == s.cores[c := t.cores[c]];
  }

  /** Every internal step spends work, so the cores alone can take only so many steps. */
  lemma InternalWorks(sv: Service, s: Sys, act: Action)
    requires ServiceOk(sv) && Enabled(s, act) && Internal(s, act) && Traffic(sv, s) && Wakeful(s)
    ensures Work(Next(sv, s, act).cores) < Work(s.cores)
  {
    hide ServiceOk, Next, Traffic, Wakeful, Work, Enabled;
    if act.Push? {
      PushWorks(sv, s, act.core);
    } else if act.Notify? {
      NotifyWorks(sv, s, act.core);
    } else if act.Handle? {
      HandleWorks(sv, s, act);
    } else {
      OwnStepWorks(sv, s, act);
    }
  }

  // ---------------------------------------------------------------- when no step is left

  ghost predicate Quiet(s: Sys) {
    forall c :: 0 <= c < |s.cores| ==>
      s.cores[c].pc == Idle && s.cores[c].inbox == [] && s.cores[c].read == Submitted && s.cores[c].events == 0
  }

  lemma {:induction false} EveryoneCounted(cores: seq<Core>)
    requires forall c :: 0 <= c < |cores| ==> Counted(cores[c])
    ensures CountedCores(cores) == |cores|
  {
    if cores != [] { EveryoneCounted(cores[..|cores| - 1]); }
  }

  /** The step a core that is not idle can take. */
  function StepOf(core: Core, c: nat): Action {
    match core.pc
    case Boot => SetFd(c)
    case Registered => CountIn(c)
    case Barrier => PassBarrier(c)
    case Idle => if core.read == Completed then Wake(c) else ReadEvent(c)
    case Woken => Swap(c)
    case Batch(rest) => if rest == [] then Finish(c) else Handle(c, Clock(0, 0))
    case Pushing(_, _, _, _) => Push(c)
    case Notifying(_, _, _) => Notify(c)
  }

  lemma BusyCoreSteps(sv: Service, s: Sys, c: nat)
    requires Shaped(sv, s) && c < |s.cores| && s.cores[c].pc != Idle
    requires s.cores[c].pc == Barrier ==> s.registered >= |s.cores|
    ensures Enabled(s, StepOf(s.cores[c], c)) && Internal(s, StepOf(s.cores[c], c))
  {
    assert CoreShape(s.cores[c], |s.cores|, c);
  }

  /** Unless every core is idle with an empty inbox and no event, some core can take a step: an alert
      is never lost and the barrier never blocks for good. */
  lemma SomeoneCanStep(sv: Service, s: Sys) returns (act: Action)
    requires Shaped(sv, s) && Wakeful(s) && !Quiet(s)
    ensures Enabled(s, act) && Internal(s, act)
  {
    hide CoreShape, CountedCores;
    if c :| 0 <= c < |s.cores| && !Counted(s.cores[c]) {
      act := StepOf(s.cores[c], c);
      BusyCoreSteps(sv, s, c);
    } else if c :| 0 <= c < |s.cores| && s.cores[c].pc != Idle {
      EveryoneCounted(s.cores);
      act := StepOf(s.cores[c], c);
      BusyCoreSteps(sv, s, c);
    } else {
      var c :| 0 <= c < |s.cores| &&
        (s.cores[c].inbox != [] || s.cores[c].read != Submitted || s.cores[c].events != 0);
      assert Listening(s.cores[c]);
      assert s.cores[c].inbox != [] ==> Alerted(s, c);
      act := StepOf(s.cores[c], c);
    }
  }

  /** `done[j]` answers the command, and was delivered if the command's connection is still there. */
  ghost predicate Answers(s: Sys, tag: nat, j: nat)
    requires tag < |s.issued|
  {
    var i := s.issued[tag];
    && j < |s.done| && s.done[j].tag == tag && s.done[j].core == i.core && s.done[j].conn == i.conn
    && (!s.done[j].delivered ==> Closed(s, i.core, i.conn))
  }

  ghost predicate HasAnswer(s: Sys, tag: nat)
    requires tag < |s.issued|
  {
    exists j :: 0 <= j < |s.done| && Answers(s, tag, j)
  }

  ghost predicate AllAnswered(s: Sys) {
    forall tag :: 0 <= tag < |s.issued| ==> HasAnswer(s, tag)
  }

  /** When everything is quiet, every command has an answer, delivered if its connection is open. */
  lemma QuietAnswered(sv: Service, s: Sys)
    requires Traffic(sv, s) && Connected(s) && Told(s) && Quiet(s)
    ensures AllAnswered(s)
  {
    hide Traffic, Connected, Quiet;
    forall tag | 0 <= tag < |s.issued| ensures HasAnswer(s, tag) {
      var j := QuietAnswers(sv, s, tag);
      AnsweredHome(sv, s, j);
      assert Answers(s, tag, j);
    }
  }

  lemma QuietAnswers(sv: Service, s: Sys, tag: nat) returns (j: nat)
    requires Traffic(sv, s) && Quiet(s) && tag < |s.issued|
    ensures j < |s.done| && s.done[j].tag == tag
  {
    var a, b := s.issued[tag].core, s.issued[tag].dest;
    assert PairOk(s, a, b);
    NoMessages(a);
    NoMessages(b);
    hide Requests, Responses, Issued, Executed, Replied, Answered;
    assert PendingRequests(s, a, b) == [] && PendingReplies(s, a, b) == [];
    IssuedHas(s.issued, tag);
    var i := ExecutedFrom(s.log, a, b, Ticket(tag, s.issued[tag].conn, s.issued[tag].args));
    ExecutedHas(s.log, i);
    j := AnsweredFrom(s.done, a, b, Receipt(tag, s.log[i].conn, s.log[i].reply));
  }

  lemma RunLength(sv: Service, states: seq<Sys>, actions: seq<Action>)
    requires ServiceOk(sv) && IsRun(sv, states, actions)
    ensures |states| == |actions| + 1
  {
  }

  ghost predicate InternalRun(sv: Service, states: seq<Sys>, actions: seq<Action>)
    requires ServiceOk(sv) && IsRun(sv, states, actions)
  {
    forall i :: 0 <= i < |actions| ==> Internal(states[i], actions[i])
  }

  /** The cores alone cannot run for ever. */
  lemma {:induction false} InternalRunBounded(sv: Service, db: Db, states: seq<Sys>, actions: seq<Action>, i: nat)
    requires ServiceOk(sv) && IsRun(sv, states, actions) && InternalRun(sv, states, actions)
    requires Inv(sv, db, states[0]) && i <= |actions|
    ensures Inv(sv, db, states[i]) && Work(states[i].cores) + i <= Work(states[0].cores)
  {
    hide ServiceOk, Enabled, Next, Work, Traffic, Wakeful, Connected, Told, Refines, Internal;
    if i > 0 {
      InternalRunBounded(sv, db, states, actions, i - 1);
      InvStep(sv, db, states[i - 1], actions[i - 1]);
      InternalWorks(sv, states[i - 1], actions[i - 1]);
    }
  }

  /** No core can take a step of its own. */
  ghost predicate AtRest(s: Sys) {
    forall act :: Enabled(s, act) ==> !Internal(s, act)
  }

  /** Whatever the schedule: a run of the cores alone that cannot go on has answered every command, and
      delivered the answer if the connection is open. It takes at most as many steps as there is work. */
  lemma EveryScheduleAnswers(sv: Service, db: Db, states: seq<Sys>, actions: seq<Action>)
    requires ServiceOk(sv) && IsRun(sv, states, actions) && InternalRun(sv, states, actions)
    requires Inv(sv, db, states[0]) && AtRest(states[|actions|])
    ensures AllAnswered(states[|actions|]) && |actions| <= Work(states[0].cores)
  {
    hide ServiceOk, Enabled, Next, Work, Traffic, Wakeful, Connected, Told, Refines, Internal, AllAnswered, Quiet;
    InternalRunBounded(sv, db, states, actions, |actions|);
    var last := states[|actions|];
    TrafficShape(sv, last);
    if !Quiet(last) { var act := SomeoneCanStep(sv, last); }
    QuietAnswered(sv, last);
  }

  /** From every state a run can reach, the cores alone can answer every command sent so far. */
  lemma {:induction false} Drains(sv: Service, db: Db, s: Sys)
    requires ServiceOk(sv) && Inv(sv, db, s)
    ensures exists states: seq<Sys>, actions: seq<Action> ::
              IsRun(sv, states, actions) && states[0] == s && InternalRun(sv, states, actions) &&
              AllAnswered(states[|actions|]) && states[|actions|].issued == s.issued
    decreases Work(s.cores)
  {
    hide ServiceOk, Enabled, Next, Work, Traffic, Wakeful, Connected, Told, Refines, Internal, AllAnswered, Quiet;
    TrafficShape(sv, s);
    if Quiet(s) {
      QuietAnswered(sv, s);
      assert IsRun(sv, [s], []) && InternalRun(sv, [s], []);
    } else {
      var act := SomeoneCanStep(sv, s);
      var t := Next(sv, s, act);
      InternalWorks(sv, s, act);
      InvStep(sv, db, s, act);
      InternalIssuesNothing(sv, s, act);
      Drains(sv, db, t);
      var states: seq<Sys>, actions: seq<Action> :|
        IsRun(sv, states, actions) && states[0] == t && InternalRun(sv, states, actions) &&
        AllAnswered(states[|actions|]) && states[|actions|].issued == t.issued;
      PrependRun(sv, s, act, states, actions);
    }
  }

  lemma TrafficShape(sv: Service, s: Sys)
    requires Traffic(sv, s)
    ensures Shaped(sv, s)
  {
  }

  lemma InternalIssuesNothing(sv: Service, s: Sys, act: Action)
    requires ServiceOk(sv) && Enabled(s, act) && Internal(s, act)
    ensures Next(sv, s, act).issued == s.issued
  {
    hide ServiceOk, Decide, Serve;
  }

  lemma PrependRun(sv: Service, s: Sys, act: Action, states: seq<Sys>, actions: seq<Action>)
    requires ServiceOk(sv) && Enabled(s, act) && Internal(s, act)
    requires IsRun(sv, states, actions) && states[0] == Next(sv, s, act) && InternalRun(sv, states, actions)
    ensures IsRun(sv, [s] + states, [act] + actions) && InternalRun(sv, [s] + states, [act] + actions)
    ensures ([s] + states)[|[act] + actions|] == states[|actions|]
  {
    hide ServiceOk, Enabled, Next, Internal;
    var ss, aa := [s] + states, [act] + actions;
    forall i | 0 <= i < |aa|
      ensures Enabled(ss[i], aa[i]) && ss[i + 1] == Next(sv, ss[i], aa[i]) && Internal(ss[i], aa[i])
    {
      if i > 0 { assert ss[i] == states[i - 1] && aa[i] == actions[i - 1]; }
    }
  }
}
