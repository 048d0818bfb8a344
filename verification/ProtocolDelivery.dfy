/** When a reply reaches its client, for every service, every initial database and every run. */
module ProtocolDelivery {
  import opened Protocol
  import opened ProtocolPipelines
  import opened ProtocolSafety
  import opened ProtocolTheorems
  import opened ProtocolProgress

  /** One of the first `n` actions closed the connection. */
  ghost predicate Gone(actions: seq<Action>, n: nat, conn: nat)
    requires n <= |actions|
  {
    exists i :: 0 <= i < n && actions[i].Disconnect? && actions[i].conn == conn
  }

  lemma GoneNext(actions: seq<Action>, n: nat, conn: nat)
    requires n < |actions|
    ensures Gone(actions, n + 1, conn) <==> Gone(actions, n, conn) || (actions[n].Disconnect? && actions[n].conn == conn)
  {
  }

  /** One step: an id becomes one of a connection by `Connect` only. */
  lemma CreatedStep(sv: Service, s: Sys, act: Action)
    requires ServiceOk(sv) && Enabled(s, act)
    ensures Next(sv, s, act).createdOn == if act.Connect? then s.createdOn[s.nextConn := act.core] else s.createdOn
  {
    hide ServiceOk, Decide, Serve;
  }

  /** A connection is open exactly if it was made and not closed since; ids are not used twice. */
  ghost predicate OpenIff(s: Sys, actions: seq<Action>, n: nat, conn: nat)
    requires n <= |actions|
  {
    && (conn !in s.createdOn ==> !Gone(actions, n, conn))
    && (conn in s.createdOn ==>
          s.createdOn[conn] < |s.cores| && (conn in s.cores[s.createdOn[conn]].conns <==> !Gone(actions, n, conn)))
  }

  lemma OpenStep(sv: Service, db: Db, s: Sys, actions: seq<Action>, n: nat, conn: nat)
    requires ServiceOk(sv) && n < |actions| && Enabled(s, actions[n]) && Inv(sv, db, s) && OpenIff(s, actions, n, conn)
    ensures OpenIff(Next(sv, s, actions[n]), actions, n + 1, conn)
  {
    var act := actions[n];
    EnabledCore(s, act);
    DisconnectKnown(s, act);
    hide ServiceOk, Enabled, Next, Traffic, Wakeful, Told, Refines, Gone;
    GoneNext(actions, n, conn);
    CreatedStep(sv, s, act);
    StepDelivers(sv, s, act);
    assert s.nextConn !in s.createdOn;
  }

  lemma DisconnectKnown(s: Sys, act: Action)
    requires Enabled(s, act)
    ensures act.Disconnect? ==> act.conn in s.cores[act.core].conns
  {
  }

  lemma {:induction false} OpenConnections(sv: Service, db: Db, states: seq<Sys>, actions: seq<Action>, n: nat, conn: nat)
    requires ServiceOk(sv) && IsRun(sv, states, actions) && Init(sv, db, states[0]) && n < |states|
    ensures OpenIff(states[n], actions, n, conn)
  {
    hide ServiceOk, Enabled, Next, Inv, OpenIff;
    if n == 0 {
      assert OpenIff(states[0], actions, 0, conn) by { OpenInit(sv, db, states[0], actions, conn); }
    } else {
      OpenConnections(sv, db, states, actions, n - 1, conn);
      Reachable(sv, db, states, actions, n - 1);
      OpenStep(sv, db, states[n - 1], actions, n - 1, conn);
    }
  }

  lemma OpenInit(sv: Service, db: Db, s: Sys, actions: seq<Action>, conn: nat)
    requires Init(sv, db, s)
    ensures OpenIff(s, actions, 0, conn)
  {
  }

  /** Delivery, for every run: a reply handed over by step `k` is delivered exactly if its connection was
      not closed before that step. */
  lemma DeliveredIffOpen(sv: Service, db: Db, states: seq<Sys>, actions: seq<Action>, k: nat, j: nat)
    requires ServiceOk(sv) && IsRun(sv, states, actions) && Init(sv, db, states[0])
    requires k < |actions| && |states[k].done| <= j < |states[k + 1].done|
    ensures var d := states[k + 1].done[j];
            d.delivered <==> !Gone(actions, k, d.conn)
  {
    hide ServiceOk, Enabled, Next, Traffic, Wakeful, Connected, Told, Refines, Gone;
    var s, t := states[k], states[k + 1];
    Reachable(sv, db, states, actions, k);
    Reachable(sv, db, states, actions, k + 1);
    StepDelivers(sv, s, actions[k]);
    AnsweredHome(sv, t, j);
    CreatedStep(sv, s, actions[k]);
    OpenConnections(sv, db, states, actions, k, t.done[j].conn);
  }

  /** Every reply of a run was handed over by one of its steps. */
  lemma {:induction false} HandedOver(sv: Service, db: Db, states: seq<Sys>, actions: seq<Action>, n: nat, j: nat)
    returns (k: nat)
    requires ServiceOk(sv) && IsRun(sv, states, actions) && Init(sv, db, states[0]) && n < |states| && j < |states[n].done|
    ensures k < n && |states[k].done| <= j < |states[k + 1].done| && states[k + 1].done[j] == states[n].done[j]
  {
    hide ServiceOk, Enabled, Next;
    StepGrows(sv, states[n - 1], actions[n - 1]);
    if j < |states[n - 1].done| {
      k := HandedOver(sv, db, states, actions, n - 1, j);
    } else {
      k := n - 1;
    }
  }

  /** Delivery, for every reply of every run: it was handed over by one step, and delivered exactly if its
      connection was not closed before that step. */
  lemma EveryDelivery(sv: Service, db: Db, states: seq<Sys>, actions: seq<Action>, n: nat, j: nat) returns (k: nat)
    requires ServiceOk(sv) && IsRun(sv, states, actions) && Init(sv, db, states[0]) && n < |states| && j < |states[n].done|
    ensures k < n && |states[k].done| <= j < |states[k + 1].done|
    ensures states[n].done[j].delivered <==> !Gone(actions, k, states[n].done[j].conn)
  {
    hide ServiceOk, Enabled, Next, Gone;
    k := HandedOver(sv, db, states, actions, n, j);
    DeliveredIffOpen(sv, db, states, actions, k, j);
  }

  /** The command `tag` has an answer, delivered unless its connection was closed. */
  ghost predicate Attended(s: Sys, actions: seq<Action>, tag: nat)
    requires tag < |s.issued|
  {
    exists j :: 0 <= j < |s.done| && s.done[j].tag == tag && s.done[j].conn == s.issued[tag].conn &&
      (!Gone(actions, |actions|, s.issued[tag].conn) ==> s.done[j].delivered)
  }

  /** For every run that the cores alone cannot continue: every command has an answer, and every
      command whose connection was never closed has a delivered one. */
  lemma EveryRunAttends(sv: Service, db: Db, states: seq<Sys>, actions: seq<Action>)
    requires ServiceOk(sv) && IsRun(sv, states, actions) && Init(sv, db, states[0]) && AtRest(states[|actions|])
    ensures var s := states[|actions|]; forall tag :: 0 <= tag < |s.issued| ==> Attended(s, actions, tag)
  {
    hide ServiceOk, Enabled, Next, Internal, Inv, Gone, AtRest, IsRun, Init;
    RunLength(sv, states, actions);
    var n, s := |actions|, states[|actions|];
    Reachable(sv, db, states, actions, n);
    StillRun(sv, s);
    EveryScheduleAnswers(sv, db, [s], []);
    forall tag | 0 <= tag < |s.issued| ensures Attended(s, actions, tag) {
      assert HasAnswer(s, tag);
      var j :| 0 <= j < |s.done| && Answers(s, tag, j);
      OpenConnections(sv, db, states, actions, n, s.done[j].conn);
      InvHome(sv, db, s, j);
    }
  }

  lemma InvHome(sv: Service, db: Db, s: Sys, j: nat)
    requires ServiceOk(sv) && Inv(sv, db, s) && j < |s.done|
    ensures s.done[j].conn in s.createdOn && s.createdOn[s.done[j].conn] == s.done[j].core
  {
    hide Traffic, Connected;
    AnsweredHome(sv, s, j);
  }

  lemma StillRun(sv: Service, s: Sys)
    requires ServiceOk(sv)
    ensures IsRun(sv, [s], []) && InternalRun(sv, [s], [])
  {
  }
}
