/** The protocol's theorems: for every service, every initial database, and every run, whatever the
    interleaving of the cores' steps. */
module ProtocolTheorems {
  import opened Protocol
  import opened ProtocolPipelines
  import opened ProtocolSafety

  ghost predicate Inv(sv: Service, db: Db, s: Sys)
    requires ServiceOk(sv)
  {
    Traffic(sv, s) && Wakeful(s) && Connected(s) && Told(s) && Refines(sv, db, s)
  }

  lemma InvInit(sv: Service, db: Db, s: Sys)
    requires ServiceOk(sv) && Init(sv, db, s)
    ensures Inv(sv, db, s)
  {
    TrafficInit(sv, db, s);
    WakefulInit(sv, db, s);
    forall c | 0 <= c < |s.cores| ensures s.cores[c].conns == {} {
      assert s.cores[c] == Core(Boot, false, 0, Absent, [], {}, s.cores[c].shard);
    }
    assert Connected(s);
    assert Matches(sv, s, Replay(sv, db, s.log));
  }

  lemma InvStep(sv: Service, db: Db, s: Sys, act: Action)
    requires ServiceOk(sv) && Enabled(s, act) && Inv(sv, db, s)
    ensures Inv(sv, db, Next(sv, s, act))
  {
    hide ServiceOk, Enabled, Next, Traffic, Wakeful, Connected, Told, Refines;
    TrafficStep(sv, s, act);
    WakefulStep(sv, s, act);
    ConnectedStep(sv, s, act);
    ToldStep(sv, s, act);
    RefinesStep(sv, db, s, act);
  }

  /** Every state of every run satisfies the invariants. */
  lemma {:induction false} Reachable(sv: Service, db: Db, states: seq<Sys>, actions: seq<Action>, i: nat)
    requires ServiceOk(sv) && IsRun(sv, states, actions) && Init(sv, db, states[0]) && i < |states|
    ensures Inv(sv, db, states[i])
  {
    hide ServiceOk, Enabled, Next, Inv;
    if i == 0 {
      InvInit(sv, db, states[0]);
    } else {
      Reachable(sv, db, states, actions, i - 1);
      InvStep(sv, db, states[i - 1], actions[i - 1]);
    }
  }

  // ---------------------------------------------------------------- histories and filters

  ghost predicate TagsIncrease(ts: seq<Ticket>) {
    forall i, j :: 0 <= i < j < |ts| ==> ts[i].tag < ts[j].tag
  }

  lemma {:induction false} IssuedIncrease(issued: seq<Issue>, a: nat, b: nat)
    ensures TagsIncrease(Issued(issued, a, b))
    ensures forall i :: 0 <= i < |Issued(issued, a, b)| ==> Issued(issued, a, b)[i].tag < |issued|
  {
    if issued != [] { IssuedIncrease(issued[..|issued| - 1], a, b); }
  }

  lemma {:induction false} IssuedHas(issued: seq<Issue>, i: nat)
    requires i < |issued|
    ensures Ticket(i, issued[i].conn, issued[i].args) in Issued(issued, issued[i].core, issued[i].dest)
  {
    var n := |issued| - 1;
    if i < n { IssuedHas(issued[..n], i); }
  }

  lemma {:induction false} ExecutedHas(log: seq<Exec>, i: nat)
    requires i < |log|
    ensures Ticket(log[i].tag, log[i].conn, log[i].args) in Executed(log, log[i].origin, log[i].core)
    ensures Receipt(log[i].tag, log[i].conn, log[i].reply) in Replied(log, log[i].origin, log[i].core)
  {
    var n := |log| - 1;
    if i < n { ExecutedHas(log[..n], i); }
  }

  lemma {:induction false} ExecutedFrom(log: seq<Exec>, a: nat, b: nat, t: Ticket) returns (i: nat)
    requires t in Executed(log, a, b)
    ensures i < |log| && log[i].origin == a && log[i].core == b
    ensures t == Ticket(log[i].tag, log[i].conn, log[i].args)
  {
    var n := |log| - 1;
    if t in Executed(log[..n], a, b) {
      i := ExecutedFrom(log[..n], a, b, t);
    } else {
      i := n;
    }
  }

  lemma {:induction false} RepliedFrom(log: seq<Exec>, a: nat, b: nat, r: Receipt) returns (i: nat)
    requires r in Replied(log, a, b)
    ensures i < |log| && log[i].origin == a && log[i].core == b
    ensures r == Receipt(log[i].tag, log[i].conn, log[i].reply)
  {
    var n := |log| - 1;
    if r in Replied(log[..n], a, b) {
      i := RepliedFrom(log[..n], a, b, r);
    } else {
      i := n;
    }
  }

  /** The two views of a pair's executions list the same commands. */
  lemma {:induction false} SameTags(log: seq<Exec>, a: nat, b: nat)
    ensures |Executed(log, a, b)| == |Replied(log, a, b)|
    ensures forall i :: 0 <= i < |Executed(log, a, b)| ==>
              Executed(log, a, b)[i].tag == Replied(log, a, b)[i].tag && Executed(log, a, b)[i].conn == Replied(log, a, b)[i].conn
  {
    if log != [] { SameTags(log[..|log| - 1], a, b); }
  }

  lemma {:induction false} AnsweredHas(done: seq<Done>, j: nat)
    requires j < |done|
    ensures Receipt(done[j].tag, done[j].conn, done[j].payload) in Answered(done, done[j].core, done[j].from)
  {
    var n := |done| - 1;
    if j < n { AnsweredHas(done[..n], j); }
  }

  lemma {:induction false} AnsweredFrom(done: seq<Done>, a: nat, b: nat, r: Receipt) returns (j: nat)
    requires r in Answered(done, a, b)
    ensures j < |done| && done[j].core == a && done[j].from == b
    ensures r == Receipt(done[j].tag, done[j].conn, done[j].payload)
  {
    var n := |done| - 1;
    if r in Answered(done[..n], a, b) {
      j := AnsweredFrom(done[..n], a, b, r);
    } else {
      j := n;
    }
  }

  /** In a pair's history, later entries have larger tags. */
  lemma {:induction false} LogOrder(log: seq<Exec>, i: nat, j: nat)
    requires i < j < |log| && log[i].origin == log[j].origin && log[i].core == log[j].core
    requires TagsIncrease(Executed(log, log[i].origin, log[i].core))
    ensures log[i].tag < log[j].tag
  {
    var n, a, b := |log| - 1, log[i].origin, log[i].core;
    var before := Executed(log[..n], a, b);
    assert forall k :: 0 <= k < |before| ==> Executed(log, a, b)[k] == before[k];
    if j < n {
      LogOrder(log[..n], i, j);
    } else {
      ExecutedHas(log[..n], i);
      var k :| 0 <= k < |before| && before[k] == Ticket(log[i].tag, log[i].conn, log[i].args);
      assert Executed(log, a, b)[|before|].tag == log[j].tag;
    }
  }

  ghost predicate ReceiptsIncrease(rs: seq<Receipt>) {
    forall i, j :: 0 <= i < j < |rs| ==> rs[i].tag < rs[j].tag
  }

  lemma {:induction false} DoneOrder(done: seq<Done>, i: nat, j: nat)
    requires i < j < |done| && done[i].core == done[j].core && done[i].from == done[j].from
    requires ReceiptsIncrease(Answered(done, done[i].core, done[i].from))
    ensures done[i].tag < done[j].tag
  {
    var n, a, b := |done| - 1, done[i].core, done[i].from;
    var before := Answered(done[..n], a, b);
    assert forall k :: 0 <= k < |before| ==> Answered(done, a, b)[k] == before[k];
    if j < n {
      DoneOrder(done[..n], i, j);
    } else {
      AnsweredHas(done[..n], i);
      var k :| 0 <= k < |before| && before[k] == Receipt(done[i].tag, done[i].conn, done[i].payload);
      assert Answered(done, a, b)[|before|].tag == done[j].tag;
    }
  }

  /** A pair's executions are the first of its issued commands, its answers the first of its
      executions, all in tag order. */
  lemma PairOrder(s: Sys, a: nat, b: nat)
    requires a < |s.cores| && b < |s.cores| && PairOk(s, a, b)
    ensures Executed(s.log, a, b) <= Issued(s.issued, a, b)
    ensures Answered(s.done, a, b) <= Replied(s.log, a, b)
    ensures TagsIncrease(Issued(s.issued, a, b)) && TagsIncrease(Executed(s.log, a, b))
    ensures ReceiptsIncrease(Replied(s.log, a, b)) && ReceiptsIncrease(Answered(s.done, a, b))
  {
    IssuedIncrease(s.issued, a, b);
    SameTags(s.log, a, b);
    hide Executed, Issued, Replied, Answered, PendingRequests, PendingReplies;
    var e, i := Executed(s.log, a, b), Issued(s.issued, a, b);
    assert forall k :: 0 <= k < |e| ==> e[k] == i[k];
    var d, r := Answered(s.done, a, b), Replied(s.log, a, b);
    assert forall k :: 0 <= k < |d| ==> d[k] == r[k];
  }

  // ---------------------------------------------------------------- exactly once

  /** An execution belongs to an issued command, on the core it was issued for. */
  lemma ExecutionWasIssued(sv: Service, s: Sys, i: nat)
    requires Traffic(sv, s) && i < |s.log|
    ensures var e := s.log[i];
            e.tag < |s.issued| && s.issued[e.tag] == Issue(e.origin, e.conn, e.args, e.core)
  {
    var e := s.log[i];
    assert PairOk(s, e.origin, e.core);
    PairOrder(s, e.origin, e.core);
    ExecutedHas(s.log, i);
    IssuedTickets(s.issued, e.origin, e.core, Ticket(e.tag, e.conn, e.args));
  }

  /** No command executes twice. */
  lemma ExecutedOnce(sv: Service, s: Sys, i: nat, j: nat)
    requires Traffic(sv, s) && i < |s.log| && j < |s.log| && s.log[i].tag == s.log[j].tag
    ensures i == j
  {
    ExecutionWasIssued(sv, s, i);
    ExecutionWasIssued(sv, s, j);
    assert PairOk(s, s.log[i].origin, s.log[i].core);
    PairOrder(s, s.log[i].origin, s.log[i].core);
    if i < j { LogOrder(s.log, i, j); }
    if j < i { LogOrder(s.log, j, i); }
  }

  lemma {:induction false} MessageCounted(ms: seq<Message>, i: nat)
    requires i < |ms|
    ensures var m := ms[i];
            if m.Request? then Ticket(m.tag, m.conn, m.args) in Requests(ms, m.origin)
            else Receipt(m.tag, m.conn, m.payload) in Responses(ms, m.origin)
  {
    if i > 0 { MessageCounted(ms[1..], i - 1); }
  }

  lemma RequestIsHome(sv: Service, s: Sys, c: nat, i: nat)
    requires Traffic(sv, s) && c < |s.cores| && i < |s.cores[c].inbox| && s.cores[c].inbox[i].Request?
    ensures var m := s.cores[c].inbox[i]; |m.args| >= 2 && sv.owner(m.args[1]) == c
  {
    var m := s.cores[c].inbox[i];
    MessageCounted(s.cores[c].inbox, i);
    assert CoreShape(s.cores[c], |s.cores|, c);
    assert PairOk(s, m.origin, c);
    hide Requests, Responses, Issued, Executed, Replied, Answered, Pipelined;
    var t := Ticket(m.tag, m.conn, m.args);
    assert t in PendingRequests(s, m.origin, c);
    assert t in Executed(s.log, m.origin, c) + PendingRequests(s, m.origin, c);
    IssuedTickets(s.issued, m.origin, c, t);
  }

  lemma ResponseIsHome(sv: Service, s: Sys, c: nat, i: nat)
    requires Traffic(sv, s) && Connected(s) && c < |s.cores| && i < |s.cores[c].inbox| && s.cores[c].inbox[i].Response?
    ensures var m := s.cores[c].inbox[i]; m.conn in s.createdOn && s.createdOn[m.conn] == c
  {
    var m := s.cores[c].inbox[i];
    MessageCounted(s.cores[c].inbox, i);
    assert CoreShape(s.cores[c], |s.cores|, c);
    assert PairOk(s, c, m.origin);
    hide Requests, Responses, Issued, Executed, Replied, Answered, Pipelined;
    var r := Receipt(m.tag, m.conn, m.payload);
    assert r in PendingReplies(s, c, m.origin);
    assert r in Answered(s.done, c, m.origin) + PendingReplies(s, c, m.origin);
    var k := RepliedFrom(s.log, c, m.origin, r);
    ExecutionWasIssued(sv, s, k);
  }

  /** Shared nothing, for every message waiting at a core: a request is for a key the core owns, and
      a response is for a connection the core created. */
  lemma InboxIsHome(sv: Service, db: Db, s: Sys, c: nat, i: nat)
    requires ServiceOk(sv) && Inv(sv, db, s) && c < |s.cores| && i < |s.cores[c].inbox|
    ensures var m := s.cores[c].inbox[i];
            if m.Request? then |m.args| >= 2 && sv.owner(m.args[1]) == c
            else m.conn in s.createdOn && s.createdOn[m.conn] == c
  {
    hide ServiceOk, Traffic, Connected, Wakeful, Told, Refines;
    if s.cores[c].inbox[i].Request? {
      RequestIsHome(sv, s, c, i);
    } else {
      ResponseIsHome(sv, s, c, i);
    }
  }

  /** Accounting, for each pair of cores: every command issued on `a` for `b` is in exactly one place:
      requested, replied to but not yet handed over, or answered. */
  lemma Accounting(sv: Service, s: Sys, a: nat, b: nat)
    requires Traffic(sv, s) && a < |s.cores| && b < |s.cores|
    ensures |Issued(s.issued, a, b)| ==
            |PendingRequests(s, a, b)| + |PendingReplies(s, a, b)| + |Answered(s.done, a, b)|
  {
    assert PairOk(s, a, b);
    SameTags(s.log, a, b);
  }

  /** A reply is that of an execution, of the command it is tagged with. */
  lemma AnswerSource(sv: Service, s: Sys, j: nat) returns (i: nat)
    requires Traffic(sv, s) && j < |s.done|
    ensures var d := s.done[j];
            && i < |s.log| && s.log[i].tag == d.tag && s.log[i].reply == d.payload
            && d.tag < |s.issued| && s.issued[d.tag] == Issue(d.core, d.conn, s.log[i].args, s.log[i].core)
            && d.core < |s.cores|
  {
    var d := s.done[j];
    assert PairOk(s, d.core, d.from);
    AnsweredHas(s.done, j);
    hide Requests, Responses, Issued, Executed, Replied, Answered, Pipelined;
    var r := Receipt(d.tag, d.conn, d.payload);
    assert r in Answered(s.done, d.core, d.from) + PendingReplies(s, d.core, d.from);
    i := RepliedFrom(s.log, d.core, d.from, r);
    ExecutionWasIssued(sv, s, i);
  }

  /** It was sent on the reply's connection, at the core that created that connection. */
  lemma AnsweredHome(sv: Service, s: Sys, j: nat)
    requires Traffic(sv, s) && Connected(s) && j < |s.done|
    ensures var d := s.done[j];
            && d.tag < |s.issued| && s.issued[d.tag].core == d.core < |s.cores| && s.issued[d.tag].conn == d.conn
            && d.conn in s.createdOn && s.createdOn[d.conn] == d.core
  {
    hide Traffic;
    var i := AnswerSource(sv, s, j);
  }

  // ---------------------------------------------------------------- delivery

  /** A reply that was dropped was for a connection that is gone. */
  ghost predicate Told(s: Sys) {
    forall j :: 0 <= j < |s.done| && !s.done[j].delivered ==> Closed(s, s.done[j].core, s.done[j].conn)
  }

  ghost predicate Closed(s: Sys, core: nat, conn: nat) {
    core < |s.cores| && conn !in s.cores[core].conns
  }

  /** A core's connections after a step. */
  ghost function ConnsAfter(s: Sys, act: Action, c: nat): set<nat>
    requires c < |s.cores|
  {
    var conns := s.cores[c].conns;
    if c != act.core then conns
    else if act.Connect? then conns + {s.nextConn}
    else if act.Disconnect? then conns - {act.conn}
    else conns
  }

  /** The step appended a reply of its own core, delivered exactly if its connection is there. */
  ghost predicate Appends(s: Sys, act: Action, t: Sys, d: Done) {
    && act.core < |s.cores| && !act.Connect? && !act.Disconnect?
    && t.done == s.done + [d] && d.core == act.core && (d.delivered <==> d.conn in s.cores[act.core].conns)
  }

  ghost predicate SameConns(s: Sys, t: Sys) {
    |t.cores| == |s.cores| && forall c :: 0 <= c < |s.cores| ==> t.cores[c].conns == s.cores[c].conns
  }

  lemma HandleDelivers(sv: Service, s: Sys, act: Action)
    requires ServiceOk(sv) && Enabled(s, act) && Traffic(sv, s) && act.Handle?
    ensures var t := Next(sv, s, act); SameConns(s, t) && (t.done == s.done || exists d :: Appends(s, act, t, d))
  {
    hide ServiceOk, Next, Decide, Serve, Traffic;
    var t, me := Next(sv, s, act), s.cores[act.core];
    HandleDiff(sv, s, act);
    var m := me.pc.rest[0];
    if m.Response? {
      assert Appends(s, act, t, Done(m.tag, act.core, m.origin, m.conn, m.payload, m.conn in me.conns));
    }
  }

  lemma ReceiveDelivers(sv: Service, s: Sys, act: Action)
    requires ServiceOk(sv) && Enabled(s, act) && |s.cores| == sv.cores && act.Receive?
    ensures var t := Next(sv, s, act); SameConns(s, t) && (t.done == s.done || exists d :: Appends(s, act, t, d))
  {
    hide ServiceOk, Next, Decide, Serve, Destination;
    var t, me := Next(sv, s, act), s.cores[act.core];
    ReceiveDiff(sv, s, act);
    var reply := Serve(sv, me.shard, false, act.args, act.clock).1;
    if t.done != s.done {
      assert Appends(s, act, t, Done(|s.issued|, act.core, act.core, act.conn, reply, true));
    }
  }

  lemma PassDelivers(sv: Service, s: Sys, act: Action)
    requires ServiceOk(sv) && Enabled(s, act) && (act.Push? || act.Notify?)
    ensures var t := Next(sv, s, act); SameConns(s, t) && t.done == s.done
  {
    hide ServiceOk, Received, Handled;
  }

  /** What a step does to connections and replies: connections come only by `Connect`, under a new
      id, and go only by `Disconnect`; at most one reply is appended. */
  lemma StepDelivers(sv: Service, s: Sys, act: Action)
    requires ServiceOk(sv) && Enabled(s, act) && Traffic(sv, s)
    ensures var t := Next(sv, s, act); t.done == s.done || exists d :: Appends(s, act, t, d)
    ensures var t := Next(sv, s, act);
            |t.cores| == |s.cores| && forall c :: 0 <= c < |s.cores| ==> t.cores[c].conns == ConnsAfter(s, act, c)
  {
    if act.Handle? {
      hide ServiceOk, Next, Enabled, Traffic, Appends;
      HandleDelivers(sv, s, act);
    } else if act.Receive? {
      TrafficCores(sv, s);
      hide ServiceOk, Next, Enabled, Traffic, Appends;
      ReceiveDelivers(sv, s, act);
    } else if act.Push? || act.Notify? {
      hide ServiceOk, Next, Enabled, Traffic, Appends;
      PassDelivers(sv, s, act);
    } else {
      hide ServiceOk, Received, Handled, Pushed, Traffic, Appends;
    }
  }

  lemma TrafficCores(sv: Service, s: Sys)
    requires Traffic(sv, s)
    ensures |s.cores| == sv.cores
  {
  }

  lemma ToldStep(sv: Service, s: Sys, act: Action)
    requires ServiceOk(sv) && Enabled(s, act) && Traffic(sv, s) && Connected(s) && Told(s)
    ensures Told(Next(sv, s, act))
  {
    hide ServiceOk, Enabled, Next, Traffic;
    StepDelivers(sv, s, act);
    var t := Next(sv, s, act);
    forall j | 0 <= j < |t.done| && !t.done[j].delivered ensures Closed(t, t.done[j].core, t.done[j].conn) {
      if j < |s.done| {
        assert t.done[j] == s.done[j];
        AnsweredHome(sv, s, j);
        assert Closed(s, s.done[j].core, s.done[j].conn);
      }
    }
  }

  /** `done[j]` is the reply of the execution `log[i]`: what the single map gave at that point. */
  ghost predicate ReplyOf(sv: Service, db: Db, s: Sys, j: nat, i: nat)
    requires ServiceOk(sv) && j < |s.done| && i < |s.log|
  {
    var d, e := s.done[j], s.log[i];
    && d.tag == e.tag < |s.issued|
    && s.issued[d.tag] == Issue(d.core, d.conn, e.args, e.core)
    && d.payload == Serve(sv, Replay(sv, db, s.log[..i]), e.remote, e.args, e.clock).1
  }

  ghost predicate IsExecutionReply(sv: Service, db: Db, s: Sys, j: nat)
    requires ServiceOk(sv) && j < |s.done|
  {
    exists i :: 0 <= i < |s.log| && ReplyOf(sv, db, s, j, i)
  }

  /** Every reply handed over is the one the single map gave when its command executed, on the
      command's own core, and it goes to the connection that sent the command. */
  lemma EveryReply(sv: Service, db: Db, s: Sys, j: nat)
    requires ServiceOk(sv) && Inv(sv, db, s) && j < |s.done|
    ensures IsExecutionReply(sv, db, s, j)
    ensures s.done[j].conn in s.createdOn && s.createdOn[s.done[j].conn] == s.done[j].core
    ensures !s.done[j].delivered ==> Closed(s, s.done[j].core, s.done[j].conn)
  {
    hide Traffic, Connected, Wakeful, Serve, Replay, ServiceOk, Owned, Matches;
    AnsweredHome(sv, s, j);
    var i := AnswerSource(sv, s, j);
    assert ReplyOf(sv, db, s, j, i);
  }

  /** Linearizability, for every run: in every state the shards, each holding only keys it owns, are
      together the single map after the executed commands; every execution's reply is the single
      map's; no command executes twice; and every reply handed over is one of these. */
  lemma Linearizable(sv: Service, db: Db, states: seq<Sys>, actions: seq<Action>, n: nat)
    requires ServiceOk(sv) && IsRun(sv, states, actions) && Init(sv, db, states[0]) && n < |states|
    ensures Refines(sv, db, states[n])
    ensures forall i, j :: 0 <= i < j < |states[n].log| ==> states[n].log[i].tag != states[n].log[j].tag
    ensures forall j :: 0 <= j < |states[n].done| ==> IsExecutionReply(sv, db, states[n], j)
  {
    hide ServiceOk, Enabled, Next, Traffic, Wakeful, Connected, Told, Refines, IsExecutionReply;
    Reachable(sv, db, states, actions, n);
    var s := states[n];
    forall i, j | 0 <= i < j < |s.log| ensures s.log[i].tag != s.log[j].tag {
      if s.log[i].tag == s.log[j].tag { ExecutedOnce(sv, s, i, j); }
    }
    forall j | 0 <= j < |s.done| ensures IsExecutionReply(sv, db, s, j) {
      EveryReply(sv, db, s, j);
    }
  }

  /** No lost wake-up, for every run: a core with messages waiting has an event pending, or a read
      completed, or is about to swap, or a producer is between its push and its notification; and a
      core about to notify finds every fd registered. */
  lemma NoWakeupIsLost(sv: Service, db: Db, states: seq<Sys>, actions: seq<Action>, n: nat)
    requires ServiceOk(sv) && IsRun(sv, states, actions) && Init(sv, db, states[0]) && n < |states|
    ensures forall c :: 0 <= c < |states[n].cores| && states[n].cores[c].inbox != [] ==> Alerted(states[n], c)
    ensures forall c, d | 0 <= c < |states[n].cores| && 0 <= d < |states[n].cores| ::
              states[n].cores[c].pc.Notifying? ==> states[n].cores[d].fd
  {
    hide ServiceOk, Enabled, Next, Traffic, Connected, Told, Refines;
    Reachable(sv, db, states, actions, n);
    var s := states[n];
    forall c, d | 0 <= c < |s.cores| && 0 <= d < |s.cores| && s.cores[c].pc.Notifying? ensures s.cores[d].fd {
      AllRegistered(s, c, d);
    }
  }

  // ---------------------------------------------------------------- order

  /** A prefix of a tag-ordered sequence has everything before what it has. */
  lemma PrefixHasEarlier(e: seq<Ticket>, q: seq<Ticket>, x: Ticket, y: Ticket)
    requires e <= q && TagsIncrease(q) && x in q && y in e && x.tag < y.tag
    ensures x in e
  {
    var k :| 0 <= k < |e| && e[k] == y;
    var l :| 0 <= l < |q| && q[l] == x;
    assert q[k] == y;
    assert e[l] == q[l];
  }

  lemma PrefixHasEarlierReceipt(e: seq<Receipt>, q: seq<Receipt>, x: Receipt, y: Receipt)
    requires e <= q && ReceiptsIncrease(q) && x in q && y in e && x.tag < y.tag
    ensures x in e
  {
    var k :| 0 <= k < |e| && e[k] == y;
    var l :| 0 <= l < |q| && q[l] == x;
    assert q[k] == y;
    assert e[l] == q[l];
  }

  /** Two commands of one core for one owner (so also two of one connection) execute in the order
      they were sent. */
  lemma SameOwnerExecutes(sv: Service, s: Sys, x: nat, y: nat, j: nat)
    requires Traffic(sv, s) && x < y < |s.issued|
    requires s.issued[x].core == s.issued[y].core && s.issued[x].dest == s.issued[y].dest
    requires j < |s.log| && s.log[j].tag == y
    ensures exists i :: 0 <= i < j && s.log[i].tag == x
  {
    hide Executed, Issued, Replied, Answered, PairOk, CoreShape, Routed;
    var a, b := s.issued[x].core, s.issued[x].dest;
    assert PairOk(s, a, b);
    PairOrder(s, a, b);
    ExecutionWasIssued(sv, s, j);
    IssuedHas(s.issued, x);
    ExecutedHas(s.log, j);
    var tx := Ticket(x, s.issued[x].conn, s.issued[x].args);
    PrefixHasEarlier(Executed(s.log, a, b), Issued(s.issued, a, b), tx, Ticket(y, s.log[j].conn, s.log[j].args));
    var i := ExecutedFrom(s.log, a, b, tx);
    if j < i { LogOrder(s.log, j, i); }
  }

  /** Their replies are handed over in that order too. */
  lemma SameOwnerAnswers(sv: Service, s: Sys, x: nat, y: nat, j: nat)
    requires Traffic(sv, s) && x < y < |s.issued|
    requires s.issued[x].core == s.issued[y].core && s.issued[x].dest == s.issued[y].dest
    requires j < |s.done| && s.done[j].tag == y
    ensures exists i :: 0 <= i < j && s.done[i].tag == x
  {
    hide Executed, Issued, Replied, Answered, PairOk, CoreShape, Routed;
    var d := s.done[j];
    var a, b, ry := d.core, d.from, Receipt(d.tag, d.conn, d.payload);
    assert PairOk(s, a, b);
    PairOrder(s, a, b);
    AnsweredHas(s.done, j);
    assert ry in Replied(s.log, a, b);
    var p := RepliedFrom(s.log, a, b, ry);
    ExecutionWasIssued(sv, s, p);
    SameOwnerExecutes(sv, s, x, y, p);
    var o :| 0 <= o < p && s.log[o].tag == x;
    ExecutionWasIssued(sv, s, o);
    ExecutedHas(s.log, o);
    var rx := Receipt(x, s.log[o].conn, s.log[o].reply);
    PrefixHasEarlierReceipt(Answered(s.done, a, b), Replied(s.log, a, b), rx, ry);
    var i := AnsweredFrom(s.done, a, b, rx);
    if j < i { DoneOrder(s.done, j, i); }
  }

  /** Histories only grow. */
  lemma StepGrows(sv: Service, s: Sys, act: Action)
    requires ServiceOk(sv) && Enabled(s, act)
    ensures var t := Next(sv, s, act);
            s.issued <= t.issued && s.log <= t.log && s.done <= t.done
  {
    hide ServiceOk, Decide, Serve;
  }

  lemma {:induction false} RunGrows(sv: Service, states: seq<Sys>, actions: seq<Action>, p: nat, q: nat)
    requires ServiceOk(sv) && IsRun(sv, states, actions) && p <= q < |states|
    ensures states[p].issued <= states[q].issued && states[p].log <= states[q].log && states[p].done <= states[q].done
    decreases q - p
  {
    hide ServiceOk, Enabled, Next;
    if p < q {
      RunGrows(sv, states, actions, p, q - 1);
      StepGrows(sv, states[q - 1], actions[q - 1]);
    }
  }

  /** Real time: a command whose reply was handed over before another was sent executes before it. */
  lemma RealTimeOrder(sv: Service, db: Db, states: seq<Sys>, actions: seq<Action>, p: nat, q: nat, k: nat, i: nat, j: nat)
    requires ServiceOk(sv) && IsRun(sv, states, actions) && Init(sv, db, states[0]) && p <= q < |states|
    requires k < |states[p].done|
    requires i < |states[q].log| && states[q].log[i].tag == states[p].done[k].tag
    requires j < |states[q].log| && states[q].log[j].tag >= |states[p].issued|
    ensures i < j
  {
    hide ServiceOk, Enabled, Next, Traffic, Wakeful, Connected, Told, Refines;
    Reachable(sv, db, states, actions, p);
    Reachable(sv, db, states, actions, q);
    RunGrows(sv, states, actions, p, q);
    EveryReply(sv, db, states[p], k);
    var n :| 0 <= n < |states[p].log| && ReplyOf(sv, db, states[p], k, n);
    assert states[q].log[n] == states[p].log[n];
    ExecutedOnce(sv, states[q], n, i);
    if j < |states[p].log| {
      assert states[q].log[j] == states[p].log[j];
      ExecutionWasIssued(sv, states[p], j);
    }
  }
}
