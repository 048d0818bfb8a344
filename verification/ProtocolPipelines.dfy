/** The traffic invariant of the protocol. For each pair of an origin core `a` and an executing core
    `b`, as sequences:

      executed(a, b) ++ requests in flight(a, b)  ==  issued(a, b)
      answered(a, b) ++ replies in flight(a, b)   ==  executed(a, b)

    so every command is in exactly one place, executed at most once, and nothing overtakes. */
module ProtocolPipelines {
  import opened Bytes
  import opened Protocol

  datatype Ticket = Ticket(tag: nat, conn: nat, args: seq<Bytes>)

  datatype Receipt = Receipt(tag: nat, conn: nat, payload: Bytes)

  // ---------------------------------------------------------------- what is in flight

  /** The requests of core `a` among the messages. */
  ghost function Requests(ms: seq<Message>, a: nat): seq<Ticket> {
    if ms == [] then []
    else
      var m := ms[0];
      (if m.Request? && m.origin == a then [Ticket(m.tag, m.conn, m.args)] else []) + Requests(ms[1..], a)
  }

  /** The responses of core `b` among the messages. */
  ghost function Responses(ms: seq<Message>, b: nat): seq<Receipt> {
    if ms == [] then []
    else
      var m := ms[0];
      (if m.Response? && m.origin == b then [Receipt(m.tag, m.conn, m.payload)] else []) + Responses(ms[1..], b)
  }

  function BatchOf(pc: Pc): seq<Message> {
    match pc
    case Batch(rest) => rest
    case Pushing(_, _, rest, _) => rest
    case Notifying(_, rest, _) => rest
    case _ => []
  }

  /** The message a core is about to push to core `to`. */
  function Outgoing(pc: Pc, to: nat): seq<Message> {
    if pc.Pushing? && pc.to == to then [pc.msg] else []
  }

  ghost function PendingRequests(s: Sys, a: nat, b: nat): seq<Ticket>
    requires a < |s.cores| && b < |s.cores|
  {
    Requests(BatchOf(s.cores[b].pc), a) + Requests(s.cores[b].inbox, a) + Requests(Outgoing(s.cores[a].pc, b), a)
  }

  ghost function PendingReplies(s: Sys, a: nat, b: nat): seq<Receipt>
    requires a < |s.cores| && b < |s.cores|
  {
    Responses(BatchOf(s.cores[a].pc), b) + Responses(s.cores[a].inbox, b) + Responses(Outgoing(s.cores[b].pc, a), b)
  }

  // ---------------------------------------------------------------- what the histories say

  ghost function Issued(issued: seq<Issue>, a: nat, b: nat): seq<Ticket> {
    if issued == [] then []
    else
      var n := |issued| - 1;
      var i := issued[n];
      Issued(issued[..n], a, b) + if i.core == a && i.dest == b then [Ticket(n, i.conn, i.args)] else []
  }

  ghost function Executed(log: seq<Exec>, a: nat, b: nat): seq<Ticket> {
    if log == [] then []
    else
      var e := log[|log| - 1];
      Executed(log[..|log| - 1], a, b) + if e.origin == a && e.core == b then [Ticket(e.tag, e.conn, e.args)] else []
  }

  ghost function Replied(log: seq<Exec>, a: nat, b: nat): seq<Receipt> {
    if log == [] then []
    else
      var e := log[|log| - 1];
      Replied(log[..|log| - 1], a, b) + if e.origin == a && e.core == b then [Receipt(e.tag, e.conn, e.reply)] else []
  }

  ghost function Answered(done: seq<Done>, a: nat, b: nat): seq<Receipt> {
    if done == [] then []
    else
      var d := done[|done| - 1];
      Answered(done[..|done| - 1], a, b) + if d.core == a && d.from == b then [Receipt(d.tag, d.conn, d.payload)] else []
  }

  /** The two equations for one pair of cores. */
  ghost predicate PairOk(s: Sys, a: nat, b: nat)
    requires a < |s.cores| && b < |s.cores|
  {
    && Executed(s.log, a, b) + PendingRequests(s, a, b) == Issued(s.issued, a, b)
    && Answered(s.done, a, b) + PendingReplies(s, a, b) == Replied(s.log, a, b)
  }

  ghost predicate Pipelined(s: Sys) {
    forall a, b :: 0 <= a < |s.cores| && 0 <= b < |s.cores| ==> PairOk(s, a, b)
  }

  // ---------------------------------------------------------------- shape

  ghost predicate Foreign(ms: seq<Message>, n: nat, c: nat) {
    forall i :: 0 <= i < |ms| ==> ms[i].origin < n && ms[i].origin != c
  }

  /** Messages name real, other cores; a core pushes only its own messages, to another core. */
  ghost predicate CoreShape(core: Core, n: nat, c: nat) {
    && Foreign(core.inbox, n, c)
    && Foreign(BatchOf(core.pc), n, c)
    && (core.pc.Pushing? ==> core.pc.to < n && core.pc.to != c && core.pc.msg.origin == c)
    && (core.pc.Notifying? ==> core.pc.to < n)
    && (core.pc.Pushing? || core.pc.Notifying? ==> core.pc.inBatch || core.pc.rest == [])
  }

  ghost predicate Shaped(sv: Service, s: Sys) {
    && |s.cores| == sv.cores
    && (forall c :: 0 <= c < |s.cores| ==> CoreShape(s.cores[c], |s.cores|, c))
    && (forall i :: 0 <= i < |s.issued| ==> s.issued[i].core < |s.cores| && s.issued[i].dest < |s.cores|)
    && (forall i :: 0 <= i < |s.log| ==> s.log[i].origin < |s.cores| && s.log[i].core < |s.cores|)
    && (forall i :: 0 <= i < |s.done| ==> s.done[i].core < |s.cores| && s.done[i].from < |s.cores|)
  }

  /** A forwarded command went to its key's owner. */
  ghost predicate Routed(sv: Service, s: Sys) {
    forall i :: 0 <= i < |s.issued| && s.issued[i].dest != s.issued[i].core ==>
      |s.issued[i].args| >= 2 && sv.owner(s.issued[i].args[1]) == s.issued[i].dest
  }

  ghost predicate Traffic(sv: Service, s: Sys) {
    Shaped(sv, s) && Routed(sv, s) && Pipelined(s)
  }

  // ---------------------------------------------------------------- filters

  lemma {:induction false} RequestsConcat(x: seq<Message>, y: seq<Message>, a: nat)
    ensures Requests(x + y, a) == Requests(x, a) + Requests(y, a)
  {
    if x == [] {
      assert x + y == y;
    } else {
      assert (x + y)[1..] == x[1..] + y;
      RequestsConcat(x[1..], y, a);
    }
  }

  lemma {:induction false} ResponsesConcat(x: seq<Message>, y: seq<Message>, b: nat)
    ensures Responses(x + y, b) == Responses(x, b) + Responses(y, b)
  {
    if x == [] {
      assert x + y == y;
    } else {
      assert (x + y)[1..] == x[1..] + y;
      ResponsesConcat(x[1..], y, b);
    }
  }

  lemma NoMessages(x: nat)
    ensures Requests([], x) == [] && Responses([], x) == []
  {
  }

  lemma Singles(m: Message, x: nat)
    ensures Requests([], x) == [] && Responses([], x) == []
    ensures Requests([m], x) == if m.Request? && m.origin == x then [Ticket(m.tag, m.conn, m.args)] else []
    ensures Responses([m], x) == if m.Response? && m.origin == x then [Receipt(m.tag, m.conn, m.payload)] else []
  {
  }

  lemma ConcatRight<T>(x: seq<T>, y: seq<T>, z: seq<T>, r: seq<T>)
    ensures x + y + (z + r) == x + y + z + r
  {
  }

  lemma ConcatLeft<T>(h: seq<T>, x: seq<T>, y: seq<T>, z: seq<T>)
    ensures (h + x) + y + z == h + (x + y + z)
  {
  }

  lemma ConcatMoves<T>(x: seq<T>, y: seq<T>, z: seq<T>)
    ensures x + (y + z) + [] == x + y + z && x + (y + []) + z == x + y + z
  {
  }

  lemma Heads(ms: seq<Message>, x: nat)
    requires ms != []
    ensures Requests(ms, x) == Requests([ms[0]], x) + Requests(ms[1..], x)
    ensures Responses(ms, x) == Responses([ms[0]], x) + Responses(ms[1..], x)
  {
    assert ms == [ms[0]] + ms[1..];
    RequestsConcat([ms[0]], ms[1..], x);
    ResponsesConcat([ms[0]], ms[1..], x);
  }

  lemma {:induction false} NoneOfOwn(ms: seq<Message>, n: nat, c: nat)
    requires Foreign(ms, n, c)
    ensures Requests(ms, c) == [] && Responses(ms, c) == []
  {
    if ms != [] { NoneOfOwn(ms[1..], n, c); }
  }

  lemma {:induction false} IssuedTickets(issued: seq<Issue>, a: nat, b: nat, t: Ticket)
    requires t in Issued(issued, a, b)
    ensures t.tag < |issued| && issued[t.tag] == Issue(a, t.conn, t.args, b)
  {
    var n := |issued| - 1;
    if t in Issued(issued[..n], a, b) {
      IssuedTickets(issued[..n], a, b, t);
    }
  }

  /** No traffic from a core to itself. */
  lemma NoSelfTraffic(s: Sys, c: nat)
    requires c < |s.cores| && CoreShape(s.cores[c], |s.cores|, c)
    ensures PendingRequests(s, c, c) == [] && PendingReplies(s, c, c) == []
  {
    NoneOfOwn(s.cores[c].inbox, |s.cores|, c);
    NoneOfOwn(BatchOf(s.cores[c].pc), |s.cores|, c);
  }

  // ---------------------------------------------------------------- steps

  /** Steps that move no message. */
  predicate Silent(a: Action) {
    !(a.Receive? || a.Push? || a.Swap? || a.Handle?)
  }

  ghost predicate SameHistories(s: Sys, t: Sys) {
    t.issued == s.issued && t.log == s.log && t.done == s.done
  }

  ghost predicate SameMessages(x: Core, y: Core) {
    BatchOf(y.pc) == BatchOf(x.pc) && y.inbox == x.inbox &&
    (x.pc.Pushing? || y.pc.Pushing? ==> y.pc == x.pc)
  }

  lemma SilentDiff(sv: Service, s: Sys, act: Action, c: nat)
    requires ServiceOk(sv) && Enabled(s, act) && Silent(act) && c < |s.cores|
    requires CoreShape(s.cores[act.core], |s.cores|, act.core)
    ensures var t := Next(sv, s, act);
            |t.cores| == |s.cores| && SameHistories(s, t) && SameMessages(s.cores[c], t.cores[c])
  {
    hide ServiceOk, Foreign, Received, Handled;
  }

  lemma SilentShape(sv: Service, s: Sys, act: Action, c: nat)
    requires ServiceOk(sv) && Enabled(s, act) && Silent(act) && c < |s.cores|
    requires CoreShape(s.cores[act.core], |s.cores|, act.core)
    ensures var t := Next(sv, s, act);
            |t.cores| == |s.cores| && (CoreShape(s.cores[c], |s.cores|, c) ==> CoreShape(t.cores[c], |t.cores|, c))
  {
    hide ServiceOk, Foreign, Received, Handled;
  }

  lemma SamePending(s: Sys, t: Sys, a: nat, b: nat)
    requires |t.cores| == |s.cores| && a < |s.cores| && b < |s.cores|
    requires SameMessages(s.cores[a], t.cores[a]) && SameMessages(s.cores[b], t.cores[b])
    ensures PendingRequests(t, a, b) == PendingRequests(s, a, b)
    ensures PendingReplies(t, a, b) == PendingReplies(s, a, b)
  {
    hide Requests, Responses;
  }

  lemma SamePair(s: Sys, t: Sys, a: nat, b: nat)
    requires |t.cores| == |s.cores| && a < |s.cores| && b < |s.cores| && SameHistories(s, t)
    requires SameMessages(s.cores[a], t.cores[a]) && SameMessages(s.cores[b], t.cores[b])
    ensures PairOk(t, a, b) <==> PairOk(s, a, b)
  {
    SamePending(s, t, a, b);
  }

  lemma SilentKeeps(sv: Service, s: Sys, act: Action)
    requires ServiceOk(sv) && Enabled(s, act) && Silent(act) && Traffic(sv, s)
    ensures Traffic(sv, Next(sv, s, act))
  {
    hide ServiceOk, Enabled, Next, PairOk, CoreShape, SameMessages;
    var t := Next(sv, s, act);
    forall c | 0 <= c < |s.cores|
      ensures |t.cores| == |s.cores| && SameHistories(s, t) && SameMessages(s.cores[c], t.cores[c])
      ensures CoreShape(t.cores[c], |t.cores|, c)
    {
      EnabledCore(s, act);
      SilentDiff(sv, s, act, c);
      SilentShape(sv, s, act, c);
    }
    EnabledCore(s, act);
    SilentDiff(sv, s, act, act.core);
    forall a, b | 0 <= a < |t.cores| && 0 <= b < |t.cores| ensures PairOk(t, a, b) {
      SamePair(s, t, a, b);
    }
  }

  lemma EnabledCore(s: Sys, act: Action)
    requires Enabled(s, act)
    ensures act.core < |s.cores|
  {
  }

  // The batch swap: the whole inbox becomes the batch.

  lemma SwapPair(s: Sys, c: nat, a: nat, b: nat)
    requires c < |s.cores| && s.cores[c].pc == Woken && a < |s.cores| && b < |s.cores|
    ensures PairOk(Swapped(s, c), a, b) <==> PairOk(s, a, b)
  {
    hide Requests, Responses, Issued, Executed, Replied, Answered;
    var t := Swapped(s, c);
    NoMessages(a);
    NoMessages(b);
    assert PendingRequests(t, a, b) == PendingRequests(s, a, b);
    assert PendingReplies(t, a, b) == PendingReplies(s, a, b);
  }

  lemma SwapKeeps(sv: Service, s: Sys, c: nat)
    requires ServiceOk(sv) && Enabled(s, Swap(c)) && Traffic(sv, s)
    ensures Traffic(sv, Next(sv, s, Swap(c)))
  {
    hide ServiceOk, PairOk, Foreign, Received, Handled;
    var t := Next(sv, s, Swap(c));
    assert t == Swapped(s, c);
    hide Next, Swapped;
    forall a, b | 0 <= a < |t.cores| && 0 <= b < |t.cores| ensures PairOk(t, a, b) {
      SwapPair(s, c, a, b);
    }
    assert CoreShape(s.cores[c], |s.cores|, c);
  }

  // A push: the message goes to the end of the target's inbox.

  /** What a push changes of what is on the way from core `x` to core `y`. */
  lemma PushedCores(s: Sys, c: nat, x: nat, y: nat)
    requires c < |s.cores| && CoreShape(s.cores[c], |s.cores|, c) && s.cores[c].pc.Pushing?
    requires x < |s.cores| && y < |s.cores|
    ensures var t, to, m := Pushed(s, c), s.cores[c].pc.to, s.cores[c].pc.msg;
            && |t.cores| == |s.cores|
            && BatchOf(t.cores[y].pc) == BatchOf(s.cores[y].pc)
            && t.cores[y].inbox == (if y == to then s.cores[y].inbox + [m] else s.cores[y].inbox)
            && Outgoing(t.cores[x].pc, y) == (if x == c then [] else Outgoing(s.cores[x].pc, y))
            && Outgoing(s.cores[c].pc, y) == (if y == to then [m] else [])
  {
    hide Foreign;
  }

  lemma PushRequests(s: Sys, c: nat, a: nat, b: nat)
    requires c < |s.cores| && CoreShape(s.cores[c], |s.cores|, c) && s.cores[c].pc.Pushing?
    requires a < |s.cores| && b < |s.cores|
    ensures PendingRequests(Pushed(s, c), a, b) == PendingRequests(s, a, b)
  {
    hide Requests, Foreign, Pushed, BatchOf, Outgoing;
    PushedCores(s, c, a, b);
    var to, m := s.cores[c].pc.to, s.cores[c].pc.msg;
    RequestsConcat(s.cores[b].inbox, [m], a);
    Singles(m, a);
    ConcatMoves(Requests(BatchOf(s.cores[b].pc), a), Requests(s.cores[b].inbox, a), Requests([m], a));
    ConcatMoves(Requests(BatchOf(s.cores[b].pc), a), Requests(s.cores[b].inbox, a), Requests(Outgoing(s.cores[a].pc, b), a));
  }

  lemma PushReplies(s: Sys, c: nat, a: nat, b: nat)
    requires c < |s.cores| && CoreShape(s.cores[c], |s.cores|, c) && s.cores[c].pc.Pushing?
    requires a < |s.cores| && b < |s.cores|
    ensures PendingReplies(Pushed(s, c), a, b) == PendingReplies(s, a, b)
  {
    hide Responses, Foreign, Pushed, BatchOf, Outgoing;
    PushedCores(s, c, b, a);
    var to, m := s.cores[c].pc.to, s.cores[c].pc.msg;
    ResponsesConcat(s.cores[a].inbox, [m], b);
    Singles(m, b);
    ConcatMoves(Responses(BatchOf(s.cores[a].pc), b), Responses(s.cores[a].inbox, b), Responses([m], b));
    ConcatMoves(Responses(BatchOf(s.cores[a].pc), b), Responses(s.cores[a].inbox, b), Responses(Outgoing(s.cores[b].pc, a), b));
  }

  lemma PushPair(s: Sys, c: nat, a: nat, b: nat)
    requires c < |s.cores| && CoreShape(s.cores[c], |s.cores|, c) && s.cores[c].pc.Pushing?
    requires a < |s.cores| && b < |s.cores|
    ensures PairOk(Pushed(s, c), a, b) <==> PairOk(s, a, b)
  {
    hide PendingRequests, PendingReplies, Foreign, Executed, Replied, Answered, Issued;
    PushRequests(s, c, a, b);
    PushReplies(s, c, a, b);
    assert SameHistories(s, Pushed(s, c));
  }

  lemma PushKeeps(sv: Service, s: Sys, c: nat)
    requires ServiceOk(sv) && Enabled(s, Push(c)) && Traffic(sv, s)
    ensures Traffic(sv, Next(sv, s, Push(c)))
  {
    hide ServiceOk, PairOk, Received, Handled;
    var t := Next(sv, s, Push(c));
    assert CoreShape(s.cores[c], |s.cores|, c);
    assert t == Pushed(s, c);
    hide Next;
    forall i | 0 <= i < |t.cores| ensures CoreShape(t.cores[i], |t.cores|, i) {
      assert CoreShape(s.cores[i], |s.cores|, i);
    }
    hide Pushed;
    forall a, b | 0 <= a < |t.cores| && 0 <= b < |t.cores| ensures PairOk(t, a, b) {
      PushPair(s, c, a, b);
    }
  }

  // The histories grow at the end.

  lemma IssuedSnoc(xs: seq<Issue>, x: Issue, a: nat, b: nat)
    ensures Issued(xs + [x], a, b) ==
            Issued(xs, a, b) + if x.core == a && x.dest == b then [Ticket(|xs|, x.conn, x.args)] else []
  {
    assert (xs + [x])[..|xs|] == xs;
  }

  lemma LogSnoc(xs: seq<Exec>, x: Exec, a: nat, b: nat)
    ensures Executed(xs + [x], a, b) ==
            Executed(xs, a, b) + if x.origin == a && x.core == b then [Ticket(x.tag, x.conn, x.args)] else []
    ensures Replied(xs + [x], a, b) ==
            Replied(xs, a, b) + if x.origin == a && x.core == b then [Receipt(x.tag, x.conn, x.reply)] else []
  {
    assert (xs + [x])[..|xs|] == xs;
  }

  lemma DoneSnoc(xs: seq<Done>, x: Done, a: nat, b: nat)
    ensures Answered(xs + [x], a, b) ==
            Answered(xs, a, b) + if x.core == a && x.from == b then [Receipt(x.tag, x.conn, x.payload)] else []
  {
    assert (xs + [x])[..|xs|] == xs;
  }

  // A command answered where it arrived.

  lemma AnsweredHerePair(s: Sys, c: nat, conn: nat, args: seq<Bytes>, clock: Clock, shard: Db, reply: Bytes, a: nat, b: nat)
    requires c < |s.cores| && CoreShape(s.cores[c], |s.cores|, c) && a < |s.cores| && b < |s.cores| && PairOk(s, a, b)
    ensures PairOk(AnsweredHere(s, c, conn, args, clock, shard, reply), a, b)
  {
    hide PendingRequests, PendingReplies, Issued, Executed, Replied, Answered, CoreShape;
    var t := AnsweredHere(s, c, conn, args, clock, shard, reply);
    SamePending(s, t, a, b);
    if a == b == c { NoSelfTraffic(s, c); }
    IssuedSnoc(s.issued, Issue(c, conn, args, c), a, b);
    LogSnoc(s.log, Exec(|s.issued|, c, conn, c, args, false, clock, reply), a, b);
    DoneSnoc(s.done, Done(|s.issued|, c, c, conn, reply, true), a, b);
  }

  // A command forwarded to its owner.

  lemma ForwardedPair(s: Sys, c: nat, conn: nat, args: seq<Bytes>, to: nat, a: nat, b: nat)
    requires c < |s.cores| && s.cores[c].pc == Idle && to < |s.cores|
    requires a < |s.cores| && b < |s.cores| && PairOk(s, a, b)
    ensures PairOk(Forwarded(s, c, conn, args, to), a, b)
  {
    hide Issued, Executed, Replied, Answered, Requests, Responses;
    var t, ticket := Forwarded(s, c, conn, args, to), Ticket(|s.issued|, conn, args);
    IssuedSnoc(s.issued, Issue(c, conn, args, to), a, b);
    ForwardedOutgoing(s, c, conn, args, to, a, b);
    assert BatchOf(t.cores[b].pc) == BatchOf(s.cores[b].pc) && t.cores[b].inbox == s.cores[b].inbox;
    assert BatchOf(t.cores[a].pc) == BatchOf(s.cores[a].pc) && t.cores[a].inbox == s.cores[a].inbox;
    assert PendingReplies(t, a, b) == PendingReplies(s, a, b);
    assert PendingRequests(t, a, b) == PendingRequests(s, a, b) + if a == c && b == to then [ticket] else [];
  }

  lemma ForwardedOutgoing(s: Sys, c: nat, conn: nat, args: seq<Bytes>, to: nat, a: nat, b: nat)
    requires c < |s.cores| && s.cores[c].pc == Idle && to < |s.cores| && a < |s.cores| && b < |s.cores|
    ensures var t := Forwarded(s, c, conn, args, to);
            Requests(Outgoing(t.cores[a].pc, b), a) == Requests(Outgoing(s.cores[a].pc, b), a) +
              (if a == c && b == to then [Ticket(|s.issued|, conn, args)] else []) &&
            Responses(Outgoing(t.cores[b].pc, a), b) == Responses(Outgoing(s.cores[b].pc, a), b)
  {
    hide Requests, Responses;
    Singles(Request(|s.issued|, c, conn, args), a);
    Singles(Request(|s.issued|, c, conn, args), b);
  }

  /** Where a command received by core `c` is executed. */
  ghost function Destination(sv: Service, c: nat, args: seq<Bytes>): (to: nat)
    requires ServiceOk(sv) && c < sv.cores
    ensures to < sv.cores
    ensures to != c ==> |args| >= 2 && sv.owner(args[1]) == to
  {
    var d := Decide(sv, false, args);
    if d.Keyed? then sv.owner(d.key) else c
  }

  lemma ReceiveDiff(sv: Service, s: Sys, act: Action)
    requires ServiceOk(sv) && act.Receive? && Enabled(s, act) && |s.cores| == sv.cores
    ensures var c, args := act.core, act.args;
            var to, (shard, reply) := Destination(sv, c, args), Serve(sv, s.cores[c].shard, false, args, act.clock);
            Next(sv, s, act) == if to != c then Forwarded(s, c, act.conn, args, to)
                                else AnsweredHere(s, c, act.conn, args, act.clock, shard, reply)
  {
    hide ServiceOk, Decide, Serve;
  }

  lemma ReceiveShape(sv: Service, s: Sys, act: Action)
    requires ServiceOk(sv) && act.Receive? && Enabled(s, act) && Shaped(sv, s) && Routed(sv, s)
    ensures Shaped(sv, Next(sv, s, act)) && Routed(sv, Next(sv, s, act))
  {
    hide Serve, Destination, Foreign, Decide, Next;
    ReceiveDiff(sv, s, act);
    var c := act.core;
    EmptyForeign(|s.cores|, c);
    assert CoreShape(s.cores[c], |s.cores|, c);
    var t := Next(sv, s, act);
    var to := Destination(sv, c, act.args);
    hide ServiceOk;
    forall i | 0 <= i < |t.cores| ensures CoreShape(t.cores[i], |t.cores|, i) {
      assert CoreShape(s.cores[i], |s.cores|, i);
    }
  }

  lemma ReceiveKeeps(sv: Service, s: Sys, act: Action)
    requires ServiceOk(sv) && act.Receive? && Enabled(s, act) && Traffic(sv, s)
    ensures Traffic(sv, Next(sv, s, act))
  {
    ReceiveShape(sv, s, act);
    hide ServiceOk, PairOk, Next, Decide, Serve, Destination, Forwarded, AnsweredHere, Routed, CoreShape;
    ReceiveDiff(sv, s, act);
    var c := act.core;
    var t, to := Next(sv, s, act), Destination(sv, c, act.args);
    var (shard, reply) := Serve(sv, s.cores[c].shard, false, act.args, act.clock);
    forall a, b | 0 <= a < |t.cores| && 0 <= b < |t.cores| ensures PairOk(t, a, b) {
      if to != c {
        ForwardedPair(s, c, act.conn, act.args, to, a, b);
      } else {
        AnsweredHerePair(s, c, act.conn, act.args, act.clock, shard, reply, a, b);
      }
    }
  }

  lemma EmptyForeign(n: nat, c: nat)
    ensures Foreign([], n, c)
  {
  }

  // ---------------------------------------------------------------- the handler

  /** A request at the head of a batch was issued for this very core. */
  lemma HeadTicket(s: Sys, c: nat)
    requires c < |s.cores| && s.cores[c].pc.Batch? && s.cores[c].pc.rest != []
    requires s.cores[c].pc.rest[0].Request? && s.cores[c].pc.rest[0].origin < |s.cores|
    requires PairOk(s, s.cores[c].pc.rest[0].origin, c)
    ensures var m := s.cores[c].pc.rest[0];
            m.tag < |s.issued| && s.issued[m.tag] == Issue(m.origin, m.conn, m.args, c)
  {
    var m := s.cores[c].pc.rest[0];
    var a, t := m.origin, Ticket(m.tag, m.conn, m.args);
    assert t in Requests(s.cores[c].pc.rest, a);
    hide Requests, Issued, Executed, Replied, Answered, PendingReplies;
    assert t in PendingRequests(s, a, c);
    assert t in Executed(s.log, a, c) + PendingRequests(s, a, c);
    IssuedTickets(s.issued, a, c, t);
  }

  /** Shared nothing: a request in a core's batch is for a key that core owns, so running it there is
      local and it is never forwarded again; its reply is not empty, so it is always sent. */
  lemma NeverForwardedAgain(sv: Service, s: Sys, c: nat, clock: Clock)
    requires ServiceOk(sv) && Traffic(sv, s)
    requires c < |s.cores| && s.cores[c].pc.Batch? && s.cores[c].pc.rest != [] && s.cores[c].pc.rest[0].Request?
    ensures var args := s.cores[c].pc.rest[0].args;
            var d := Decide(sv, true, args);
            (d.Keyed? ==> sv.owner(d.key) == c) && Serve(sv, s.cores[c].shard, true, args, clock).1 != []
  {
    var m := s.cores[c].pc.rest[0];
    assert CoreShape(s.cores[c], |s.cores|, c);
    assert BatchOf(s.cores[c].pc)[0] == m;
    assert PairOk(s, m.origin, c);
    HeadTicket(s, c);
    hide PairOk, CoreShape;
    assert s.issued[m.tag].dest == c && s.issued[m.tag].core != c;
  }

  /** What running a request changes of what is on the way from core `x` to core `y`. */
  lemma ExecutingCores(s: Sys, c: nat, clock: Clock, shard: Db, reply: Bytes, x: nat, y: nat)
    requires c < |s.cores| && s.cores[c].pc.Batch? && s.cores[c].pc.rest != [] && s.cores[c].pc.rest[0].Request?
    requires reply != [] && x < |s.cores| && y < |s.cores|
    ensures var t, rest := Executing(s, c, clock, shard, reply), s.cores[c].pc.rest;
            var m := rest[0];
            && |t.cores| == |s.cores| && t.cores[y].inbox == s.cores[y].inbox
            && BatchOf(s.cores[c].pc) == rest && Outgoing(s.cores[c].pc, y) == []
            && BatchOf(t.cores[y].pc) == (if y == c then rest[1..] else BatchOf(s.cores[y].pc))
            && Outgoing(t.cores[x].pc, y) ==
               (if x != c then Outgoing(s.cores[x].pc, y)
                else if y == m.origin then [Response(m.tag, c, m.conn, reply)] else [])
  {
  }

  lemma ExecutingRequests(s: Sys, c: nat, clock: Clock, shard: Db, reply: Bytes, a: nat, b: nat)
    requires c < |s.cores| && s.cores[c].pc.Batch? && s.cores[c].pc.rest != [] && s.cores[c].pc.rest[0].Request?
    requires reply != [] && a < |s.cores| && b < |s.cores|
    ensures var t, m := Executing(s, c, clock, shard, reply), s.cores[c].pc.rest[0];
            (if m.origin == a && b == c then [Ticket(m.tag, m.conn, m.args)] else []) + PendingRequests(t, a, b)
              == PendingRequests(s, a, b)
  {
    hide Requests, Executing, BatchOf, Outgoing;
    var t, m := Executing(s, c, clock, shard, reply), s.cores[c].pc.rest[0];
    ExecutingCores(s, c, clock, shard, reply, a, b);
    Heads(s.cores[c].pc.rest, a);
    Singles(m, a);
    Singles(Response(m.tag, c, m.conn, reply), a);
    var mine := if m.origin == a && b == c then [Ticket(m.tag, m.conn, m.args)] else [];
    ConcatLeft(mine, Requests(BatchOf(t.cores[b].pc), a), Requests(t.cores[b].inbox, a), Requests(Outgoing(t.cores[a].pc, b), a));
    EmptyLeft(Requests(BatchOf(t.cores[b].pc), a));
  }

  lemma EmptyLeft<T>(x: seq<T>)
    ensures [] + x == x && x + [] == x
  {
  }

  lemma ExecutingReplies(s: Sys, c: nat, clock: Clock, shard: Db, reply: Bytes, a: nat, b: nat)
    requires c < |s.cores| && s.cores[c].pc.Batch? && s.cores[c].pc.rest != [] && s.cores[c].pc.rest[0].Request?
    requires reply != [] && a < |s.cores| && b < |s.cores|
    ensures var t, m := Executing(s, c, clock, shard, reply), s.cores[c].pc.rest[0];
            PendingReplies(t, a, b) ==
              PendingReplies(s, a, b) + if m.origin == a && b == c then [Receipt(m.tag, m.conn, reply)] else []
  {
    hide Responses, Executing, BatchOf, Outgoing;
    var t, m := Executing(s, c, clock, shard, reply), s.cores[c].pc.rest[0];
    ExecutingCores(s, c, clock, shard, reply, b, a);
    Heads(s.cores[c].pc.rest, b);
    Singles(m, b);
    Singles(Response(m.tag, c, m.conn, reply), b);
    var mine := if m.origin == a && b == c then [Receipt(m.tag, m.conn, reply)] else [];
    EmptyLeft(Responses(s.cores[c].pc.rest[1..], b));
    EmptyLeft(Responses(Outgoing(s.cores[b].pc, a), b));
    EmptyLeft(mine);
    assert Responses(Outgoing(t.cores[b].pc, a), b) == Responses(Outgoing(s.cores[b].pc, a), b) + mine;
    ConcatRight(Responses(BatchOf(s.cores[a].pc), b), Responses(s.cores[a].inbox, b), Responses(Outgoing(s.cores[b].pc, a), b), mine);
  }

  lemma ExecutingPair(s: Sys, c: nat, clock: Clock, shard: Db, reply: Bytes, a: nat, b: nat)
    requires c < |s.cores| && s.cores[c].pc.Batch? && s.cores[c].pc.rest != [] && s.cores[c].pc.rest[0].Request?
    requires reply != [] && a < |s.cores| && b < |s.cores| && PairOk(s, a, b)
    ensures PairOk(Executing(s, c, clock, shard, reply), a, b)
  {
    hide PendingRequests, PendingReplies, Issued, Executed, Replied, Answered;
    var t, m := Executing(s, c, clock, shard, reply), s.cores[c].pc.rest[0];
    ExecutingRequests(s, c, clock, shard, reply, a, b);
    ExecutingReplies(s, c, clock, shard, reply, a, b);
    LogSnoc(s.log, Exec(m.tag, m.origin, m.conn, c, m.args, true, clock, reply), a, b);
  }

  /** What delivering a response changes of what is on the way from core `x` to core `y`. */
  lemma DeliveringCores(s: Sys, c: nat, x: nat, y: nat)
    requires c < |s.cores| && s.cores[c].pc.Batch? && s.cores[c].pc.rest != [] && s.cores[c].pc.rest[0].Response?
    requires x < |s.cores| && y < |s.cores|
    ensures var t, rest := Delivering(s, c), s.cores[c].pc.rest;
            && |t.cores| == |s.cores| && t.cores[y].inbox == s.cores[y].inbox && BatchOf(s.cores[c].pc) == rest
            && BatchOf(t.cores[y].pc) == (if y == c then rest[1..] else BatchOf(s.cores[y].pc))
            && Outgoing(t.cores[x].pc, y) == Outgoing(s.cores[x].pc, y)
  {
  }

  lemma DeliveringPending(s: Sys, c: nat, a: nat, b: nat)
    requires c < |s.cores| && s.cores[c].pc.Batch? && s.cores[c].pc.rest != [] && s.cores[c].pc.rest[0].Response?
    requires a < |s.cores| && b < |s.cores|
    ensures var t, m := Delivering(s, c), s.cores[c].pc.rest[0];
            PendingRequests(t, a, b) == PendingRequests(s, a, b) &&
            (if a == c && m.origin == b then [Receipt(m.tag, m.conn, m.payload)] else []) + PendingReplies(t, a, b)
              == PendingReplies(s, a, b)
  {
    hide Requests, Responses, Delivering, BatchOf, Outgoing;
    var t, m := Delivering(s, c), s.cores[c].pc.rest[0];
    DeliveringCores(s, c, a, b);
    DeliveringCores(s, c, b, a);
    Heads(s.cores[c].pc.rest, a);
    Heads(s.cores[c].pc.rest, b);
    Singles(m, a);
    Singles(m, b);
    EmptyLeft(Requests(s.cores[c].pc.rest[1..], a));
    EmptyLeft(Responses(BatchOf(t.cores[a].pc), b));
    var mine := if a == c && m.origin == b then [Receipt(m.tag, m.conn, m.payload)] else [];
    ConcatLeft(mine, Responses(BatchOf(t.cores[a].pc), b), Responses(t.cores[a].inbox, b), Responses(Outgoing(t.cores[b].pc, a), b));
  }

  lemma DeliveringPair(s: Sys, c: nat, a: nat, b: nat)
    requires c < |s.cores| && s.cores[c].pc.Batch? && s.cores[c].pc.rest != [] && s.cores[c].pc.rest[0].Response?
    requires a < |s.cores| && b < |s.cores| && PairOk(s, a, b)
    ensures PairOk(Delivering(s, c), a, b)
  {
    hide PendingRequests, PendingReplies, Issued, Executed, Replied, Answered;
    var t, m := Delivering(s, c), s.cores[c].pc.rest[0];
    DeliveringPending(s, c, a, b);
    DoneSnoc(s.done, Done(m.tag, c, m.origin, m.conn, m.payload, m.conn in s.cores[c].conns), a, b);
  }

  /** What the handler does, given the invariant. */
  lemma HandleDiff(sv: Service, s: Sys, act: Action)
    requires ServiceOk(sv) && act.Handle? && Enabled(s, act) && Traffic(sv, s)
    ensures var c, m := act.core, s.cores[act.core].pc.rest[0];
            Next(sv, s, act) ==
              if m.Request? then
                var (shard, reply) := Serve(sv, s.cores[c].shard, true, m.args, act.clock);
                Executing(s, c, act.clock, shard, reply)
              else Delivering(s, c)
  {
    hide Traffic;
    var m := s.cores[act.core].pc.rest[0];
    if m.Request? {
      NeverForwardedAgain(sv, s, act.core, act.clock);
    }
    hide ServiceOk, Decide, Serve;
  }

  lemma HandleShape(sv: Service, s: Sys, act: Action)
    requires ServiceOk(sv) && act.Handle? && Enabled(s, act) && Traffic(sv, s)
    ensures Shaped(sv, Next(sv, s, act)) && Routed(sv, Next(sv, s, act))
  {
    hide ServiceOk, PairOk, Next, Decide, Serve, Pipelined;
    HandleDiff(sv, s, act);
    var c, m := act.core, s.cores[act.core].pc.rest[0];
    var t := Next(sv, s, act);
    assert CoreShape(s.cores[c], |s.cores|, c) && BatchOf(s.cores[c].pc)[0] == m;
    forall i | 0 <= i < |t.cores| ensures CoreShape(t.cores[i], |t.cores|, i) {
      assert CoreShape(s.cores[i], |s.cores|, i);
    }
  }

  lemma HandleKeeps(sv: Service, s: Sys, act: Action)
    requires ServiceOk(sv) && act.Handle? && Enabled(s, act) && Traffic(sv, s)
    ensures Traffic(sv, Next(sv, s, act))
  {
    HandleShape(sv, s, act);
    HandleDiff(sv, s, act);
    hide ServiceOk, PairOk, Next, Decide, Serve, Executing, Delivering, Routed, CoreShape;
    var c, m := act.core, s.cores[act.core].pc.rest[0];
    var t := Next(sv, s, act);
    if m.Request? { NeverForwardedAgain(sv, s, c, act.clock); }
    forall a, b | 0 <= a < |t.cores| && 0 <= b < |t.cores| ensures PairOk(t, a, b) {
      if m.Request? {
        var (shard, reply) := Serve(sv, s.cores[c].shard, true, m.args, act.clock);
        ExecutingPair(s, c, act.clock, shard, reply, a, b);
      } else {
        DeliveringPair(s, c, a, b);
      }
    }
  }

  /** Every step keeps the traffic invariant. */
  lemma TrafficStep(sv: Service, s: Sys, act: Action)
    requires ServiceOk(sv) && Enabled(s, act) && Traffic(sv, s)
    ensures Traffic(sv, Next(sv, s, act))
  {
    hide ServiceOk, Enabled, Next, Traffic;
    if Silent(act) {
      SilentKeeps(sv, s, act);
    } else if act.Receive? {
      ReceiveKeeps(sv, s, act);
    } else if act.Push? {
      PushKeeps(sv, s, act.core);
    } else if act.Swap? {
      SwapKeeps(sv, s, act.core);
    } else {
      HandleKeeps(sv, s, act);
    }
  }

  lemma TrafficInit(sv: Service, db: Db, s: Sys)
    requires Init(sv, db, s)
    ensures Traffic(sv, s)
  {
  }
}
