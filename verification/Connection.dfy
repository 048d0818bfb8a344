/** A connection's write queue and its read handler (`src/network/connection.cpp`). */
module Connection {
  import opened Bytes
  import RespParser

  // ---------------------------------------------------------------- the write queue

  /** `outstanding` is what the kernel was asked to write and has not completed; `completed` is the
      history of completions, each with the number of bytes the kernel took. */
  datatype Writer = Writer(queue: seq<Bytes>, isWriting: bool, outstanding: seq<Bytes>, completed: seq<(Bytes, nat)>)

  const NEW_WRITER := Writer([], false, [], [])

  datatype Event = Submit(data: Bytes) | Complete(taken: nat)

  /** A completion is of an outstanding write, and takes at most all of it. */
  predicate CanHappen(w: Writer, e: Event) {
    e.Complete? ==> w.outstanding != [] && e.taken <= |w.outstanding[0]|
  }

  function Step(w: Writer, e: Event): Writer
    requires CanHappen(w, e)
  {
    match e
    case Submit(data) =>
      var queue := w.queue + [data];
      if w.isWriting then w.(queue := queue)
      else w.(queue := queue, isWriting := true, outstanding := w.outstanding + [queue[0]])
    case Complete(taken) =>
      var queue := if w.queue == [] then [] else w.queue[1..];
      var rest, completed := w.outstanding[1..], w.completed + [(w.outstanding[0], taken)];
      if queue != [] then Writer(queue, w.isWriting, rest + [queue[0]], completed)
      else Writer(queue, false, rest, completed)
  }

  /** What the kernel was given, of each completed write. */
  function Sent(completed: seq<(Bytes, nat)>): Bytes {
    if completed == [] then []
    else
      var (data, taken) := completed[|completed| - 1];
      Sent(completed[..|completed| - 1]) + if taken <= |data| then data[..taken] else data
  }

  function Items(completed: seq<(Bytes, nat)>): seq<Bytes> {
    seq(|completed|, i requires 0 <= i < |completed| => completed[i].0)
  }

  ghost predicate FullWrites(completed: seq<(Bytes, nat)>) {
    forall i :: 0 <= i < |completed| ==> completed[i].1 == |completed[i].0|
  }

  ghost predicate Possible(completed: seq<(Bytes, nat)>) {
    forall i :: 0 <= i < |completed| ==> completed[i].1 <= |completed[i].0|
  }

  // ---------------------------------------------------------------- every run

  /** The writer after some events, if each of them could happen when it did. */
  function After(events: seq<Event>): Option<Writer> {
    if events == [] then Some(NEW_WRITER)
    else
      var w, e := After(events[..|events| - 1]), events[|events| - 1];
      if w.Some? && CanHappen(w.value, e) then Some(Step(w.value, e)) else None
  }

  function Submitted(events: seq<Event>): seq<Bytes> {
    if events == [] then []
    else Submitted(events[..|events| - 1]) + match events[|events| - 1] case Submit(data) => [data] case Complete(_) => []
  }

  /** A write is outstanding exactly while the queue is non-empty, and it is of the queue's head. */
  ghost predicate Disciplined(w: Writer) {
    && (w.isWriting <==> w.queue != [])
    && w.outstanding == (if w.isWriting then [w.queue[0]] else [])
    && Possible(w.completed)
  }

  lemma StepDisciplined(w: Writer, e: Event)
    requires Disciplined(w) && CanHappen(w, e)
    ensures Disciplined(Step(w, e))
    ensures Items(Step(w, e).completed) + Step(w, e).queue ==
            Items(w.completed) + w.queue + match e case Submit(data) => [data] case Complete(_) => []
  {
    if e.Complete? {
      assert Items(Step(w, e).completed) == Items(w.completed) + [w.queue[0]];
    }
  }

  /** In every run: at most one write is outstanding, it is of the queue's head, and what was
      submitted is what has completed, in order, followed by the queue. */
  lemma {:induction false} WriteQueue(events: seq<Event>, w: Writer)
    requires After(events) == Some(w)
    ensures Disciplined(w)
    ensures Items(w.completed) + w.queue == Submitted(events)
  {
    if events != [] {
      var front, e := events[..|events| - 1], events[|events| - 1];
      var v := After(front).value;
      WriteQueue(front, v);
      StepDisciplined(v, e);
      assert Submitted(events) == Submitted(front) + match e case Submit(data) => [data] case Complete(_) => [];
    }
  }

  lemma {:induction false} FlattenConcat(a: seq<Bytes>, b: seq<Bytes>)
    ensures Flatten(a + b) == Flatten(a) + Flatten(b)
  {
    if a == [] {
      assert a + b == b;
    } else {
      assert (a + b)[1..] == a[1..] + b;
      FlattenConcat(a[1..], b);
    }
  }

  lemma {:induction false} SentSize(completed: seq<(Bytes, nat)>)
    requires Possible(completed)
    ensures |Sent(completed)| <= |Flatten(Items(completed))|
    ensures FullWrites(completed) ==> Sent(completed) == Flatten(Items(completed))
    ensures !FullWrites(completed) ==> |Sent(completed)| < |Flatten(Items(completed))|
  {
    if completed != [] {
      var n := |completed| - 1;
      SentSize(completed[..n]);
      assert Items(completed) == Items(completed[..n]) + [completed[n].0];
      FlattenConcat(Items(completed[..n]), [completed[n].0]);
      assert Flatten([completed[n].0]) == completed[n].0 + Flatten([completed[n].0][1..]);
      assert FullWrites(completed) <==> FullWrites(completed[..n]) && completed[n].1 == |completed[n].0|;
    }
  }

  /** In every run: the bytes written, followed by those queued, are the bytes submitted, exactly
      when every completed write was a full one. A short write is never resumed. */
  lemma WrittenInOrder(events: seq<Event>, w: Writer)
    requires After(events) == Some(w)
    ensures Sent(w.completed) + Flatten(w.queue) == Flatten(Submitted(events)) <==> FullWrites(w.completed)
    ensures FullWrites(w.completed) ==> Sent(w.completed) <= Flatten(Submitted(events))
  {
    hide Sent, Flatten, FullWrites, Submitted, Items;
    WriteQueue(events, w);
    SentSize(w.completed);
    FlattenConcat(Items(w.completed), w.queue);
    assert |Flatten(Items(w.completed)) + Flatten(w.queue)| == |Flatten(Items(w.completed))| + |Flatten(w.queue)|;
    assert |Sent(w.completed) + Flatten(w.queue)| == |Sent(w.completed)| + |Flatten(w.queue)|;
  }

  /** With full writes, an empty queue means that everything submitted was written. */
  lemma Drained(events: seq<Event>, w: Writer)
    requires After(events) == Some(w) && w.queue == []
    ensures Sent(w.completed) == Flatten(Submitted(events)) <==> FullWrites(w.completed)
  {
    WrittenInOrder(events, w);
    assert Sent(w.completed) + Flatten(w.queue) == Sent(w.completed);
  }

  /** Two replies, the first written short: the client sees the second in the middle of the first. */
  lemma ShortWriteLosesBytes()
    ensures var w := After([Submit(Ascii("+OK")), Submit(Ascii(":1")), Complete(1), Complete(2)]);
            w.Some? && Sent(w.value.completed) == Ascii("+:1") && w.value.queue == []
  {
    hide After;
    var a, b := Ascii("+OK"), Ascii(":1");
    var w1, w2 := Writer([a], true, [a], []), Writer([a, b], true, [a], []);
    var w3, w4 := Writer([b], true, [b], [(a, 1)]), Writer([], false, [], [(a, 1), (b, 2)]);
    AfterNext([], NEW_WRITER, Submit(a), [Submit(a)], w1);
    AfterNext([Submit(a)], w1, Submit(b), [Submit(a), Submit(b)], w2);
    AfterNext([Submit(a), Submit(b)], w2, Complete(1), [Submit(a), Submit(b), Complete(1)], w3);
    AfterNext([Submit(a), Submit(b), Complete(1)], w3, Complete(2), [Submit(a), Submit(b), Complete(1), Complete(2)], w4);
    assert w4.completed[..1] == [(a, 1)];
    assert Sent([(a, 1)]) == a[..1];
    assert Sent(w4.completed) == a[..1] + b;
  }

  lemma AfterNext(events: seq<Event>, w: Writer, e: Event, more: seq<Event>, next: Writer)
    requires if events == [] then w == NEW_WRITER else After(events) == Some(w)
    requires CanHappen(w, e) && more == events + [e]
    requires var n := Step(w, e);
             n.queue == next.queue && n.isWriting == next.isWriting &&
             n.outstanding == next.outstanding && n.completed == next.completed
    ensures After(more) == Some(next)
  {
    assert more[..|more| - 1] == events;
  }

  // ---------------------------------------------------------------- the class

  class Connection {
    const parser: RespParser.RespParser
    var queue: seq<Bytes>
    var isWriting: bool
    ghost var outstanding: seq<Bytes>
    ghost var completed: seq<(Bytes, nat)>

    ghost function Value(): Writer
      reads this
    {
      Writer(queue, isWriting, outstanding, completed)
    }

    constructor ()
      ensures Value() == NEW_WRITER && Disciplined(Value()) && fresh(parser) && parser.Value() == RespParser.FRESH
    {
      parser := new RespParser.RespParser();
      queue, isWriting, outstanding, completed := [], false, [], [];
    }

    /** `write` is what the kernel is asked for, if anything. */
    method SubmitWrite(data: Bytes) returns (write: Option<Bytes>)
      requires Disciplined(Value())
      modifies this
      ensures Value() == Step(old(Value()), Submit(data)) && Disciplined(Value())
      ensures outstanding == old(outstanding) + if write.Some? then [write.value] else []
    {
      StepDisciplined(Value(), Submit(data));
      queue := queue + [data];
      if isWriting { return None; }
      isWriting := true;
      outstanding := outstanding + [queue[0]];
      return Some(queue[0]);
    }

    method HandleWrite(taken: nat) returns (write: Option<Bytes>)
      requires Disciplined(Value()) && CanHappen(Value(), Complete(taken))
      modifies this
      ensures Value() == Step(old(Value()), Complete(taken)) && Disciplined(Value())
      ensures outstanding == if write.Some? then [write.value] else []
    {
      StepDisciplined(Value(), Complete(taken));
      completed := completed + [(outstanding[0], taken)];
      outstanding := outstanding[1..];
      if queue != [] { queue := queue[1..]; }
      if queue == [] {
        isWriting := false;
        return None;
      }
      outstanding := outstanding + [queue[0]];
      return Some(queue[0]);
    }

    /** `handle_data`: the response to one read, empty while a command is incomplete. `consumed` is
        not looked at, so bytes after a command are dropped (`ReadTheorems.SessionInOrder`). */
    method HandleData(execute: seq<Bytes> -> Bytes, data: Bytes) returns (response: Option<Bytes>)
      requires RespParser.WellFormed(parser.Value())
      modifies parser
      ensures var r := old(RespParser.Parse(parser.Value(), data));
              match r.result
              case Partial => response == Some([]) && parser.Value() == r.parser
              case Complete => response == Some(execute(r.parser.args)) && parser.Value() == RespParser.FRESH
              case Error => response == Some(Ascii("-ERR Protocol Error") + CRLF) && parser.Value() == RespParser.FRESH
              case Thrown => response == None
    {
      var result, consumed := parser.Consume(data, 0);
      match result {
        case Complete =>
          response := Some(execute(parser.args));
          parser.Reset();
        case Error =>
          response := Some(Ascii("-ERR Protocol Error") + CRLF);
          parser.Reset();
        case Partial => response := Some([]);
        case Thrown => response := None;
      }
    }
  }
}
