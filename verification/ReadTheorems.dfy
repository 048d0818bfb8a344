/** Commands that arrive in pieces, for `Connection::handle_data`, which looks only at its own read. */
module ReadTheorems {
  import opened Bytes
  import opened RespParser
  import opened ParserTheorems
  import opened ChunkTheorems

  /** `Connection::handle_data` on successive reads up to the first verdict: `consumed` is dropped,
      so each call sees only its own chunk. */
  function HandleReads(p: Parser, chunks: seq<Bytes>): (Parser, Result)
    requires WellFormed(p)
    decreases |chunks|
  {
    if chunks == [] then (p, Partial)
    else
      var r := Parse(p, chunks[0]);
      if r.result != Partial then (r.parser, r.result) else HandleReads(r.parser, chunks[1..])
  }

  ghost predicate FullyConsumed(p: Parser, chunks: seq<Bytes>)
    requires WellFormed(p)
    decreases |chunks|
  {
    chunks != [] ==>
      var r := Parse(p, chunks[0]);
      r.result == Partial ==> r.Consumed(0) == |chunks[0]| && FullyConsumed(r.parser, chunks[1..])
  }

  /** Reads that are consumed to their last byte are parsed as if they had been one read. */
  lemma {:induction false} HandleReadsIndependence(p: Parser, chunks: seq<Bytes>)
    requires WellFormed(p) && FullyConsumed(p, chunks)
    ensures var r := Parse(p, Flatten(chunks)); HandleReads(p, chunks) == (r.parser, r.result)
    decreases |chunks|
  {
    if chunks != [] {
      hide Parse;
      var a, rest := chunks[0], Flatten(chunks[1..]);
      var r := Parse(p, a);
      if r.result == Partial {
        ParseResume(p, a, rest);
        ConsumedAllIsBoundary(p, a);
        assert a[|a|..] + rest == rest;
        HandleReadsIndependence(r.parser, chunks[1..]);
      } else {
        ParseExtend(p, a, rest);
      }
    }
  }

  lemma ConsumedAllIsBoundary(p: Parser, s: Bytes)
    requires WellFormed(p) && Parse(p, s).result == Partial && Parse(p, s).Consumed(0) == |s|
    ensures Parse(p, s).boundary == |s|
  {
  }

  // ---------------------------------------------------------------- bytes a command takes

  /** The bytes a client needs to bring a parser to `p`. */
  ghost function Built(p: Parser): nat {
    match p.state
    case WaitType => 0
    case WaitSize => 1
    case WaitArgSize => Headed(p)
    case WaitArgData => Headed(p) + |DecInt(p.argLen)| + 3 + |p.arg|
    case WaitCRLF => Headed(p) + |Dec(|p.arg|)| + 3 + |p.arg|
  }

  ghost function Headed(p: Parser): nat {
    |DecInt(p.expected)| + 3 + |Bulks(p.args)|
  }

  /** `std::stoi` never reads a number from fewer digits than it prints with. */
  lemma {:induction false} DigitsPrintShorter(ds: Bytes)
    requires ds != [] && forall i :: 0 <= i < |ds| ==> IsDigit(ds[i])
    ensures |Dec(DigitsValue(ds))| <= |ds|
  {
    var front := ds[..|ds| - 1];
    assert IsDigit(ds[|ds| - 1]);
    if front != [] { DigitsPrintShorter(front); }
  }

  lemma {:induction false} SkipSpaceShorter(s: Bytes)
    ensures |SkipSpace(s)| <= |s|
  {
    if s != [] && IsSpace(s[0]) { SkipSpaceShorter(s[1..]); }
  }

  lemma NumberPrintsShorter(s: Bytes)
    requires Stoi(s).Some? && Stoi(s).value >= 0
    ensures |DecInt(Stoi(s).value)| <= |s|
  {
    hide Dec;
    SkipSpaceShorter(s);
    var t := SkipSpace(s);
    var u := if t[0] == 43 || t[0] == 45 then t[1..] else t;
    DigitsPrintShorter(u[..DigitRun(u)]);
  }

  lemma HeaderBytes(s: Bytes)
    requires ReadHeader(s).Sized? && ReadHeader(s).size >= 0
    ensures |DecInt(ReadHeader(s).size)| + 2 <= ReadHeader(s).used
  {
    hide Stoi, DecInt;
    NumberPrintsShorter(s[..FirstCR(s)]);
  }

  /** Each step takes at least the bytes by which it moves the parser. */
  lemma BuiltStep(p: Parser, s: Bytes)
    requires WellFormed(p) && Fits(p) && s != []
    ensures var o := Step(p, s);
            && (o.Continue? || o.result == Partial ==> Built(o.parser) <= Built(p) + o.used)
            && (o.Stop? && o.result == Complete ==> |Encode(o.parser.args)| <= Built(p) + o.used)
  {
    hide ReadHeader, DecInt, Dec, Bulk;
    match p.state
    case WaitType =>
    case WaitSize =>
      if ReadHeader(s).Sized? && ReadHeader(s).size >= 0 { HeaderBytes(s); }
    case WaitArgSize =>
      if ReadHeader(s[1..]).Sized? && ReadHeader(s[1..]).size >= 0 { HeaderBytes(s[1..]); }
    case WaitArgData =>
      NatPrints(|Step(p, s).parser.arg|);
    case WaitCRLF =>
      BulksSize(p.args, p.arg);
      NatPrints(|p.args| + 1);
  }

  lemma NatPrints(n: nat)
    ensures DecInt(n) == Dec(n)
  {
  }

  lemma BulksSize(xs: seq<Bytes>, x: Bytes)
    ensures |Bulks(xs + [x])| == |Bulks(xs)| + |Dec(|x|)| + |x| + 5
  {
    hide Dec;
    BulksConcat(xs, [x]);
    assert Bulks([x]) == Bulk(x) + Bulks([x][1..]);
  }

  lemma {:induction false} BuiltParse(p: Parser, s: Bytes)
    requires WellFormed(p) && Fits(p)
    ensures var r := Parse(p, s);
            && (r.result == Partial ==> Fits(r.parser) && Built(r.parser) <= Built(p) + r.boundary)
            && (r.result == Complete ==> |Encode(r.parser.args)| <= Built(p) + r.boundary)
    decreases |s|, if p.state == WaitArgData then 1 else 0
  {
    hide Step, Fits, Built, Encode;
    if s != [] {
      BuiltStep(p, s);
      FitsStep(p, s);
      var o := Step(p, s);
      if o.Continue? { BuiltParse(o.parser, s[o.used..]); }
    }
  }

  /** Whatever the reads, a command is recognised only from as many bytes as it is sent with. */
  lemma {:induction false} ReadsTakeBytes(p: Parser, chunks: seq<Bytes>)
    requires WellFormed(p) && Fits(p)
    ensures var (q, result) := HandleReads(p, chunks);
            result == Complete ==> |Encode(q.args)| <= Built(p) + |Flatten(chunks)|
    decreases |chunks|
  {
    hide Parse, Fits, Built, Encode;
    if chunks != [] {
      BuiltParse(p, chunks[0]);
      var r := Parse(p, chunks[0]);
      if r.result == Partial { ReadsTakeBytes(r.parser, chunks[1..]); }
    }
  }

  // ---------------------------------------------------------------- one command, any reads

  /** No cut of the reads, which start at offset `at` of the command, tears anything. */
  ghost predicate Untorn(args: seq<Bytes>, at: nat, chunks: seq<Bytes>)
    decreases |chunks|
  {
    chunks != [] ==>
      var next := at + |chunks[0]|;
      (next < |Encode(args)| ==> !Tears(args, next)) && Untorn(args, next, chunks[1..])
  }

  lemma {:induction false} NothingLeftToTear(args: seq<Bytes>, at: nat, chunks: seq<Bytes>)
    requires at >= |Encode(args)|
    ensures Untorn(args, at, chunks)
    decreases |chunks|
  {
    if chunks != [] { NothingLeftToTear(args, at + |chunks[0]|, chunks[1..]); }
  }

  /** A read that ends a command whose part before `at` was accounted for. */
  lemma LastRead(args: seq<Bytes>, at: nat, read: Bytes, tail: Bytes)
    requires Encodable(args) && at < |Encode(args)| && Parse(FRESH, Encode(args)[..at]).boundary == at
    requires read <= Encode(args)[at..] + tail && |Encode(args)| <= at + |read|
    ensures var r := Parse(Parse(FRESH, Encode(args)[..at]).parser, read); Recognised(args, r.parser, r.result)
  {
    hide Parse, Encode, Rest, OnTrack, Tears, SplitsHeader;
    CutVerdict(args, at);
    ParseOnTrack(Parse(FRESH, Encode(args)[..at]).parser, args, tail, read);
  }

  /** A read that does not end it leaves the parser where the parts read together would. */
  lemma NextRead(args: seq<Bytes>, at: nat, next: nat)
    requires Encodable(args) && at <= next < |Encode(args)| && Parse(FRESH, Encode(args)[..at]).boundary == at
    ensures var e := Encode(args);
            var r, q := Parse(Parse(FRESH, e[..at]).parser, e[at..next]), Parse(FRESH, e[..next]);
            r.result == Partial && r.parser == q.parser && Built(q.parser) <= q.boundary && Fits(q.parser) &&
            q.boundary <= next && (q.boundary < next <==> Tears(args, next))
  {
    hide Parse, Encode, Rest, OnTrack, Tears, SplitsHeader, Built, Fits;
    var e := Encode(args);
    CutVerdict(args, at);
    CutVerdict(args, next);
    ReadOf(e, at, next);
    ParseResume(FRESH, e[..at], e[at..next]);
    BuiltFresh();
    BuiltParse(FRESH, e[..next]);
  }

  lemma BuiltFresh()
    ensures Built(FRESH) == 0 && Fits(FRESH)
  {
  }

  lemma ReadOf(e: Bytes, at: nat, next: nat)
    requires at <= next <= |e|
    ensures e[..at][at..] + e[at..next] == e[at..next] && e[..at] + e[at..next] == e[..next]
  {
    assert e[..at][at..] == [];
  }

  lemma {:induction false} ReadsFrom(args: seq<Bytes>, at: nat, chunks: seq<Bytes>)
    requires Encodable(args) && at < |Encode(args)| && Flatten(chunks) == Encode(args)[at..]
    requires Parse(FRESH, Encode(args)[..at]).boundary == at
    ensures var (p, result) := HandleReads(Parse(FRESH, Encode(args)[..at]).parser, chunks);
            Recognised(args, p, result) <==> Untorn(args, at, chunks)
    decreases |chunks|
  {
    hide Parse, Encode, Tears, Flatten, Built, Fits;
    var e := Encode(args);
    ChunksLeft(e, at, chunks);
    var next := at + |chunks[0]|;
    if next == |e| {
      assert chunks[0] == e[at..] == e[at..] + [];
      LastRead(args, at, chunks[0], []);
      NothingLeftToTear(args, next, chunks[1..]);
    } else {
      NextRead(args, at, next);
      if Tears(args, next) {
        ReadsTakeBytes(Parse(FRESH, e[..next]).parser, chunks[1..]);
      } else {
        ReadsFrom(args, next, chunks[1..]);
      }
    }
  }

  /** `handle_data` recognises a command that arrives in any number of reads exactly when no cut
      tears it: none inside a size header, nor between an argument's CR and LF. */
  lemma HandledInReads(args: seq<Bytes>, chunks: seq<Bytes>)
    requires Encodable(args) && Flatten(chunks) == Encode(args)
    ensures var (p, result) := HandleReads(FRESH, chunks);
            Recognised(args, p, result) <==> Untorn(args, 0, chunks)
  {
    hide Encode, HandleReads, Untorn;
    var e := Encode(args);
    assert |e| > 0 by { FreshOnTrack(args); RestNonEmpty(FRESH, args); }
    assert e[0..] == e && e[..0] == [];
    ReadsFrom(args, 0, chunks);
  }

  /** In particular, in two reads. */
  lemma HandledInTwo(args: seq<Bytes>, cut: nat)
    requires Encodable(args) && cut < |Encode(args)|
    ensures var e := Encode(args);
            var (p, result) := HandleReads(FRESH, [e[..cut], e[cut..]]);
            Recognised(args, p, result) <==> !Tears(args, cut)
  {
    hide Encode, HandleReads, Tears;
    var e := Encode(args);
    var a, b := e[..cut], e[cut..];
    InTwo(e, cut);
    HandledInReads(args, [a, b]);
    assert [a, b][1..] == [b] && [b][1..] == [];
    assert Untorn(args, cut, [b]);
  }

  /** PING cut after its third byte is lost to a re-presenting driver too; cut after its second, to
      `handle_data`. */
  lemma PingTorn()
    ensures var args := [Ascii("PING")];
            var e := Encode(args);
            && |e| > 3
            && (var r := Represent(FRESH, [], [e[..3], e[3..]]); !Recognised(args, r.parser, r.result) || r.boundary != |e|)
            && (var (p, result) := HandleReads(FRESH, [e[..2], e[2..]]); !Recognised(args, p, result))
  {
    hide Represent, HandleReads, Bulks;
    var args := [Ascii("PING")];
    assert |Dec(1)| == 1 && |args[0]| == 4;
    assert |Encode(args)| > 3;
    assert SplitsHeader(args, 3) && Tears(args, 2);
    hide Encode;
    RepresentedInTwo(args, 3);
    HandledInTwo(args, 2);
  }

  // ---------------------------------------------------------------- a session

  /** `handle_data` over a whole connection: the commands it executes, and `None` for each protocol
      error. An exception ends it. */
  function Session(p: Parser, chunks: seq<Bytes>): seq<Option<seq<Bytes>>>
    requires WellFormed(p)
    decreases |chunks|
  {
    if chunks == [] then []
    else
      var r := Parse(p, chunks[0]);
      match r.result
      case Partial => Session(r.parser, chunks[1..])
      case Complete => [Some(r.parser.args)] + Session(FRESH, chunks[1..])
      case Error => [None] + Session(FRESH, chunks[1..])
      case Thrown => []
  }

  /** The commands a client sends, one after the other. */
  function Stream(commands: seq<seq<Bytes>>): Bytes {
    if commands == [] then [] else Encode(commands[0]) + Stream(commands[1..])
  }

  function Executed(commands: seq<seq<Bytes>>): seq<Option<seq<Bytes>>> {
    if commands == [] then [] else [Some(commands[0])] + Executed(commands[1..])
  }

  /** The bytes the executed commands are sent with. */
  ghost function Weight(session: seq<Option<seq<Bytes>>>): nat {
    if session == [] then 0
    else (if session[0].Some? then |Encode(session[0].value)| else 0) + Weight(session[1..])
  }

  lemma {:induction false} ExecutedWeight(commands: seq<seq<Bytes>>)
    ensures Weight(Executed(commands)) == |Stream(commands)|
  {
    hide Encode;
    if commands != [] {
      ExecutedWeight(commands[1..]);
      assert Executed(commands)[1..] == Executed(commands[1..]);
    }
  }

  /** Whatever the reads, commands are executed only from as many bytes as they are sent with. */
  lemma {:induction false} SessionTakesBytes(p: Parser, chunks: seq<Bytes>)
    requires WellFormed(p) && Fits(p)
    ensures Weight(Session(p, chunks)) <= Built(p) + |Flatten(chunks)|
    decreases |chunks|
  {
    hide Parse, Fits, Built, Encode;
    if chunks != [] {
      BuiltFresh();
      BuiltParse(p, chunks[0]);
      var r := Parse(p, chunks[0]);
      if r.result == Partial {
        SessionTakesBytes(r.parser, chunks[1..]);
      } else if r.result != Thrown {
        SessionTakesBytes(FRESH, chunks[1..]);
        assert Session(p, chunks)[1..] == Session(FRESH, chunks[1..]);
      }
    }
  }

  /** From offset `at` of the first command on, no cut tears a command, and every command ends a
      read. */
  ghost predicate Orderly(commands: seq<seq<Bytes>>, at: nat, chunks: seq<Bytes>)
    decreases |chunks|
  {
    chunks != [] && commands != [] ==>
      var next, size := at + |chunks[0]|, |Encode(commands[0])|;
      && next <= size
      && (next < size ==> !Tears(commands[0], next) && Orderly(commands, next, chunks[1..]))
      && (next == size ==> Orderly(commands[1..], 0, chunks[1..]))
  }

  lemma {:induction false} QuietSession(chunks: seq<Bytes>)
    requires Flatten(chunks) == []
    ensures Session(FRESH, chunks) == []
  {
    if chunks != [] { QuietSession(chunks[1..]); }
  }

  /** The session at a cut: the first command's part before `at` was accounted for. */
  lemma {:induction false} SessionFrom(commands: seq<seq<Bytes>>, at: nat, chunks: seq<Bytes>)
    requires commands != [] && (forall c :: c in commands ==> Encodable(c)) && at < |Encode(commands[0])|
    requires Flatten(chunks) == Encode(commands[0])[at..] + Stream(commands[1..])
    requires Parse(FRESH, Encode(commands[0])[..at]).boundary == at
    ensures Session(Parse(FRESH, Encode(commands[0])[..at]).parser, chunks) == Executed(commands) <==>
            Orderly(commands, at, chunks)
    decreases |chunks|, 0
  {
    hide Parse, Encode, Tears, Built, Fits;
    var args, later, e := commands[0], commands[1..], Encode(commands[0]);
    var p := Parse(FRESH, e[..at]).parser;
    var chunk, rest, next := chunks[0], Flatten(chunks[1..]), at + |chunks[0]|;
    assert Flatten(chunks) == chunk + rest;
    ExecutedWeight(commands);
    if next < |e| {
      ReadWithin(e, at, chunk, rest, Stream(later));
      NextRead(args, at, next);
      if Tears(args, next) {
        SessionTakesBytes(Parse(FRESH, e[..next]).parser, chunks[1..]);
      } else {
        SessionFrom(commands, next, chunks[1..]);
      }
    } else {
      LastReadOf(e, at, chunk, rest, Stream(later));
      LastRead(args, at, chunk, Stream(later));
      BuiltFresh();
      ExecutedWeight(later);
      SessionTakesBytes(FRESH, chunks[1..]);
      SameTail(Some(args), Session(FRESH, chunks[1..]), Executed(later));
      if next == |e| { SessionInOrder(later, chunks[1..]); }
    }
  }

  /** A client's commands, however many and in whatever reads they arrive, are executed one by one and
      nothing else is, exactly when no cut tears a command and every command ends a read. */
  lemma {:induction false} SessionInOrder(commands: seq<seq<Bytes>>, chunks: seq<Bytes>)
    requires (forall c :: c in commands ==> Encodable(c)) && Flatten(chunks) == Stream(commands)
    ensures Session(FRESH, chunks) == Executed(commands) <==> Orderly(commands, 0, chunks)
    decreases |chunks|, 1
  {
    if commands == [] {
      QuietSession(chunks);
    } else {
      var e := Encode(commands[0]);
      assert |e| > 0 && e[0..] == e && e[..0] == [];
      hide Encode;
      SessionFrom(commands, 0, chunks);
    }
  }

  lemma SameTail<T>(x: T, a: seq<T>, b: seq<T>)
    ensures [x] + a == [x] + b <==> a == b
  {
    assert ([x] + a)[1..] == a && ([x] + b)[1..] == b;
  }

  lemma ReadWithin(e: Bytes, at: nat, chunk: Bytes, rest: Bytes, later: Bytes)
    requires at + |chunk| < |e| && chunk + rest == e[at..] + later
    ensures chunk == e[at..at + |chunk|] && rest == e[at + |chunk|..] + later
  {
    assert chunk == (chunk + rest)[..|chunk|] && rest == (chunk + rest)[|chunk|..];
  }

  lemma LastReadOf(e: Bytes, at: nat, chunk: Bytes, rest: Bytes, later: Bytes)
    requires at <= |e| <= at + |chunk| && chunk + rest == e[at..] + later
    ensures chunk <= e[at..] + later
    ensures at + |chunk| == |e| ==> rest == later
  {
    if at + |chunk| == |e| { assert rest == (chunk + rest)[|chunk|..]; }
  }

  /** Two commands in one read: the second is never executed. */
  lemma PipelinedIsDropped(a: seq<Bytes>, b: seq<Bytes>)
    requires Encodable(a) && Encodable(b)
    ensures Session(FRESH, [Encode(a) + Encode(b)]) == [Some(a)]
  {
    hide Parse, Encode;
    ParseEncode(a, Encode(b));
    var chunks := [Encode(a) + Encode(b)];
    assert chunks[1..] == [];
    assert Session(FRESH, chunks[1..]) == [];
  }
}
