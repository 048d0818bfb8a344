/** Commands that arrive in pieces, for a driver that presents again what was not consumed. */
module ChunkTheorems {
  import opened Bytes
  import opened RespParser
  import opened ParserTheorems

  /** A driver that calls `consume` per chunk, starting `consumed` at 0, and presents what was not
      consumed again in front of the next chunk. `boundary` of the result is the total consumed. */
  function Represent(p: Parser, pending: Bytes, chunks: seq<Bytes>): Run
    requires WellFormed(p)
    decreases |chunks|
  {
    if chunks == [] then Run(p, Partial, 0, true)
    else
      var data := pending + chunks[0];
      var r := Parse(p, data);
      if r.result != Partial then r
      else Represent(r.parser, data[r.Consumed(0)..], chunks[1..]).Shift(r.Consumed(0))
  }

  /** No call of the driver stops on a size header whose CR it has seen but whose LF it has not,
      unless that header is all the call was given. */
  ghost predicate Clean(p: Parser, pending: Bytes, chunks: seq<Bytes>)
    requires WellFormed(p)
    decreases |chunks|
  {
    chunks != [] ==>
      var data := pending + chunks[0];
      var r := Parse(p, data);
      r.result == Partial ==>
        r.Consumed(0) == r.boundary && Clean(r.parser, data[r.boundary..], chunks[1..])
  }

  /** The parser cannot get further with this input alone. */
  ghost predicate Stuck(p: Parser, s: Bytes)
    requires WellFormed(p)
  {
    var r := Parse(p, s);
    r.parser == p && r.result == Partial && r.boundary == 0
  }

  lemma LeftoverIsStuck(p: Parser, s: Bytes)
    requires WellFormed(p) && Parse(p, s).result == Partial
    ensures var r := Parse(p, s);
            Stuck(r.parser, s[r.boundary..]) && Parse(r.parser, s[r.boundary..]).reported == r.reported
  {
    hide Parse;
    ParseResume(p, s, []);
    var r := Parse(p, s);
    assert s + [] == s && s[r.boundary..] + [] == s[r.boundary..];
  }

  ghost predicate SameRun(r: Run, q: Run) {
    r.parser == q.parser && r.result == q.result && r.boundary == q.boundary
  }

  lemma {:induction false} RepresentFrom(p: Parser, pending: Bytes, chunks: seq<Bytes>)
    requires WellFormed(p) && Stuck(p, pending) && Clean(p, pending, chunks)
    ensures SameRun(Represent(p, pending, chunks), Parse(p, pending + Flatten(chunks)))
    decreases |chunks|
  {
    hide Parse;
    if chunks == [] {
      assert pending + Flatten(chunks) == pending;
    } else {
      var data, rest := pending + chunks[0], Flatten(chunks[1..]);
      assert pending + Flatten(chunks) == data + rest;
      var r := Parse(p, data);
      if r.result == Partial {
        LeftoverIsStuck(p, data);
        ParseResume(p, data, rest);
        RepresentFrom(r.parser, data[r.boundary..], chunks[1..]);
      } else {
        ParseExtend(p, data, rest);
      }
    }
  }

  /** Chunk independence, for all bytes and from every parser state: a driver whose cuts are clean
      reaches the one-shot parser, verdict and number of bytes. */
  lemma ChunkIndependence(p: Parser, chunks: seq<Bytes>)
    requires WellFormed(p) && Clean(p, [], chunks)
    ensures SameRun(Represent(p, [], chunks), Parse(p, Flatten(chunks)))
  {
    RepresentFrom(p, [], chunks);
    assert [] + Flatten(chunks) == Flatten(chunks);
  }

  // ---------------------------------------------------------------- where a cut falls

  /** Where argument `j` starts in `Encode(args)`. */
  ghost function ArgStart(args: seq<Bytes>, j: nat): nat
    requires j <= |args|
  {
    |Dec(|args|)| + 3 + |Bulks(args[..j])|
  }

  /** A cut between the CR and the LF of a size header. */
  ghost predicate SplitsHeader(args: seq<Bytes>, cut: nat) {
    cut == |Dec(|args|)| + 2 ||
    exists j :: 0 <= j < |args| && cut == ArgStart(args, j) + |Dec(|args[j]|)| + 2
  }

  /** A cut between the CR and the LF of a size header that starts after the cut before. */
  ghost predicate Loses(args: seq<Bytes>, before: nat, cut: nat) {
    (cut == |Dec(|args|)| + 2 && before < 1) ||
    exists j :: 0 <= j < |args| && cut == ArgStart(args, j) + |Dec(|args[j]|)| + 2 && before < ArgStart(args, j)
  }

  /** A cut inside the digits or CRLF of a size header, after a `$`, or inside an argument's CRLF. */
  ghost predicate Tears(args: seq<Bytes>, cut: nat) {
    1 < cut < |Dec(|args|)| + 3 ||
    exists j :: 0 <= j < |args| && TearsArg(args, cut, j)
  }

  ghost predicate TearsArg(args: seq<Bytes>, cut: nat, j: nat)
    requires j < |args|
  {
    ArgStart(args, j) < cut < ArgStart(args, j) + |Dec(|args[j]|)| + 3 || cut == ArgStart(args, j + 1) - 1
  }

  lemma FirstArgStart(args: seq<Bytes>)
    ensures ArgStart(args, 0) == |Dec(|args|)| + 3
  {
    assert Bulks(args[..0]) == [];
  }

  lemma ArgStartNext(args: seq<Bytes>, j: nat)
    requires j < |args|
    ensures ArgStart(args, j + 1) == ArgStart(args, j) + |Dec(|args[j]|)| + |args[j]| + 5
  {
    assert args[..j + 1] == args[..j] + [args[j]];
    BulksConcat(args[..j], [args[j]]);
    assert Bulks([args[j]]) == Bulk(args[j]) + Bulks([]);
  }

  lemma {:induction false} ArgStartMonotone(args: seq<Bytes>, i: nat, j: nat)
    requires i <= j <= |args|
    ensures ArgStart(args, i) <= ArgStart(args, j)
    decreases j - i
  {
    if i < j {
      ArgStartNext(args, i);
      ArgStartMonotone(args, i + 1, j);
    }
  }

  lemma EncodeLength(args: seq<Bytes>, j: nat)
    requires j <= |args|
    ensures |Encode(args)| == ArgStart(args, j) + |Bulks(args[j..])|
  {
    assert args == args[..j] + args[j..];
    BulksConcat(args[..j], args[j..]);
  }

  /** How far the parser has got in `Encode(args)`. */
  ghost function Position(p: Parser, args: seq<Bytes>): int
    requires OnTrack(p, args)
  {
    |Encode(args)| - |Rest(p, args)|
  }

  lemma TrackPosition(p: Parser, args: seq<Bytes>)
    requires OnTrack(p, args)
    ensures var at, k := Position(p, args), |p.args|;
            match p.state
            case WaitType => at == 0
            case WaitSize => at == 1
            case WaitArgSize => at == ArgStart(args, k)
            case WaitArgData => at == ArgStart(args, k) + |Dec(|args[k]|)| + 3 + |p.arg|
            case WaitCRLF => at == ArgStart(args, k + 1) - 2
  {
    var k := |p.args|;
    if p.state !in {WaitType, WaitSize} {
      EncodeLength(args, k);
      EncodeLength(args, k + 1);
      ArgStartNext(args, k);
    }
  }

  /** What input leaves the parser stuck on an encoded command. */
  lemma StuckOnTrack(p: Parser, args: seq<Bytes>, s: Bytes)
    requires WellFormed(p) && Encodable(args) && OnTrack(p, args)
    requires s < Rest(p, args) && Stuck(p, s) && s != []
    ensures p.state in {WaitSize, WaitArgSize, WaitCRLF}
    ensures p.state == WaitSize ==> |s| < |Dec(|args|)| + 2
    ensures p.state == WaitSize ==> (Parse(p, s).reported <==> |s| <= |Dec(|args|)|)
    ensures p.state == WaitArgSize ==> s[0] == DOLLAR && |s| < |Dec(|args[|p.args|]|)| + 3
    ensures p.state == WaitArgSize ==> (Parse(p, s).reported <==> |s| <= 1 + |Dec(|args[|p.args|]|)|)
    ensures p.state == WaitCRLF ==> |s| == 1 && Parse(p, s).reported
  {
    var rest := Rest(p, args);
    assert forall i :: 0 <= i < |s| ==> s[i] == rest[i];
    StuckStops(p, s);
    if p.state == WaitSize {
      StuckInArrayHeader(p, args, s);
    } else if p.state == WaitArgSize {
      StuckInArgHeader(p, args, s);
    }
  }

  lemma StuckInArrayHeader(p: Parser, args: seq<Bytes>, s: Bytes)
    requires WellFormed(p) && Encodable(args) && OnTrack(p, args) && p.state == WaitSize
    requires s != [] && s < Rest(p, args) && Step(p, s).Stop? && Step(p, s).result == Partial
    ensures |s| < |Dec(|args|)| + 2 && (Step(p, s).reported <==> |s| <= |Dec(|args|)|)
  {
    hide ReadHeader, Dec;
    var d := Dec(|args|);
    if |s| < |d| + 2 {
      HeaderOfDecPrefix(|args|, Bulks(args), s);
    } else {
      var t := s[|d| + 2..];
      assert s == d + CRLF + t;
      HeaderOfDec(|args|, t);
      assert false;
    }
  }

  lemma StuckStops(p: Parser, s: Bytes)
    requires WellFormed(p) && Stuck(p, s) && s != []
    ensures Step(p, s) == Stop(p, Partial, 0, Parse(p, s).reported)
  {
    var o := Step(p, s);
    hide Step;
    if o.Continue? {
      assert o.used == 0 && s[0..] == s;
      CRLFMovesOrStays(o.parser, s);
      assert false;
    }
  }

  lemma CRLFMovesOrStays(p: Parser, s: Bytes)
    requires p.state == WaitCRLF && s != []
    ensures Parse(p, s).boundary > 0 || Parse(p, s).parser.state == WaitCRLF
  {
  }

  lemma StuckInArgHeader(p: Parser, args: seq<Bytes>, s: Bytes)
    requires WellFormed(p) && Encodable(args) && OnTrack(p, args) && p.state == WaitArgSize
    requires s != [] && s < Rest(p, args) && Step(p, s).Stop? && Step(p, s).result == Partial
    ensures var d := Dec(|args[|p.args|]|);
            s[0] == DOLLAR && |s| < |d| + 3 && (Step(p, s).reported <==> |s| <= 1 + |d|)
  {
    hide ReadHeader, Dec, Bulks, OnTrack, Rest, Step;
    Place(p, args);
    RestOfArg(p, args);
    var k := |p.args|;
    var x, d := args[k], Dec(|args[k]|);
    var after := x + CRLF + Bulks(args[k + 1..]);
    NoTail([DOLLAR] + d + CRLF + after);
    NoTail(d + CRLF + after);
    DollarSplit(d, after, [], s);
    HeaderSplit(d, after, [], s[1..]);
    ArgSizeStep(p, s);
    if |s| < |d| + 3 {
      NoTail(after);
      HeaderOfDecPrefix(|x|, after, s[1..]);
    } else {
      HeaderOfDec(|x|, s[1..][|d| + 2..]);
      assert false;
    }
  }

  lemma NoTail(s: Bytes)
    ensures s + [] == s
  {
  }

  /** The parser at `p` can be `left` bytes short of a cut. */
  ghost predicate Near(p: Parser, args: seq<Bytes>, left: nat)
    requires OnTrack(p, args)
  {
    match p.state
    case WaitType => left == 0
    case WaitSize => left < |Dec(|args|)| + 2
    case WaitArgSize => left < |Dec(|args[|p.args|]|)| + 3
    case WaitArgData => left == 0
    case WaitCRLF => left <= 1
  }

  /** The parser at `p`, `left` bytes short of a cut, has seen a header's CR but not its LF. */
  ghost predicate Splitting(p: Parser, args: seq<Bytes>, left: nat)
    requires OnTrack(p, args)
  {
    (p.state == WaitSize && left == |Dec(|args|)| + 1) ||
    (p.state == WaitArgSize && left == |Dec(|args[|p.args|]|)| + 2)
  }

  /** Where the parser is after a proper prefix of a command. */
  lemma CutTrack(args: seq<Bytes>, cut: nat)
    requires Encodable(args) && cut < |Encode(args)|
    ensures var s := Encode(args)[..cut];
            var r := Parse(FRESH, s);
            r.result == Partial && OnTrack(r.parser, args) && r.boundary == Position(r.parser, args) &&
            Encode(args)[r.boundary..] == Rest(r.parser, args) && s[r.boundary..] < Rest(r.parser, args)
  {
    hide Parse, Encode, Rest, OnTrack;
    var e := Encode(args);
    FreshOnTrack(args);
    assert e[..cut] + e[cut..] == e && e + [] == e;
    ParseOnTrack(FRESH, args, [], e[..cut]);
    var r := Parse(FRESH, e[..cut]);
    CutSuffix(e, cut, r.boundary, Rest(r.parser, args));
  }

  lemma FreshOnTrack(args: seq<Bytes>)
    ensures OnTrack(FRESH, args) && Rest(FRESH, args) == Encode(args)
  {
  }

  lemma CutSuffix(e: Bytes, cut: nat, b: nat, rest: Bytes)
    requires b <= cut < |e| && e == e[..cut][..b] + rest
    ensures e[b..] == rest && e[..cut][b..] < rest
  {
    assert rest == e[..cut][b..] + e[cut..];
  }

  /** Where a cut leaves the parser. */
  lemma CutState(args: seq<Bytes>, cut: nat)
    requires Encodable(args) && cut < |Encode(args)|
    ensures var r := Parse(FRESH, Encode(args)[..cut]);
            r.result == Partial && OnTrack(r.parser, args) && r.boundary == Position(r.parser, args) <= cut &&
            Encode(args)[r.boundary..] == Rest(r.parser, args) &&
            Near(r.parser, args, cut - r.boundary) && (!r.reported <==> Splitting(r.parser, args, cut - r.boundary))
  {
    hide Parse, Step, Encode, Rest, Stuck, Dec, Position;
    CutTrack(args, cut);
    var s := Encode(args)[..cut];
    var r := Parse(FRESH, s);
    var p, l := r.parser, s[r.boundary..];
    LeftoverIsStuck(FRESH, s);
    if l != [] { StuckOnTrack(p, args, l); } else { EmptyIsReported(p); }
  }

  lemma EmptyIsReported(p: Parser)
    requires WellFormed(p)
    ensures Parse(p, []).reported
  {
  }

  /** Where a cut near the parser lies, relative to argument `j`. */
  lemma PlaceOfArg(args: seq<Bytes>, cut: nat, p: Parser, left: nat, j: nat)
    requires OnTrack(p, args) && Near(p, args, left) && cut == Position(p, args) + left && j < |args|
    ensures TearsArg(args, cut, j) ==> left > 0
    ensures cut == ArgStart(args, j) + |Dec(|args[j]|)| + 2 ==> j == |p.args| && Splitting(p, args, left)
  {
    hide ArgStart, Dec, Position;
    TrackPosition(p, args);
    FirstArgStart(args);
    ArgStartMonotone(args, 0, j);
    ArgStartNext(args, j);
    var k := |p.args|;
    if p.state !in {WaitType, WaitSize} {
      ArgStartNext(args, k);
      if j < k { ArgStartMonotone(args, j + 1, k); }
      if k < j { ArgStartMonotone(args, k + 1, j); }
    }
  }

  /** What a cut near the parser cuts. */
  lemma CutPlace(args: seq<Bytes>, cut: nat, p: Parser, left: nat, before: nat)
    requires OnTrack(p, args) && Near(p, args, left) && cut == Position(p, args) + left
    ensures left > 0 <==> Tears(args, cut)
    ensures Splitting(p, args, left) <==> SplitsHeader(args, cut)
    ensures Loses(args, before, cut) <==> Splitting(p, args, left) && before < Position(p, args)
  {
    hide ArgStart, Dec, Position;
    TrackPosition(p, args);
    FirstArgStart(args);
    forall j | 0 <= j < |args|
      ensures TearsArg(args, cut, j) ==> left > 0
      ensures cut == ArgStart(args, j) + |Dec(|args[j]|)| + 2 ==> j == |p.args| && Splitting(p, args, left)
    {
      PlaceOfArg(args, cut, p, left, j);
    }
    var k := |p.args|;
    if p.state !in {WaitType, WaitSize} {
      ArgStartMonotone(args, 0, k);
      ArgStartNext(args, k);
      assert left > 0 ==> TearsArg(args, cut, k);
    }
  }

  /** Bytes are left unaccounted for exactly when the cut tears something, and `consumed` is left
      unassigned exactly when it splits a header's CRLF. */
  lemma CutVerdict(args: seq<Bytes>, cut: nat)
    requires Encodable(args) && cut < |Encode(args)|
    ensures var r := Parse(FRESH, Encode(args)[..cut]);
            r.result == Partial && OnTrack(r.parser, args) &&
            Encode(args)[r.boundary..] == Rest(r.parser, args) && r.boundary <= cut &&
            (r.boundary < cut <==> Tears(args, cut)) && (!r.reported <==> SplitsHeader(args, cut))
  {
    hide Parse, Encode, Rest, Tears, SplitsHeader, Loses, Near, Splitting, Position;
    CutState(args, cut);
    var r := Parse(FRESH, Encode(args)[..cut]);
    CutPlace(args, cut, r.parser, cut - r.boundary, 0);
  }

  // ---------------------------------------------------------------- behind the parser

  /** The input at offset `at` of the command is presented to a parser that is already past it. */
  ghost predicate Behind(args: seq<Bytes>, p: Parser, at: nat) {
    OnTrack(p, args) ==> at < Position(p, args)
  }

  /** Before the array header is read there are no arguments. */
  ghost predicate Fits(p: Parser) {
    p.state in {WaitType, WaitSize} ==> p.args == []
  }

  lemma FitsStep(p: Parser, s: Bytes)
    requires WellFormed(p) && Fits(p) && s != []
    ensures Fits(Step(p, s).parser)
  {
    hide ReadHeader;
  }

  ghost predicate AfterCRLF(s: Bytes) {
    |s| >= 2 && s[|s| - 2] == CR && s[|s| - 1] == LF
  }

  lemma AfterMore(a: Bytes, b: Bytes)
    requires AfterCRLF(b)
    ensures AfterCRLF(a + b)
  {
  }

  /** What comes before an argument's size header ends in CRLF. */
  lemma BeforeArg(args: seq<Bytes>, k: nat)
    requires k < |args|
    ensures var e, h := Encode(args), ArgStart(args, k);
            2 <= h <= |e| && e[h - 2] == CR && e[h - 1] == LF
  {
    hide Bulks, Dec, AfterCRLF;
    var star, front, rest := [STAR] + Dec(|args|), Bulks(args[..k]), Bulks(args[k..]);
    assert args[..k] + args[k..] == args;
    BulksConcat(args[..k], args[k..]);
    var head := star + CRLF;
    assert Encode(args) == head + Bulks(args);
    hide Encode;
    JustCRLF();
    AfterMore(star, CRLF);
    assert head + (front + rest) == (head + front) + rest;
    if k == 0 {
      NoBulksYet(args);
      NoTail(head);
    } else {
      LastBulk(args[..k]);
      AfterMore(head, front);
    }
    WithinConcat(head + front, rest);
  }

  lemma JustCRLF()
    ensures AfterCRLF(CRLF)
  {
  }

  lemma NoBulksYet(args: seq<Bytes>)
    ensures Bulks(args[..0]) == []
  {
  }

  lemma WithinConcat(a: Bytes, b: Bytes)
    requires AfterCRLF(a)
    ensures |a| >= 2 && (a + b)[|a| - 2] == CR && (a + b)[|a| - 1] == LF
  {
  }

  lemma LastBulk(xs: seq<Bytes>)
    requires xs != []
    ensures AfterCRLF(Bulks(xs))
  {
    var n := |xs| - 1;
    assert xs == xs[..n] + [xs[n]];
    BulksConcat(xs[..n], [xs[n]]);
    assert Bulks([xs[n]]) == Bulk(xs[n]) + Bulks([xs[n]][1..]);
    EndsInCRLF(xs[n]);
    NoTail(Bulk(xs[n]));
    hide Bulk;
    AfterMore(Bulks(xs[..n]), Bulk(xs[n]));
  }

  lemma EndsInCRLF(x: Bytes)
    ensures AfterCRLF(Bulk(x))
  {
  }

  lemma BehindSize(args: seq<Bytes>, p: Parser, at: nat, s: Bytes)
    requires Encodable(args) && WellFormed(p) && Fits(p) && p.state == WaitSize && Behind(args, p, at)
    requires s != [] && at + |s| <= |Encode(args)| && s == Encode(args)[at..at + |s|]
    ensures var o := Step(p, s); o.Stop? && o.used == 0 && (o.result == Partial ==> o.parser == p) && o.result != Complete
  {
    TrackPosition(p, args);
    assert s[0] == STAR;
    StarIsNoNumber(s);
  }

  lemma StarIsNoNumber(s: Bytes)
    requires s != [] && s[0] == STAR
    ensures ReadHeader(s) in {Open, Bad}
  {
    if FirstCR(s) < |s| {
      var d := s[..FirstCR(s)];
      assert SkipSpace(d) == d && DigitRun(d) == 0;
    }
  }

  /** A header read from behind the parser ends no later than where the true one starts. */
  lemma BehindArgSize(args: seq<Bytes>, p: Parser, at: nat, s: Bytes)
    requires Encodable(args) && WellFormed(p) && p.state == WaitArgSize && Behind(args, p, at)
    requires s != [] && at + |s| <= |Encode(args)| && s == Encode(args)[at..at + |s|]
    ensures var o := Step(p, s);
            && (o.Continue? || o.result == Partial ==> Behind(args, o.parser, at + o.used))
            && (o.Stop? ==> o.result != Complete)
  {
    hide Encode, Step, FirstCR, ArgStart, Position, Dec;
    HeaderStep(p, s);
    var o, k := Step(p, s), |p.args|;
    if (o.Continue? || o.result == Partial) && OnTrack(o.parser, args) {
      TrackPosition(p, args);
      TrackPosition(o.parser, args);
      if o.Continue? {
        BeforeArg(args, k);
        EarlierHeader(Encode(args), at, s, ArgStart(args, k));
      }
    }
  }

  /** What a step does at an argument's size header. */
  lemma HeaderStep(p: Parser, s: Bytes)
    requires WellFormed(p) && p.state == WaitArgSize && s != []
    ensures var o, f := Step(p, s), FirstCR(s[1..]);
            && o.parser.args == p.args && o.parser.expected == p.expected
            && (o.Continue? ==>
                  s[0] == DOLLAR && f < |s| - 1 && o.used == f + 3 && o.parser.state == WaitArgData && o.parser.arg == [])
            && (o.Stop? ==> o.used == 0 && o.parser.state == WaitArgSize && o.result != Complete)
  {
    hide Stoi;
  }

  /** From a `$` before a CRLF, the first CR comes no later than that one. */
  lemma EarlierHeader(e: Bytes, at: nat, s: Bytes, h: nat)
    requires at < h <= |e| && 2 <= h && e[h - 2] == CR && e[h - 1] == LF
    requires s != [] && at + |s| <= |e| && s == e[at..at + |s|] && s[0] == DOLLAR && FirstCR(s[1..]) < |s| - 1
    ensures at + FirstCR(s[1..]) + 3 <= h
  {
    hide FirstCR;
    assert s[0] == e[at];
    assert at + 3 <= h;
    if h - at - 3 < |s[1..]| { assert s[1..][h - at - 3] == e[h - 2]; }
  }

  lemma BehindData(args: seq<Bytes>, p: Parser, at: nat, s: Bytes)
    requires WellFormed(p) && p.state in {WaitArgData, WaitCRLF} && Behind(args, p, at) && s != []
    ensures var o := Step(p, s);
            && (o.Continue? || o.result == Partial ==> Behind(args, o.parser, at + o.used))
            && (o.Stop? && o.result == Complete && o.parser.args == args ==> at + o.used < |Encode(args)|)
  {
    hide Encode, Rest, ArgStart, Dec, Position;
    var o, k := Step(p, s), |p.args|;
    if (o.Continue? || o.result == Partial) && OnTrack(o.parser, args) {
      BackOnTrack(args, p, s);
      ArgStartNext(args, k);
      TrackPosition(p, args);
      TrackPosition(o.parser, args);
    } else if o.Stop? && o.result == Complete && o.parser.args == args {
      assert args[..k] == p.args && p.expected == |args|;
      TrackPosition(p, args);
      EncodeLength(args, |args|);
      assert args[|args|..] == [];
    }
  }

  /** A parser that comes onto the track while it reads an argument was on it. */
  lemma BackOnTrack(args: seq<Bytes>, p: Parser, s: Bytes)
    requires WellFormed(p) && p.state in {WaitArgData, WaitCRLF} && s != []
    requires var o := Step(p, s); (o.Continue? || o.result == Partial) && OnTrack(o.parser, args)
    ensures OnTrack(p, args)
  {
    var o, k := Step(p, s), |p.args|;
    if p.state == WaitCRLF && o.Continue? {
      assert o.parser.args[..k] == p.args && args[..k + 1][k] == p.arg;
      assert args[..k + 1][..k] == args[..k];
    }
  }

  /** Reading on from behind, the parser stays ahead of its input. */
  lemma BehindStep(args: seq<Bytes>, p: Parser, at: nat, s: Bytes)
    requires Encodable(args) && WellFormed(p) && Fits(p) && Behind(args, p, at)
    requires s != [] && at + |s| <= |Encode(args)| && s == Encode(args)[at..at + |s|]
    ensures var o := Step(p, s);
            && (o.Continue? || o.result == Partial ==> Behind(args, o.parser, at + o.used))
            && (o.Stop? && o.result == Complete && o.parser.args == args ==> at + o.used < |Encode(args)|)
  {
    hide Step, Position, Encode;
    match p.state
    case WaitType => TrackPosition(p, args); assert false;
    case WaitSize => BehindSize(args, p, at, s);
    case WaitArgSize => BehindArgSize(args, p, at, s);
    case WaitArgData => BehindData(args, p, at, s);
    case WaitCRLF => BehindData(args, p, at, s);
  }

  lemma {:induction false} BehindParse(args: seq<Bytes>, p: Parser, at: nat, s: Bytes)
    requires Encodable(args) && WellFormed(p) && Fits(p) && Behind(args, p, at)
    requires at + |s| <= |Encode(args)| && s == Encode(args)[at..at + |s|]
    ensures var r := Parse(p, s);
            && (r.result == Partial ==> Fits(r.parser) && Behind(args, r.parser, at + r.boundary))
            && (r.result == Complete && r.parser.args == args ==> at + r.boundary < |Encode(args)|)
    decreases |s|, if p.state == WaitArgData then 1 else 0
  {
    hide Step, Behind, Fits, Encode;
    if s != [] {
      BehindStep(args, p, at, s);
      FitsStep(p, s);
      var o := Step(p, s);
      if o.Continue? {
        assert s[o.used..] == Encode(args)[at + o.used..at + |s|];
        BehindParse(args, o.parser, at + o.used, s[o.used..]);
      }
    }
  }

  /** Presenting a part of the command again, the driver never gets to its end. */
  lemma {:induction false} BehindDriver(args: seq<Bytes>, p: Parser, at: nat, pending: Bytes, chunks: seq<Bytes>)
    requires Encodable(args) && WellFormed(p) && Fits(p) && Behind(args, p, at)
    requires at <= |Encode(args)| && pending + Flatten(chunks) == Encode(args)[at..]
    ensures var r := Represent(p, pending, chunks);
            Recognised(args, r.parser, r.result) ==> at + r.boundary < |Encode(args)|
    decreases |chunks|
  {
    hide Parse, Behind, Fits, Encode;
    if chunks != [] {
      var data, rest := pending + chunks[0], Flatten(chunks[1..]);
      assert data + rest == Encode(args)[at..];
      FirstCut(Encode(args), at, data, rest);
      BehindParse(args, p, at, data);
      var r := Parse(p, data);
      if r.result == Partial {
        var c := r.Consumed(0);
        BehindSooner(args, r.parser, at + c, at + r.boundary);
        assert data[c..] + rest == Encode(args)[at + c..];
        BehindDriver(args, r.parser, at + c, data[c..], chunks[1..]);
      }
    }
  }

  lemma BehindSooner(args: seq<Bytes>, p: Parser, a: nat, b: nat)
    requires a <= b && Behind(args, p, b)
    ensures Behind(args, p, a)
  {
  }

  lemma FirstCut(e: Bytes, at: nat, chunk: Bytes, rest: Bytes)
    requires at <= |e| && e[at..] == chunk + rest
    ensures at + |chunk| <= |e| && e[at..at + |chunk|] == chunk && e[at + |chunk|..] == rest
    ensures e[..at] + chunk == e[..at + |chunk|]
  {
    assert e == e[..at] + (chunk + rest);
  }

  // ---------------------------------------------------------------- one command, any cutting

  /** The client's view: the command is recognised as sent. */
  ghost predicate Recognised(args: seq<Bytes>, p: Parser, result: Result) {
    result == Complete && p.args == args
  }

  /** No cut of `chunks`, which start at offset `at`, loses a header. */
  ghost predicate KeepsHeaders(args: seq<Bytes>, at: nat, chunks: seq<Bytes>)
    decreases |chunks|
  {
    chunks != [] ==>
      var next := at + |chunks[0]|;
      (next < |Encode(args)| ==> !Loses(args, at, next)) && KeepsHeaders(args, next, chunks[1..])
  }

  lemma {:induction false} NothingLeftToLose(args: seq<Bytes>, at: nat, chunks: seq<Bytes>)
    requires at >= |Encode(args)|
    ensures KeepsHeaders(args, at, chunks)
    decreases |chunks|
  {
    if chunks != [] { NothingLeftToLose(args, at + |chunks[0]|, chunks[1..]); }
  }

  /** Having got further by the second of two cuts, the parser has passed the first. */
  lemma ProgressPassesCut(args: seq<Bytes>, p: Parser, left: nat, q: Parser)
    requires OnTrack(p, args) && Near(p, args, left) && OnTrack(q, args) && q.state in {WaitSize, WaitArgSize}
    requires Position(p, args) < Position(q, args)
    ensures Position(p, args) + left < Position(q, args)
  {
    hide ArgStart, Dec, Position;
    TrackPosition(p, args);
    TrackPosition(q, args);
    FirstArgStart(args);
    if p.state !in {WaitType, WaitSize} {
      ArgStartMonotone(args, 0, |p.args|);
      ArgStartNext(args, |p.args|);
    }
    if q.state == WaitArgSize {
      ArgStartMonotone(args, 0, |q.args|);
      if p.state !in {WaitType, WaitSize} {
        if |p.args| < |q.args| { ArgStartMonotone(args, |p.args| + 1, |q.args|); }
        else { ArgStartMonotone(args, |q.args|, |p.args|); }
      }
    }
  }

  /** The parser is then past what it had not accounted for at the first cut. */
  lemma ProgressAt(args: seq<Bytes>, p: Parser, left: nat, q: Parser, behind: nat)
    requires OnTrack(p, args) && Near(p, args, left) && OnTrack(q, args) && Splitting(q, args, behind)
    requires 0 <= Position(p, args) < Position(q, args)
    ensures Position(p, args) + left < Position(q, args) && Fits(q) && Behind(args, q, Position(p, args))
  {
    hide Position, Near;
    ProgressPassesCut(args, p, left, q);
  }

  lemma CommandEnds(args: seq<Bytes>, p: Parser, s: Bytes)
    requires WellFormed(p) && Encodable(args) && OnTrack(p, args) && s == Rest(p, args)
    ensures var r := Parse(p, s); Recognised(args, r.parser, r.result) && r.boundary == |s|
  {
    hide Parse, OnTrack, Rest;
    assert s + [] == s;
    ParseOnTrack(p, args, [], s);
  }

  /** The driver at a cut: it has presented the command up to `at` and lost nothing. */
  lemma {:induction false} RepresentFromCut(args: seq<Bytes>, at: nat, chunks: seq<Bytes>)
    requires Encodable(args) && at < |Encode(args)| && Flatten(chunks) == Encode(args)[at..]
    ensures var s := Parse(FRESH, Encode(args)[..at]);
            var r := Represent(s.parser, Encode(args)[s.boundary..at], chunks);
            Recognised(args, r.parser, r.result) && s.boundary + r.boundary == |Encode(args)| <==>
            KeepsHeaders(args, at, chunks)
    decreases |chunks|
  {
    hide Parse, Encode, Rest, OnTrack, Loses, Near, Splitting, Position, Behind, Flatten;
    var e := Encode(args);
    CutState(args, at);
    var s := Parse(FRESH, e[..at]);
    ChunksLeft(e, at, chunks);
    var next, rest := at + |chunks[0]|, Flatten(chunks[1..]);
    CutLeftover(e, s.boundary, at, next);
    var data := e[s.boundary..next];
    if next == |e| {
      CommandEnds(args, s.parser, data);
      NothingLeftToLose(args, next, chunks[1..]);
    } else {
      ParseResume(FRESH, e[..at], chunks[0]);
      CutState(args, next);
      var q := Parse(FRESH, e[..next]);
      assert q == Parse(s.parser, data).Shift(s.boundary);
      CutPlace(args, next, q.parser, next - q.boundary, at);
      CutLeftover(e, s.boundary, q.boundary, next);
      if q.reported || q.boundary == s.boundary {
        RepresentFromCut(args, next, chunks[1..]);
      } else {
        ProgressAt(args, s.parser, at - s.boundary, q.parser, next - q.boundary);
        BehindDriver(args, q.parser, s.boundary, data, chunks[1..]);
      }
    }
  }

  lemma ChunksLeft(e: Bytes, at: nat, chunks: seq<Bytes>)
    requires at < |e| && Flatten(chunks) == e[at..]
    ensures chunks != []
    ensures var next := at + |chunks[0]|;
            next <= |e| && e[at..next] == chunks[0] && e[next..] == Flatten(chunks[1..]) && e[..at] + chunks[0] == e[..next]
  {
    FirstCut(e, at, chunks[0], Flatten(chunks[1..]));
  }

  lemma CutLeftover(e: Bytes, a: nat, b: nat, c: nat)
    requires a <= b <= c <= |e|
    ensures e[..b][a..] == e[a..b] && e[a..b] + e[b..c] == e[a..c] && e[a..c][b - a..] == e[b..c]
    ensures e[a..c] + e[c..] == e[a..] && e[a..c][0..] == e[a..c]
  {
  }

  /** A command cut into any number of chunks is recognised by the re-presenting driver, to its last
      byte, exactly when no cut falls between the CR and LF of a size header that starts after the
      cut before: there `consume` returns without assigning `consumed`. */
  lemma CommandInChunks(args: seq<Bytes>, chunks: seq<Bytes>)
    requires Encodable(args) && Flatten(chunks) == Encode(args)
    ensures var r := Represent(FRESH, [], chunks);
            Recognised(args, r.parser, r.result) && r.boundary == |Encode(args)| <==> KeepsHeaders(args, 0, chunks)
  {
    hide Encode, Represent, KeepsHeaders;
    var e := Encode(args);
    assert |e| > 0 by { FreshOnTrack(args); RestNonEmpty(FRESH, args); }
    assert e[0..] == e && e[..0] == [] && e[0..0] == [];
    RepresentFromCut(args, 0, chunks);
  }

  /** In particular, cut in two: exactly when the cut is not between the CR and LF of a size header. */
  lemma RepresentedInTwo(args: seq<Bytes>, cut: nat)
    requires Encodable(args) && cut < |Encode(args)|
    ensures var e := Encode(args);
            var r := Represent(FRESH, [], [e[..cut], e[cut..]]);
            (Recognised(args, r.parser, r.result) && r.boundary == |e|) <==> !SplitsHeader(args, cut)
  {
    hide Encode, Represent, Loses, SplitsHeader, KeepsHeaders, Parse, Splitting, Near, Position, OnTrack;
    var e := Encode(args);
    InTwo(e, cut);
    CommandInChunks(args, [e[..cut], e[cut..]]);
    CutState(args, cut);
    var r := Parse(FRESH, e[..cut]);
    CutPlace(args, cut, r.parser, cut - r.boundary, 0);
    if Splitting(r.parser, args, cut - r.boundary) { SplitIsInside(r.parser, args, cut - r.boundary); }
    KeptInTwo(args, e[..cut], e[cut..]);
  }

  lemma KeptInTwo(args: seq<Bytes>, a: Bytes, b: Bytes)
    requires |a| < |Encode(args)| == |a| + |b|
    ensures KeepsHeaders(args, 0, [a, b]) <==> !Loses(args, 0, |a|)
  {
    hide Encode, Loses;
    assert [a, b][1..] == [b] && [b][1..] == [];
    NothingLeftToLose(args, |a| + |b|, []);
    assert KeepsHeaders(args, |a|, [b]);
  }

  lemma InTwo(e: Bytes, cut: nat)
    requires cut <= |e|
    ensures Flatten([e[..cut], e[cut..]]) == e
  {
    var a, b := e[..cut], e[cut..];
    assert [a, b][1..] == [b] && [b][1..] == [];
    assert Flatten([b]) == b + Flatten([]) == b;
    assert Flatten([a, b]) == a + b;
  }

  lemma SplitIsInside(p: Parser, args: seq<Bytes>, left: nat)
    requires OnTrack(p, args) && Splitting(p, args, left)
    ensures Position(p, args) > 0
  {
    TrackPosition(p, args);
  }
}
