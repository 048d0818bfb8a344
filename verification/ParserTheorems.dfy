/** What the RESP parser guarantees, for every input and every way of cutting it. */
module ParserTheorems {
  import opened Bytes
  import opened RespParser

  // ---------------------------------------------------------------- the printer

  function Bulk(x: Bytes): Bytes {
    [DOLLAR] + Dec(|x|) + CRLF + x + CRLF
  }

  function Bulks(args: seq<Bytes>): Bytes {
    if args == [] then [] else Bulk(args[0]) + Bulks(args[1..])
  }

  lemma {:induction false} BulksConcat(a: seq<Bytes>, b: seq<Bytes>)
    ensures Bulks(a + b) == Bulks(a) + Bulks(b)
  {
    if a == [] {
      assert a + b == b;
    } else {
      assert (a + b)[1..] == a[1..] + b;
      BulksConcat(a[1..], b);
    }
  }

  /** A command as a client sends it: an array of bulk strings. */
  function Encode(args: seq<Bytes>): Bytes {
    [STAR] + Dec(|args|) + CRLF + Bulks(args)
  }

  /** The commands whose count and lengths fit `std::stoi`. */
  ghost predicate Encodable(args: seq<Bytes>) {
    0 < |args| < TWO_31 && forall i :: 0 <= i < |args| ==> |args[i]| < TWO_31
  }

  // ---------------------------------------------------------------- arbitrary input

  lemma {:induction false} FirstCRExtend(a: Bytes, b: Bytes)
    requires FirstCR(a) < |a|
    ensures FirstCR(a + b) == FirstCR(a)
  {
    if a[0] != CR {
      assert (a + b)[1..] == a[1..] + b;
      FirstCRExtend(a[1..], b);
    }
  }

  /** More input settles an open or split header and leaves every other one as it is. */
  lemma HeaderExtend(a: Bytes, b: Bytes)
    requires !ReadHeader(a).Open?
    ensures var h, g := ReadHeader(a), ReadHeader(a + b);
            if h.Split? then (g.Split? || g.Sized?) && g.size == h.size else g == h
  {
    FirstCRExtend(a, b);
    assert (a + b)[..FirstCR(a)] == a[..FirstCR(a)];
  }

  /** A step that did not run out of input is not affected by more input. */
  lemma StepExtend(p: Parser, a: Bytes, b: Bytes)
    requires WellFormed(p) && a != []
    requires Step(p, a).Stop? ==> Step(p, a).result != Partial
    ensures Step(p, a + b) == Step(p, a)
  {
    hide ReadHeader;
    if p.state == WaitSize {
      HeaderExtend(a, b);
    } else if p.state == WaitArgSize {
      assert (a + b)[1..] == a[1..] + b;
      if a[0] == DOLLAR { HeaderExtend(a[1..], b); }
    } else if p.state == WaitArgData {
      var needed := p.argLen - |p.arg|;
      assert (a + b)[..needed] == a[..needed];
    }
  }

  /** Re-reading from where a step ran out of input, with more input, is reading on. */
  lemma StepResume(p: Parser, a: Bytes, b: Bytes)
    requires WellFormed(p) && a != []
    requires Step(p, a).Stop? && Step(p, a).result == Partial
    ensures var o := Step(p, a);
            Parse(p, a + b) == Parse(o.parser, a[o.used..] + b).Shift(o.used)
  {
    hide Step, Parse;
    PartialUsed(p, a);
    if p.state == WaitArgData {
      assert a[|a|..] + b == b;
      ResumeData(p, a, b);
    } else {
      assert a[0..] + b == a + b;
      ResumeHeader(p, a, b);
      SameStepSameRun(p, Step(p, a).parser, a + b);
    }
  }

  lemma PartialUsed(p: Parser, a: Bytes)
    requires WellFormed(p) && a != [] && Step(p, a).Stop? && Step(p, a).result == Partial
    ensures Step(p, a).used == if p.state == WaitArgData then |a| else 0
  {
    hide ReadHeader;
  }

  lemma SameStepSameRun(p: Parser, q: Parser, s: Bytes)
    requires WellFormed(p) && WellFormed(q) && s != [] && Step(p, s) == Step(q, s)
    ensures Parse(p, s) == Parse(q, s).Shift(0)
  {
    hide Step;
  }

  lemma ResumeHeader(p: Parser, a: Bytes, b: Bytes)
    requires WellFormed(p) && a != [] && p.state != WaitArgData
    requires Step(p, a).Stop? && Step(p, a).result == Partial
    ensures Step(Step(p, a).parser, a + b) == Step(p, a + b)
  {
    hide ReadHeader;
    if p.state == WaitSize && !ReadHeader(a).Open? {
      HeaderExtend(a, b);
    } else if p.state == WaitArgSize && !ReadHeader(a[1..]).Open? {
      assert (a + b)[1..] == a[1..] + b;
      HeaderExtend(a[1..], b);
    }
  }

  /** Copying argument bytes in two goes is copying them in one. */
  lemma StepData(p: Parser, a: Bytes, b: Bytes)
    requires WellFormed(p) && a != [] && b != [] && p.state == WaitArgData && Step(p, a).Stop?
    ensures var o, q := Step(p, a + b), Step(Step(p, a).parser, b);
            o.used == |a| + q.used &&
            if q.Continue? then o == Continue(q.parser, o.used)
            else o == Stop(q.parser, q.result, o.used, q.reported)
  {
    hide Step;
    DataStep(p, a);
    DataStep(p, a + b);
    DataStep(Step(p, a).parser, b);
    CopyInTwo(p.arg, a, b, p.argLen - |p.arg|);
  }

  lemma CopyInTwo(x: Bytes, a: Bytes, b: Bytes, n: int)
    requires |a| < n
    ensures if n <= |a + b| then x + (a + b)[..n] == (x + a) + b[..n - |a|] else x + (a + b) == (x + a) + b
  {
  }

  lemma ResumeData(p: Parser, a: Bytes, b: Bytes)
    requires WellFormed(p) && a != [] && p.state == WaitArgData && Step(p, a).Stop?
    ensures Parse(p, a + b) == Parse(Step(p, a).parser, b).Shift(|a|)
  {
    hide Step, Parse;
    DataStep(p, a);
    ParseOnce(p, a + b);
    ParseOnce(Step(p, a).parser, b);
    if b == [] {
      assert a + b == a;
    } else {
      StepData(p, a, b);
      var q := Step(Step(p, a).parser, b);
      DropBoth(a, b, q.used);
    }
  }

  lemma DropBoth(a: Bytes, b: Bytes, n: nat)
    requires n <= |b|
    ensures (a + b)[|a| + n..] == b[n..]
  {
  }

  /** One turn of the loop. */
  lemma ParseOnce(p: Parser, s: Bytes)
    requires WellFormed(p)
    ensures Parse(p, s) ==
            if s == [] then Run(p, Partial, 0, true)
            else
              var o := Step(p, s);
              if o.Continue? then Parse(o.parser, s[o.used..]).Shift(o.used)
              else Run(o.parser, o.result, o.used, o.reported)
  {
    hide Step;
  }

  /** A verdict, once reached, does not change with more input. */
  lemma {:induction false} ParseExtend(p: Parser, a: Bytes, b: Bytes)
    requires WellFormed(p) && Parse(p, a).result != Partial
    ensures Parse(p, a + b) == Parse(p, a)
    decreases |a|, if p.state == WaitArgData then 1 else 0
  {
    hide Step;
    StepExtend(p, a, b);
    var o := Step(p, a);
    if o.Continue? {
      assert (a + b)[o.used..] == a[o.used..] + b;
      ParseExtend(o.parser, a[o.used..], b);
    }
  }

  /** Resumption, for every parser state and all bytes: parsing `a + b` is parsing `a` and then,
      from the state reached, what `a` left unaccounted for followed by `b`. */
  lemma {:induction false} ParseResume(p: Parser, a: Bytes, b: Bytes)
    requires WellFormed(p) && Parse(p, a).result == Partial
    ensures var r := Parse(p, a);
            Parse(p, a + b) == Parse(r.parser, a[r.boundary..] + b).Shift(r.boundary)
    decreases |a|, if p.state == WaitArgData then 1 else 0
  {
    hide Step;
    if a == [] {
      assert a + b == b == a[0..] + b;
    } else {
      var o := Step(p, a);
      if o.Continue? {
        StepExtend(p, a, b);
        assert (a + b)[o.used..] == a[o.used..] + b;
        ParseResume(o.parser, a[o.used..], b);
        var r := Parse(o.parser, a[o.used..]);
        assert a[o.used..][r.boundary..] == a[o.used + r.boundary..];
      } else {
        StepResume(p, a, b);
      }
    }
  }

  // ---------------------------------------------------------------- encoded commands

  /** `p` is where the parser is after some of `Encode(args)`. */
  ghost predicate OnTrack(p: Parser, args: seq<Bytes>) {
    var k := |p.args|;
    match p.state
    case WaitType => p.args == []
    case WaitSize => p.args == []
    case WaitArgSize => k < |args| && p.args == args[..k] && p.expected == |args|
    case WaitArgData =>
      k < |args| && p.args == args[..k] && p.expected == |args| && p.argLen == |args[k]| && p.arg <= args[k]
    case WaitCRLF => k < |args| && p.args == args[..k] && p.expected == |args| && p.arg == args[k]
  }

  /** What is still to come of `Encode(args)` when the parser is at `p`. */
  ghost function Rest(p: Parser, args: seq<Bytes>): Bytes
    requires OnTrack(p, args)
  {
    var k := |p.args|;
    match p.state
    case WaitType => Encode(args)
    case WaitSize => Dec(|args|) + CRLF + Bulks(args)
    case WaitArgSize => Bulks(args[k..])
    case WaitArgData => args[k][|p.arg|..] + CRLF + Bulks(args[k + 1..])
    case WaitCRLF => CRLF + Bulks(args[k + 1..])
  }

  lemma {:induction false} FirstCRAfter(d: Bytes, tail: Bytes)
    requires forall i :: 0 <= i < |d| ==> d[i] != CR
    ensures FirstCR(d + [CR] + tail) == |d|
  {
    if d == [] {
      assert (d + [CR] + tail)[0] == CR;
    } else {
      assert (d + [CR] + tail)[1..] == d[1..] + [CR] + tail;
      FirstCRAfter(d[1..], tail);
    }
  }

  lemma HeaderOfDigits(d: Bytes, tail: Bytes)
    requires d != [] && (forall i :: 0 <= i < |d| ==> IsDigit(d[i])) && DigitsValue(d) < TWO_31
    ensures ReadHeader(d + CRLF + tail) == Sized(DigitsValue(d), |d| + 2)
  {
    hide ParseInt, DigitsValue, FirstCR;
    var s := d + CRLF + tail;
    assert s == d + [CR] + ([LF] + tail);
    FirstCRAfter(d, [LF] + tail);
    assert s[..|d|] == d;
    ParseDigits(d, -TWO_31, TWO_31);
  }

  /** Reading a printed size header back. */
  lemma HeaderOfDec(n: nat, tail: Bytes)
    requires n < TWO_31
    ensures ReadHeader(Dec(n) + CRLF + tail) == Sized(n, |Dec(n)| + 2)
  {
    hide Dec, DigitsValue, ReadHeader;
    DigitsValueOfDec(n);
    HeaderOfDigits(Dec(n), tail);
  }

  lemma {:induction false} NoCR(s: Bytes)
    requires forall i :: 0 <= i < |s| ==> s[i] != CR
    ensures FirstCR(s) == |s|
  {
    if s != [] { NoCR(s[1..]); }
  }

  /** A printed size header cut short is open or split, never bad. */
  lemma HeaderOfDecPrefix(n: nat, tail: Bytes, s: Bytes)
    requires n < TWO_31 && s <= Dec(n) + CRLF + tail && |s| < |Dec(n)| + 2
    ensures ReadHeader(s) == if |s| <= |Dec(n)| then Open else Split(n)
  {
    hide Stoi;
    var d := Dec(n);
    assert forall i :: 0 <= i < |d| ==> IsDigit(d[i]);
    if |s| <= |d| {
      assert forall i :: 0 <= i < |s| ==> s[i] == d[i];
      NoCR(s);
    } else {
      assert s == d + [CR] + [];
      FirstCRAfter(d, []);
      assert s[..|d|] == d;
      StoiOfDec(n);
    }
  }

  /** What a step does on an encoded command: it stays on track, or runs out of input before the
      end, or completes exactly at the end. */
  ghost predicate StepsOnTrack(p: Parser, args: seq<Bytes>, s: Bytes, o: Outcome)
    requires OnTrack(p, args) && o.used <= |s|
  {
    if o.Continue? || o.result == Partial then
      OnTrack(o.parser, args) && Rest(p, args) == s[..o.used] + Rest(o.parser, args) &&
      (o.Stop? ==> |s| < |Rest(p, args)|)
    else
      o.result == Complete && o.parser.args == args && o.used == |Rest(p, args)|
  }

  /** At an argument's size header. */
  lemma AtArgSize(p: Parser, args: seq<Bytes>, k: nat)
    requires p.state == WaitArgSize && k < |args| && p.args == args[..k] && p.expected == |args|
    ensures OnTrack(p, args) && Rest(p, args) == Bulks(args[k..])
  {
  }

  /** In an argument, `m` bytes of which have been copied. */
  lemma AtData(p: Parser, args: seq<Bytes>, k: nat, m: nat)
    requires p.state == WaitArgData && k < |args| && p.args == args[..k] && p.expected == |args|
    requires p.argLen == |args[k]| && m <= |args[k]| && p.arg == args[k][..m]
    ensures OnTrack(p, args) && Rest(p, args) == args[k][m..] + (CRLF + Bulks(args[k + 1..]))
  {
    hide Bulks;
    RestOfData(args[k], m, Bulks(args[k + 1..]));
  }

  /** At an argument's CRLF. */
  lemma AtCRLF(p: Parser, args: seq<Bytes>, k: nat)
    requires p.state == WaitCRLF && k < |args| && p.args == args[..k] && p.expected == |args| && p.arg == args[k]
    ensures OnTrack(p, args) && Rest(p, args) == CRLF + Bulks(args[k + 1..])
  {
  }

  /** Where on the track a parser is. */
  lemma Place(p: Parser, args: seq<Bytes>)
    requires OnTrack(p, args) && p.state in {WaitArgSize, WaitArgData, WaitCRLF}
    ensures var k := |p.args|;
            && k < |args| && p.args == args[..k] && p.expected == |args|
            && (p.state == WaitArgData ==> |p.arg| <= p.argLen == |args[k]| && p.arg == args[k][..|p.arg|])
            && (p.state == WaitCRLF ==> p.arg == args[k])
  {
  }

  /** A prefix of a header and what follows it: it has the header whole, or it is a prefix of it. */
  lemma HeaderSplit(d: Bytes, after: Bytes, tail: Bytes, s: Bytes)
    requires s <= d + CRLF + after + tail
    ensures s <= d + CRLF + (after + tail)
    ensures |d| + 2 <= |s| ==> s == d + CRLF + s[|d| + 2..] && s[..|d| + 2] == d + CRLF
  {
    assert d + CRLF + after + tail == d + CRLF + (after + tail);
    if |d| + 2 <= |s| {
      assert s[..|d| + 2] == (d + CRLF + (after + tail))[..|d| + 2] == d + CRLF;
    }
  }

  lemma SizeStep(p: Parser, s: Bytes)
    requires WellFormed(p) && p.state == WaitSize && s != []
    ensures var h := ReadHeader(s);
            && (h.Open? ==> Step(p, s) == Stop(p, Partial, 0, true))
            && (h.Split? ==> Step(p, s) == Stop(p.(expected := h.size), Partial, 0, false))
            && (h.Sized? && h.size >= 0 ==> Step(p, s) == Continue(p.(expected := h.size, state := WaitArgSize), h.used))
  {
    hide ReadHeader;
  }

  lemma TrackType(p: Parser, args: seq<Bytes>, tail: Bytes, s: Bytes)
    requires WellFormed(p) && OnTrack(p, args) && p.state == WaitType && s != [] && s <= Rest(p, args) + tail
    ensures StepsOnTrack(p, args, s, Step(p, s))
  {
    hide Dec, Bulks;
    StarFirst(Dec(|args|), Bulks(args), tail, s);
    assert Step(p, s) == Continue(p.(state := WaitSize), 1);
  }

  lemma StarFirst(d: Bytes, bulks: Bytes, tail: Bytes, s: Bytes)
    requires s != [] && s <= [STAR] + d + CRLF + bulks + tail
    ensures s[0] == STAR && s[..1] == [STAR] && [STAR] + d + CRLF + bulks == [STAR] + (d + CRLF + bulks)
  {
    assert [STAR] + d + CRLF + bulks + tail == [STAR] + (d + CRLF + bulks + tail);
  }

  lemma TrackSize(p: Parser, args: seq<Bytes>, tail: Bytes, s: Bytes)
    requires WellFormed(p) && Encodable(args) && OnTrack(p, args) && p.state == WaitSize
    requires s != [] && s <= Rest(p, args) + tail
    ensures StepsOnTrack(p, args, s, Step(p, s))
  {
    hide Step, ReadHeader, Dec, Bulks;
    var n, d, bulks := |args|, Dec(|args|), Bulks(args);
    assert Rest(p, args) == d + CRLF + bulks;
    HeaderSplit(d, bulks, tail, s);
    SizeStep(p, s);
    if |s| < |d| + 2 {
      HeaderOfDecPrefix(n, bulks + tail, s);
      EmptyPrefix(s, Rest(p, args));
    } else {
      HeaderOfDec(n, s[|d| + 2..]);
      assert args[..0] == [] && args[0..] == args;
      AtArgSize(Step(p, s).parser, args, 0);
    }
  }

  lemma EmptyPrefix(s: Bytes, t: Bytes)
    ensures s[..0] + t == t
  {
  }

  lemma ArgSizeStep(p: Parser, s: Bytes)
    requires WellFormed(p) && p.state == WaitArgSize && s != [] && s[0] == DOLLAR
    ensures var h := ReadHeader(s[1..]);
            && (h.Open? ==> Step(p, s) == Stop(p, Partial, 0, true))
            && (h.Split? ==> Step(p, s) == Stop(p.(argLen := h.size), Partial, 0, false))
            && (h.Sized? && h.size >= 0 ==>
                  Step(p, s) == Continue(p.(argLen := h.size, arg := [], state := WaitArgData), 1 + h.used))
  {
    hide ReadHeader;
  }

  /** The same, for a header that starts with a dollar. */
  lemma DollarSplit(d: Bytes, after: Bytes, tail: Bytes, s: Bytes)
    requires s != [] && s <= [DOLLAR] + d + CRLF + after + tail
    ensures s[0] == DOLLAR && s[1..] <= d + CRLF + after + tail && s == [DOLLAR] + s[1..]
    ensures |d| + 3 <= |s| ==> s[..|d| + 3] == [DOLLAR] + s[1..][..|d| + 2]
  {
    assert [DOLLAR] + d + CRLF + after + tail == [DOLLAR] + (d + CRLF + after + tail);
  }

  lemma RestOfArg(p: Parser, args: seq<Bytes>)
    requires OnTrack(p, args) && p.state == WaitArgSize
    ensures var k := |p.args|;
            Rest(p, args) == [DOLLAR] + Dec(|args[k]|) + CRLF + (args[k] + CRLF + Bulks(args[k + 1..]))
  {
    hide Dec;
    var k := |p.args|;
    assert args[k..][1..] == args[k + 1..];
  }

  lemma TrackArgSize(p: Parser, args: seq<Bytes>, tail: Bytes, s: Bytes)
    requires WellFormed(p) && Encodable(args) && OnTrack(p, args) && p.state == WaitArgSize
    requires s != [] && s <= Rest(p, args) + tail
    ensures StepsOnTrack(p, args, s, Step(p, s))
  {
    hide Step, ReadHeader, Dec, Bulks, OnTrack, Rest;
    Place(p, args);
    RestOfArg(p, args);
    var k := |p.args|;
    var x, d := args[k], Dec(|args[k]|);
    var after := x + CRLF + Bulks(args[k + 1..]);
    DollarSplit(d, after, tail, s);
    HeaderSplit(d, after, tail, s[1..]);
    ArgSizeStep(p, s);
    if |s| < |d| + 3 {
      HeaderOfDecPrefix(|x|, after + tail, s[1..]);
      EmptyPrefix(s, Rest(p, args));
      SameTrack(p, Step(p, s).parser, args);
    } else {
      HeaderOfDec(|x|, s[1..][|d| + 2..]);
      DollarHeader(d, after);
      AtData(Step(p, s).parser, args, k, 0);
      RestOfData(x, 0, Bulks(args[k + 1..]));
      assert x[0..] == x;
    }
  }

  /** The track does not depend on what a size header will say. */
  lemma SameTrack(p: Parser, q: Parser, args: seq<Bytes>)
    requires OnTrack(p, args) && p.state == WaitArgSize && q == p.(argLen := q.argLen)
    ensures OnTrack(q, args) && Rest(q, args) == Rest(p, args)
  {
    hide Bulks;
  }

  lemma DollarHeader(d: Bytes, after: Bytes)
    ensures [DOLLAR] + d + CRLF + after == [DOLLAR] + (d + CRLF) + after
  {
    assert [DOLLAR] + d + CRLF == [DOLLAR] + (d + CRLF);
  }

  lemma DataStep(p: Parser, s: Bytes)
    requires WellFormed(p) && p.state == WaitArgData && s != []
    ensures var needed := p.argLen - |p.arg|;
            Step(p, s) ==
              if needed <= |s| then Continue(p.(arg := p.arg + s[..needed], state := WaitCRLF), needed)
              else Stop(p.(arg := p.arg + s), Partial, |s|, true)
  {
  }

  /** Copying from a prefix of what is left of an argument and what follows it. */
  lemma DataSplit(x: Bytes, m: nat, after: Bytes, tail: Bytes, s: Bytes)
    requires m <= |x| && s <= x[m..] + after + tail
    ensures if |x| - m <= |s| then s[..|x| - m] == x[m..] && x[..m] + s[..|x| - m] == x
            else x[..m] + s == x[..m + |s|] && x[m..] + after == s + (x[m + |s|..] + after)
  {
    assert x[m..] + after + tail == x[m..] + (after + tail);
    PrefixOfConcat(s, x[m..], after + tail);
    if |x| - m > |s| { assert x[m..] == s + x[m + |s|..]; }
  }

  lemma TrackData(p: Parser, args: seq<Bytes>, tail: Bytes, s: Bytes)
    requires WellFormed(p) && OnTrack(p, args) && p.state == WaitArgData
    requires s != [] && s <= Rest(p, args) + tail
    ensures StepsOnTrack(p, args, s, Step(p, s))
  {
    hide Step, Bulks, OnTrack, Rest;
    Place(p, args);
    var k := |p.args|;
    var x, m, after := args[k], |p.arg|, CRLF + Bulks(args[k + 1..]);
    AtData(p, args, k, m);
    DataSplit(x, m, after, tail, s);
    DataStep(p, s);
    if |x| - m <= |s| {
      AtCRLF(Step(p, s).parser, args, k);
    } else {
      AtData(Step(p, s).parser, args, k, m + |s|);
      DataShort(x, m, after, s);
    }
  }

  lemma DataShort(x: Bytes, m: nat, after: Bytes, s: Bytes)
    requires m + |s| < |x|
    ensures s[..|s|] == s && |s| < |x[m..] + after|
  {
  }

  lemma RestOfData(x: Bytes, m: nat, bulks: Bytes)
    requires m <= |x|
    ensures x[m..] + CRLF + bulks == x[m..] + (CRLF + bulks)
  {
  }

  lemma PrefixOfConcat(s: Bytes, left: Bytes, rest: Bytes)
    requires s <= left + rest
    ensures if |left| <= |s| then s[..|left|] == left else s == left[..|s|]
  {
  }

  lemma CRLFStep(p: Parser, s: Bytes)
    requires p.state == WaitCRLF && s != []
    ensures |s| == 1 ==> Step(p, s) == Stop(p, Partial, 0, true)
    ensures |s| >= 2 && s[..2] == CRLF ==>
              var q := p.(args := p.args + [p.arg]);
              Step(p, s) == if |q.args| == p.expected then Stop(q, Complete, 2, true) else Continue(q.(state := WaitArgSize), 2)
  {
    if |s| >= 2 { assert s[0] == s[..2][0] && s[1] == s[..2][1]; }
  }

  lemma TrackCRLF(p: Parser, args: seq<Bytes>, tail: Bytes, s: Bytes)
    requires WellFormed(p) && OnTrack(p, args) && p.state == WaitCRLF
    requires s != [] && s <= Rest(p, args) + tail
    ensures StepsOnTrack(p, args, s, Step(p, s))
  {
    hide Step, Bulks, OnTrack, Rest;
    Place(p, args);
    var k := |p.args|;
    AtCRLF(p, args, k);
    assert args[..k] + [args[k]] == args[..k + 1];
    CRLFStep(p, s);
    if |s| >= 2 {
      HeaderSplit([], Bulks(args[k + 1..]), tail, s);
      assert [] + CRLF == CRLF;
      if k + 1 == |args| {
        assert args[k + 1..] == [] && args[..k + 1] == args;
        NoBulks();
      } else {
        AtArgSize(Step(p, s).parser, args, k + 1);
      }
    } else {
      EmptyPrefix(s, Rest(p, args));
    }
  }

  lemma NoBulks()
    ensures Bulks([]) == []
  {
  }

  lemma StepOnTrack(p: Parser, args: seq<Bytes>, tail: Bytes, s: Bytes)
    requires WellFormed(p) && Encodable(args) && OnTrack(p, args)
    requires s != [] && s <= Rest(p, args) + tail
    ensures StepsOnTrack(p, args, s, Step(p, s))
  {
    hide Step, OnTrack, Rest, StepsOnTrack;
    match p.state
    case WaitType => TrackType(p, args, tail, s);
    case WaitSize => TrackSize(p, args, tail, s);
    case WaitArgSize => TrackArgSize(p, args, tail, s);
    case WaitArgData => TrackData(p, args, tail, s);
    case WaitCRLF => TrackCRLF(p, args, tail, s);
  }

  /** On any part of an encoded command, and whatever follows it: the parser completes with exactly
      the arguments and exactly at the end if the end is there, and otherwise asks for more, with
      the bytes it has not accounted for being those its state still expects. */
  lemma {:induction false} ParseOnTrack(p: Parser, args: seq<Bytes>, tail: Bytes, s: Bytes)
    requires WellFormed(p) && Encodable(args) && OnTrack(p, args) && s <= Rest(p, args) + tail
    ensures var r := Parse(p, s);
            if |Rest(p, args)| <= |s| then
              r.result == Complete && r.parser.args == args && r.boundary == |Rest(p, args)|
            else
              r.result == Partial && OnTrack(r.parser, args) &&
              Rest(p, args) == s[..r.boundary] + Rest(r.parser, args)
    decreases |s|, if p.state == WaitArgData then 1 else 0
  {
    hide Step, OnTrack, Rest;
    if s == [] {
      RestNonEmpty(p, args);
    } else {
      StepOnTrack(p, args, tail, s);
      var o := Step(p, s);
      if o.Continue? {
        var t := s[o.used..];
        assert t <= Rest(o.parser, args) + tail;
        ParseOnTrack(o.parser, args, tail, t);
        var r := Parse(o.parser, t);
        assert s[..o.used] + t[..r.boundary] == s[..o.used + r.boundary];
      }
    }
  }

  lemma RestNonEmpty(p: Parser, args: seq<Bytes>)
    requires OnTrack(p, args)
    ensures Rest(p, args) != []
  {
    if p.state == WaitArgSize {
      assert args[|p.args|..] != [];
    }
  }

  /** The parser inverts the printer, whatever bytes follow the command. */
  lemma ParseEncode(args: seq<Bytes>, tail: Bytes)
    requires Encodable(args)
    ensures var r := Parse(FRESH, Encode(args) + tail);
            r.result == Complete && r.parser.args == args && r.Consumed(0) == |Encode(args)|
  {
    ParseOnTrack(FRESH, args, tail, Encode(args) + tail);
  }

  /** Every proper prefix of a command asks for more. */
  lemma ParseProperPrefix(args: seq<Bytes>, s: Bytes)
    requires Encodable(args) && s < Encode(args)
    ensures Parse(FRESH, s).result == Partial
  {
    ParseOnTrack(FRESH, args, [], s);
  }
}
