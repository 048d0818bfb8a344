/** The parser against a reader that looks at the whole input at once: the same verdict on every
    input, well-formed or not (`src/network/resp_parser.cpp`). */
module ParserReference {
  import opened Bytes
  import opened RespParser

  // ---------------------------------------------------------------- the reader

  /** What the input is: a command and how many bytes it takes, the beginning of something, not a
      command, or one with a negative size, on which the code throws. */
  datatype Verdict = Command(args: seq<Bytes>, used: nat) | Beginning | Malformed | Negative

  /** A size and its line end: the number, and the bytes it takes. A CR that is not followed by LF
      counts as a beginning, whatever follows it. */
  datatype Size = Number(value: nat, used: nat) | NoNumber(why: Verdict)

  function SizeOf(s: Bytes): (r: Size)
    ensures r.Number? ==> 0 < r.used <= |s|
  {
    var e := FirstCR(s);
    if e == |s| then NoNumber(Beginning)
    else if Stoi(s[..e]).None? then NoNumber(Malformed)
    else if e + 1 == |s| || s[e + 1] != 10 then NoNumber(Beginning)
    else if Stoi(s[..e]).value < 0 then NoNumber(Negative)
    else Number(Stoi(s[..e]).value, e + 2)
  }

  /** What follows `n` bytes of a command. */
  function After(n: nat, v: Verdict): Verdict {
    if v.Command? then v.(used := n + v.used) else v
  }

  /** The arguments to come after those in `got`; a command of no arguments never ends. */
  function ArgumentsOf(n: nat, got: seq<Bytes>, s: Bytes): Verdict
    decreases |s|, 1
  {
    if s == [] then Beginning
    else if s[0] != 36 then Malformed
    else
      var size := SizeOf(s[1..]);
      if size.NoNumber? then size.why
      else After(1 + size.used, DataOf(n, got, size.value, s[1 + size.used..]))
  }

  /** An argument of `len` bytes, its line end, and the arguments after it. */
  function DataOf(n: nat, got: seq<Bytes>, len: nat, s: Bytes): Verdict
    decreases |s|, 0
  {
    if |s| < len + 2 then Beginning
    else if s[len] != 13 || s[len + 1] != 10 then Malformed
    else if |got| + 1 == n then Command(got + [s[..len]], len + 2)
    else After(len + 2, ArgumentsOf(n, got + [s[..len]], s[len + 2..]))
  }

  function Recognise(s: Bytes): Verdict {
    if s == [] then Beginning
    else if s[0] != 42 then Malformed
    else
      var size := SizeOf(s[1..]);
      if size.NoNumber? then size.why
      else After(1 + size.used, ArgumentsOf(size.value, [], s[1 + size.used..]))
  }

  // ---------------------------------------------------------------- the parser says the same

  predicate Agrees(r: Run, v: Verdict) {
    match v
    case Command(args, used) => r.result == Complete && r.parser.args == args && r.boundary == used
    case Beginning => r.result == Partial
    case Malformed => r.result == Error
    case Negative => r.result == Thrown
  }

  lemma ShiftAgrees(r: Run, v: Verdict, n: nat)
    requires Agrees(r, v)
    ensures Agrees(r.Shift(n), After(n, v))
  {
  }

  lemma Once(p: Parser, s: Bytes)
    requires WellFormed(p)
    ensures s == [] ==> Parse(p, s).result == Partial
    ensures s != [] && Step(p, s).Stop? ==>
              var o := Step(p, s); Parse(p, s).result == o.result && Parse(p, s).parser == o.parser && Parse(p, s).boundary == o.used
    ensures s != [] && Step(p, s).Continue? ==>
              var o := Step(p, s); Parse(p, s) == Parse(o.parser, s[o.used..]).Shift(o.used)
  {
    hide Step;
  }

  lemma TakesData(p: Parser, s: Bytes)
    requires WellFormed(p) && p.state == WaitArgData && p.arg == []
    ensures if |s| < p.argLen || s == [] then Parse(p, s).result == Partial
            else Parse(p, s) == Parse(p.(arg := s[..p.argLen], state := WaitCRLF), s[p.argLen..]).Shift(p.argLen)
  {
    hide Parse, ReadHeader;
    Once(p, s);
    if p.argLen <= |s| { assert [] + s[..p.argLen] == s[..p.argLen]; }
  }

  lemma TakesLineEnd(p: Parser, s: Bytes)
    requires p.state == WaitCRLF
    ensures var q, r := p.(args := p.args + [p.arg]), Parse(p, s);
            if |s| < 2 then r.result == Partial
            else if s[0] != 13 || s[1] != 10 then r.result == Error
            else if |q.args| == p.expected then r.result == Complete && r.parser == q && r.boundary == 2
            else r == Parse(q.(state := WaitArgSize), s[2..]).Shift(2)
  {
    hide Parse, ReadHeader;
    Once(p, s);
  }

  lemma Slices(s: Bytes, i: nat)
    requires i <= |s|
    ensures |s[i..]| == |s| - i && (i + 2 <= |s| ==> s[i..][0] == s[i] && s[i..][1] == s[i + 1] && s[i..][2..] == s[i + 2..])
  {
  }

  lemma ShiftTwice(r: Run, i: nat, j: nat)
    ensures r.Shift(i).Shift(j) == r.Shift(i + j)
  {
  }

  /** The data of an argument and its line end. */
  lemma TakesArgument(p: Parser, s: Bytes)
    requires WellFormed(p) && p.state == WaitArgData && p.arg == []
    ensures var len, r := p.argLen, Parse(p, s);
            if |s| < len + 2 then r.result == Partial
            else if s[len] != 13 || s[len + 1] != 10 then r.result == Error
            else
              var q := p.(arg := s[..len], args := p.args + [s[..len]]);
              if |q.args| == p.expected then r.result == Complete && r.parser.args == q.args && r.boundary == len + 2
              else r == Parse(q.(state := WaitArgSize), s[len + 2..]).Shift(len + 2)
  {
    hide Parse, Step;
    TakesData(p, s);
    if p.argLen <= |s| && s != [] {
      var q := p.(arg := s[..p.argLen], state := WaitCRLF);
      TakesLineEnd(q, s[p.argLen..]);
      Slices(s, p.argLen);
      if |s| >= p.argLen + 2 {
        ShiftTwice(Parse(q.(args := p.args + [q.arg], state := WaitArgSize), s[p.argLen + 2..]), 2, p.argLen);
      }
    }
  }

  ghost predicate SameSize(h: Header, r: Size) {
    if r.Number? then h == Sized(r.value, r.used)
    else if r.why == Beginning then h.Open? || h.Split?
    else if r.why == Malformed then h.Bad?
    else r.why == Negative && h.Sized? && h.size < 0
  }

  lemma HeaderAgrees(s: Bytes)
    ensures SameSize(ReadHeader(s), SizeOf(s))
  {
    hide Stoi, FirstCR;
  }

  lemma TakesSize(p: Parser, s: Bytes)
    requires p.state == WaitArgSize && s != []
    ensures var r, size := Parse(p, s), SizeOf(s[1..]);
            if s[0] != 36 then r.result == Error
            else if size.NoNumber? then Agrees(r, size.why)
            else r == Parse(p.(argLen := size.value, arg := [], state := WaitArgData), s[1 + size.used..]).Shift(1 + size.used)
  {
    hide Parse, ReadHeader, SizeOf;
    Once(p, s);
    HeaderAgrees(s[1..]);
  }

  lemma TakesCount(s: Bytes)
    requires s != []
    ensures var r, size := Parse(FRESH, s), SizeOf(s[1..]);
            if s[0] != 42 then r.result == Error
            else if size.NoNumber? then Agrees(r, size.why)
            else r == Parse(FRESH.(expected := size.value, state := WaitArgSize), s[1 + size.used..]).Shift(1 + size.used)
  {
    hide Parse, ReadHeader, SizeOf;
    Once(FRESH, s);
    if s[0] == 42 {
      Once(FRESH.(state := WaitSize), s[1..]);
      HeaderAgrees(s[1..]);
      NoBytes(s[1..]);
      var size := SizeOf(s[1..]);
      if size.Number? {
        assert s[1..][size.used..] == s[1 + size.used..];
        ShiftTwice(Parse(FRESH.(expected := size.value, state := WaitArgSize), s[1 + size.used..]), size.used, 1);
      }
    }
  }

  lemma NoBytes(s: Bytes)
    ensures s == [] ==> SizeOf(s) == NoNumber(Beginning)
  {
  }

  lemma {:induction false} DataAgrees(p: Parser, s: Bytes)
    requires WellFormed(p) && p.state == WaitArgData && p.arg == [] && p.expected >= 0
    ensures Agrees(Parse(p, s), DataOf(p.expected, p.args, p.argLen, s))
    decreases |s|, 0
  {
    hide Parse, ArgumentsOf;
    var len := p.argLen;
    TakesArgument(p, s);
    if |s| >= len + 2 {
      var q := p.(arg := s[..len], args := p.args + [s[..len]], state := WaitArgSize);
      ArgumentsAgree(q, s[len + 2..]);
      ShiftAgrees(Parse(q, s[len + 2..]), ArgumentsOf(p.expected, q.args, s[len + 2..]), len + 2);
    }
  }

  /** From any point between two arguments on, the parser says what the reader says. */
  lemma {:induction false} ArgumentsAgree(p: Parser, s: Bytes)
    requires p.state == WaitArgSize && p.expected >= 0
    ensures Agrees(Parse(p, s), ArgumentsOf(p.expected, p.args, s))
    decreases |s|, 1
  {
    hide Parse, SizeOf, DataOf, Step;
    Once(p, s);
    if s != [] {
      TakesSize(p, s);
      var size := SizeOf(s[1..]);
      if s[0] == 36 && size.Number? {
        var q, rest := p.(argLen := size.value, arg := [], state := WaitArgData), s[1 + size.used..];
        DataAgrees(q, rest);
        ShiftAgrees(Parse(q, rest), DataOf(p.expected, p.args, size.value, rest), 1 + size.used);
      }
    }
  }

  /** On every input the parser gives the verdict of the reader: the same arguments and the same
      number of bytes for a command, an error for what is malformed, and so on. */
  lemma ParserRecognises(s: Bytes)
    ensures Agrees(Parse(FRESH, s), Recognise(s))
  {
    hide Parse, SizeOf, ArgumentsOf, Step;
    Once(FRESH, s);
    if s != [] {
      TakesCount(s);
      var size := SizeOf(s[1..]);
      if s[0] == 42 && size.Number? {
        var p, rest := FRESH.(expected := size.value, state := WaitArgSize), s[1 + size.used..];
        ArgumentsAgree(p, rest);
        ShiftAgrees(Parse(p, rest), ArgumentsOf(size.value, [], rest), 1 + size.used);
      }
    }
  }
}
