/** The streaming RESP command parser (`src/network/resp_parser.cpp`).

    `Run` is the parser as a function of its fields and the input; `RespParser.Consume` is the
    source's loop, proved equal to it. `Encode` is the client-side printer. */
module RespParser {
  import opened Bytes

  datatype State = WaitType | WaitSize | WaitArgSize | WaitArgData | WaitCRLF

  /** `Thrown` is the `std::length_error` of `reserve` called with a negative size. */
  datatype Result = Partial | Complete | Error | Thrown

  /** The parser's fields. */
  datatype Parser = Parser(state: State, args: seq<Bytes>, expected: int, argLen: int, arg: Bytes)

  const FRESH := Parser(WaitType, [], 0, 0, [])

  ghost predicate WellFormed(p: Parser) {
    p.state == WaitArgData ==> |p.arg| <= p.argLen
  }

  /** `used` is how much of the input the new parser state accounts for; `reported` says whether
      this return path assigns `consumed` at all. */
  datatype Outcome =
    | Continue(parser: Parser, used: nat)
    | Stop(parser: Parser, result: Result, used: nat, reported: bool)

  /** The index of the first carriage return, or the length. */
  function FirstCR(s: Bytes): (e: nat)
    ensures e <= |s|
    ensures forall i :: 0 <= i < e ==> s[i] != CR
    ensures e < |s| ==> s[e] == CR
  {
    if s == [] || s[0] == CR then 0 else 1 + FirstCR(s[1..])
  }

  /** A size header from its first digit on: no CR yet, not a number, a number whose CR is not
      followed by LF, or a number and the length up to and including its CRLF. */
  datatype Header = Open | Bad | Split(size: int) | Sized(size: int, used: nat)

  function ReadHeader(s: Bytes): (h: Header)
    ensures h.Sized? ==> 2 <= h.used <= |s|
  {
    var e := FirstCR(s);
    if e == |s| then Open
    else
      match Stoi(s[..e])
      case None => Bad
      case Some(v) => if e + 1 < |s| && s[e + 1] == LF then Sized(v, e + 2) else Split(v)
  }

  /** One iteration of the loop on the input `s` not yet accounted for. */
  function Step(p: Parser, s: Bytes): (o: Outcome)
    requires WellFormed(p) && s != []
    ensures WellFormed(o.parser) && o.used <= |s|
    ensures o.Continue? && o.used == 0 ==> p.state == WaitArgData && o.parser.state == WaitCRLF
    ensures p.state !in {WaitType, WaitSize} ==>
              o.parser.expected == p.expected && o.parser.state !in {WaitType, WaitSize}
    ensures o.Stop? && o.result == Complete ==> |o.parser.args| == o.parser.expected && o.reported
  {
    match p.state
    case WaitType =>
      if s[0] != STAR then Stop(p, Error, 0, false) else Continue(p.(state := WaitSize), 1)
    case WaitSize => (
      match ReadHeader(s)
      case Open => Stop(p, Partial, 0, true)
      case Bad => Stop(p, Error, 0, false)
      case Split(v) => Stop(p.(expected := v), Partial, 0, false)
      case Sized(v, used) =>
        if v < 0 then Stop(p.(expected := v), Thrown, 0, false)
        else Continue(p.(expected := v, state := WaitArgSize), used))
    case WaitArgSize =>
      if s[0] != DOLLAR then Stop(p, Error, 0, false)
      else (
        match ReadHeader(s[1..])
        case Open => Stop(p, Partial, 0, true)
        case Bad => Stop(p, Error, 0, false)
        case Split(v) => Stop(p.(argLen := v), Partial, 0, false)
        case Sized(v, used) =>
          if v < 0 then Stop(p.(argLen := v, arg := []), Thrown, 0, false)
          else Continue(p.(argLen := v, arg := [], state := WaitArgData), 1 + used))
    case WaitArgData =>
      var needed := p.argLen - |p.arg|;
      if needed <= |s| then Continue(p.(arg := p.arg + s[..needed], state := WaitCRLF), needed)
      else Stop(p.(arg := p.arg + s), Partial, |s|, true)
    case WaitCRLF =>
      if |s| == 1 then Stop(p, Partial, 0, true)
      else if s[0] != CR || s[1] != LF then Stop(p, Error, 0, false)
      else
        var q := p.(args := p.args + [p.arg]);
        if |q.args| == p.expected then Stop(q, Complete, 2, true)
        else Continue(q.(state := WaitArgSize), 2)
  }

  /** The result of a call: `boundary` is how much input the parser state accounts for. */
  datatype Run = Run(parser: Parser, result: Result, boundary: nat, reported: bool) {
    /** What `consumed` holds afterwards when it held `before`. */
    function Consumed(before: nat): nat {
      if reported then boundary else before
    }

    function Shift(n: nat): Run {
      this.(boundary := boundary + n)
    }
  }

  /** The whole loop. WaitArgData may step without advancing, so the measure is lexicographic. */
  function Parse(p: Parser, s: Bytes): (r: Run)
    requires WellFormed(p)
    ensures WellFormed(r.parser) && r.boundary <= |s|
    ensures r.result == Complete ==> |r.parser.args| == r.parser.expected && r.reported
    ensures p.state !in {WaitType, WaitSize} ==> r.parser.expected == p.expected
    decreases |s|, if p.state == WaitArgData then 1 else 0
  {
    if s == [] then Run(p, Partial, 0, true)
    else
      match Step(p, s)
      case Continue(q, n) => Parse(q, s[n..]).Shift(n)
      case Stop(q, result, n, reported) => Run(q, result, n, reported)
  }

  class RespParser {
    var state: State
    var args: seq<Bytes>
    var expected: int
    var argLen: int
    var arg: Bytes

    ghost function Value(): Parser
      reads this
    {
      Parser(state, args, expected, argLen, arg)
    }

    constructor ()
      ensures Value() == FRESH
    {
      state, args, expected, argLen, arg := WaitType, [], 0, 0, [];
    }

    method Reset()
      modifies this
      ensures Value() == FRESH
    {
      state, args, expected, argLen, arg := WaitType, [], 0, 0, [];
    }

    /** `consume`; `before` is what the caller's `consumed` held. */
    method Consume(data: Bytes, before: nat) returns (result: Result, consumed: nat)
      requires WellFormed(Value())
      modifies this
      ensures var r := old(Parse(Value(), data));
              Value() == r.parser && result == r.result && consumed == r.Consumed(before)
    {
      hide Step;
      ghost var whole := Parse(Value(), data);
      assert data[0..] == data;
      var pos := 0;
      while pos < |data|
        invariant 0 <= pos <= |data|
        invariant WellFormed(Value()) && Parse(Value(), data[pos..]).Shift(pos) == whole
        decreases |data| - pos, if state == WaitArgData then 1 else 0
      {
        ghost var start := pos;
        var stop;
        stop, result, consumed, pos := Advance(data, pos, before);
        if stop { return; }
        assert data[start..][pos - start..] == data[pos..];
      }
      return Partial, pos;
    }

    /** The loop's `switch`: when it returns from `consume`, `stop` is set. */
    method Advance(data: Bytes, start: nat, before: nat)
      returns (stop: bool, result: Result, consumed: nat, pos: nat)
      requires WellFormed(Value()) && start < |data|
      modifies this
      ensures var o := old(Step(Value(), data[start..]));
              Value() == o.parser && stop == o.Stop? &&
              if stop then result == o.result && consumed == if o.reported then start + o.used else before
              else pos == start + o.used
    {
      stop, result, consumed, pos := true, Error, before, start;
      match state {
        case WaitType =>
          if data[pos] != STAR { return; }
          pos := pos + 1;
          state := WaitSize;
        case WaitSize =>
          var size;
          size, result, consumed, pos := ReadSize(data, start, start, before);
          if size.None? { return; }
          expected := size.value;
          if result == Partial { return; }
          if expected < 0 { return true, Thrown, before, pos; }
          state := WaitArgSize;
        case WaitArgSize =>
          if data[pos] != DOLLAR { return; }
          assert data[start..][1..] == data[start + 1..];
          var size;
          size, result, consumed, pos := ReadSize(data, start + 1, start, before);
          if size.None? { return; }
          argLen := size.value;
          if result == Partial { return; }
          arg := [];
          if argLen < 0 { return true, Thrown, before, pos; }
          state := WaitArgData;
        case WaitArgData =>
          var needed := argLen - |arg|;
          var available := |data| - pos;
          var toCopy := if needed < available then needed else available;
          arg := arg + data[pos..pos + toCopy];
          pos := pos + toCopy;
          if |arg| != argLen { return true, Partial, |data|, pos; }
          state := WaitCRLF;
        case WaitCRLF =>
          if pos + 1 >= |data| { return true, Partial, pos, pos; }
          if data[pos] != CR || data[pos + 1] != LF { return; }
          pos := pos + 2;
          args := args + [arg];
          if |args| == expected { return true, Complete, pos, pos; }
          state := WaitArgSize;
      }
      stop := false;
    }

    /** The code both size headers share. `mark` is where `consumed` goes when there is no CR yet;
        `result` is Complete once the header is read and `pos` is past it. */
    method ReadSize(data: Bytes, start: nat, mark: nat, before: nat)
      returns (size: Option<int>, result: Result, consumed: nat, pos: nat)
      requires start <= |data|
      ensures match ReadHeader(data[start..])
              case Open => size == None && result == Partial && consumed == mark
              case Bad => size == None && result == Error && consumed == before
              case Split(v) => size == Some(v) && result == Partial && consumed == before
              case Sized(v, used) => size == Some(v) && result == Complete && consumed == before && pos == start + used
    {
      hide Stoi;
      pos := start;
      while pos < |data| && data[pos] != CR
        invariant start <= pos <= |data|
        invariant FirstCR(data[start..]) == pos - start + FirstCR(data[pos..])
      {
        assert data[pos..][1..] == data[pos + 1..];
        pos := pos + 1;
      }
      if pos == |data| { return None, Partial, mark, pos; }
      assert data[start..][..pos - start] == data[start..pos];
      size := Stoi(data[start..pos]);
      if size.None? { return size, Error, before, pos; }
      if pos + 1 < |data| && data[pos + 1] == LF {
        return size, Complete, before, pos + 2;
      }
      return size, Partial, before, pos;
    }
  }
}
