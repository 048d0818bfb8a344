/** Byte strings and the number formatting and parsing the server borrows from the
    C++ library (`std::to_string`, `std::stoi`, `std::stol`). */
module Bytes {

  newtype uint8 = x: int | 0 <= x < 256

  type Bytes = seq<uint8>

  datatype Option<+T> = None | Some(value: T)

  const TWO_31: int := 0x8000_0000
  const TWO_32: int := 0x1_0000_0000
  const TWO_63: int := 0x8000_0000_0000_0000
  const TWO_64: int := 0x1_0000_0000_0000_0000

  const CR: uint8 := 13
  const LF: uint8 := 10
  const STAR: uint8 := 42
  const DOLLAR: uint8 := 36
  const CRLF: Bytes := [CR, LF]

  /** The bytes of an ASCII literal. */
  function Ascii(s: string): Bytes {
    seq(|s|, i requires 0 <= i < |s| => (s[i] as int % 256) as uint8)
  }

  predicate IsDigit(b: uint8) {
    48 <= b <= 57
  }

  /** `std::to_string` of a non-negative number. */
  function Dec(n: nat): (r: Bytes)
    ensures r != []
    ensures forall i :: 0 <= i < |r| ==> IsDigit(r[i])
  {
    if n < 10 then [(48 + n) as uint8] else Dec(n / 10) + [(48 + n % 10) as uint8]
  }

  /** `std::to_string` of any integer. */
  function DecInt(n: int): (r: Bytes)
    ensures r != []
  {
    if n < 0 then [45] + Dec(-n) else Dec(n)
  }

  /** The number a run of digits denotes. */
  function DigitsValue(ds: Bytes): nat
    requires forall i :: 0 <= i < |ds| ==> IsDigit(ds[i])
  {
    if ds == [] then 0
    else
      assert IsDigit(ds[|ds| - 1]);
      10 * DigitsValue(ds[..|ds| - 1]) + (ds[|ds| - 1] as int - 48)
  }

  predicate IsSpace(b: uint8) {
    b == 32 || 9 <= b <= 13
  }

  function SkipSpace(s: Bytes): Bytes {
    if s != [] && IsSpace(s[0]) then SkipSpace(s[1..]) else s
  }

  /** The length of the longest leading run of digits. */
  function DigitRun(s: Bytes): (n: nat)
    ensures n <= |s|
    ensures forall i :: 0 <= i < n ==> IsDigit(s[i])
    ensures n < |s| ==> !IsDigit(s[n])
  {
    if s == [] || !IsDigit(s[0]) then 0 else 1 + DigitRun(s[1..])
  }

  /** `std::stoi`/`std::stol`: leading white space, an optional sign, then digits; the rest
      is ignored. `None` is the exception thrown for no digits or a value out of range. */
  function ParseInt(s: Bytes, lo: int, hi: int): Option<int> {
    var t := SkipSpace(s);
    var signed := t != [] && (t[0] == 43 || t[0] == 45);
    var u := if signed then t[1..] else t;
    var n := DigitRun(u);
    if n == 0 then None
    else
      var m: int := DigitsValue(u[..n]);
      var v := if signed && t[0] == 45 then 0 - m else m;
      if lo <= v < hi then Some(v) else None
  }

  function Stoi(s: Bytes): Option<int> {
    ParseInt(s, -TWO_31, TWO_31)
  }

  function Stol(s: Bytes): Option<int> {
    ParseInt(s, -TWO_63, TWO_63)
  }

  lemma {:induction false} DigitsValueOfDec(n: nat)
    ensures DigitsValue(Dec(n)) == n
  {
    if n < 10 {
      assert Dec(n)[..0] == [];
    } else {
      var d := Dec(n);
      assert d[..|d| - 1] == Dec(n / 10);
      DigitsValueOfDec(n / 10);
    }
  }

  lemma DigitRunAll(s: Bytes)
    requires forall i :: 0 <= i < |s| ==> IsDigit(s[i])
    ensures DigitRun(s) == |s|
  {
  }

  /** A non-empty string of digits is read as the number it denotes. */
  lemma ParseDigits(s: Bytes, lo: int, hi: int)
    requires s != [] && forall i :: 0 <= i < |s| ==> IsDigit(s[i])
    ensures ParseInt(s, lo, hi) == if lo <= DigitsValue(s) < hi then Some(DigitsValue(s)) else None
  {
    assert IsDigit(s[0]);
    assert SkipSpace(s) == s;
    DigitRunAll(s);
    assert s[..|s|] == s;
  }

  /** Reading back what `std::to_string` printed. */
  lemma StoiOfDec(n: nat)
    requires n < TWO_31
    ensures Stoi(Dec(n)) == Some(n)
  {
    ParseDigits(Dec(n), -TWO_31, TWO_31);
    DigitsValueOfDec(n);
  }

  lemma MinusSkips(s: Bytes)
    ensures SkipSpace([45] + s) == [45] + s && ([45] + s)[1..] == s
  {
  }

  lemma ParseSigned(t: Bytes, v: int, lo: int, hi: int)
    requires SkipSpace(t) == t && t != [] && t[0] == 45 && DigitRun(t[1..]) == |t| - 1 > 0
    requires v == DigitsValue(t[1..])
    ensures ParseInt(t, lo, hi) == if lo <= 0 - v < hi then Some(0 - v) else None
  {
    hide SkipSpace, DigitRun, DigitsValue;
    assert t[1..][..|t| - 1] == t[1..];
  }

  /** A minus sign before digits negates the number they denote. */
  lemma ParseMinus(s: Bytes, v: int, lo: int, hi: int)
    requires s != [] && (forall i :: 0 <= i < |s| ==> IsDigit(s[i])) && v == DigitsValue(s)
    ensures ParseInt([45] + s, lo, hi) == if lo <= 0 - v < hi then Some(0 - v) else None
  {
    hide ParseInt, SkipSpace, DigitRun, DigitsValue;
    MinusSkips(s);
    DigitRunAll(s);
    ParseSigned([45] + s, v, lo, hi);
  }

  /** Reading back a printed number, whatever its sign. */
  lemma ParseDecInt(n: int, lo: int, hi: int)
    ensures ParseInt(DecInt(n), lo, hi) == if lo <= n < hi then Some(n) else None
  {
    hide ParseInt, Dec, DigitsValue;
    if n < 0 {
      DigitsValueOfDec(0 - n);
      ParseMinus(Dec(0 - n), 0 - n, lo, hi);
    } else {
      ParseDigits(Dec(n), lo, hi);
      DigitsValueOfDec(n);
    }
  }

  function Flatten(chunks: seq<Bytes>): Bytes {
    if chunks == [] then [] else chunks[0] + Flatten(chunks[1..])
  }

  // ---------------------------------------------------------------- lexicographic order

  /** `std::string::operator<`: bytes compared as unsigned, a proper prefix is smaller. */
  predicate Less(a: Bytes, b: Bytes) {
    b != [] && (a == [] || a[0] < b[0] || (a[0] == b[0] && Less(a[1..], b[1..])))
  }

  lemma {:induction false} LessIrreflexive(a: Bytes)
    ensures !Less(a, a)
  {
    if a != [] { LessIrreflexive(a[1..]); }
  }

  lemma {:induction false} LessTransitive(a: Bytes, b: Bytes, c: Bytes)
    requires Less(a, b) && Less(b, c)
    ensures Less(a, c)
  {
    if a != [] && a[0] == b[0] == c[0] { LessTransitive(a[1..], b[1..], c[1..]); }
  }

  lemma {:induction false} LessTotal(a: Bytes, b: Bytes)
    ensures a == b || Less(a, b) || Less(b, a)
  {
    if a != [] && b != [] && a[0] == b[0] {
      LessTotal(a[1..], b[1..]);
      assert a == [a[0]] + a[1..] && b == [b[0]] + b[1..];
    }
  }

  // ---------------------------------------------------------------- iteration order

  ghost predicate IsFirst(x: Bytes, s: set<Bytes>) {
    x in s && forall y :: y in s ==> y == x || Less(x, y)
  }

  lemma {:induction false} FirstExists(s: set<Bytes>)
    requires s != {}
    ensures exists x :: IsFirst(x, s)
  {
    var a :| a in s;
    assert forall y :: y in s ==> y == a || y in s - {a};
    if s - {a} == {} {
      assert IsFirst(a, s);
    } else {
      FirstExists(s - {a});
      var b :| IsFirst(b, s - {a});
      LessTotal(a, b);
      if Less(a, b) {
        forall y | y in s - {a} ensures Less(a, y) {
          if y != b { LessTransitive(a, b, y); }
        }
        assert IsFirst(a, s);
      } else {
        assert IsFirst(b, s);
      }
    }
  }

  ghost function First(s: set<Bytes>): (x: Bytes)
    requires s != {}
    ensures IsFirst(x, s)
  {
    FirstExists(s);
    var x :| IsFirst(x, s); x
  }

  /** The order in which `std::set` and `std::map` visit their keys. */
  ghost function InOrder(s: set<Bytes>): (r: seq<Bytes>)
    ensures |r| == |s|
    ensures forall x :: x in r <==> x in s
  {
    if s == {} then [] else [First(s)] + InOrder(s - {First(s)})
  }

  /** The visiting order is the lexicographic one, each key once. */
  lemma {:induction false} InOrderIncreasing(s: set<Bytes>)
    ensures forall i, j :: 0 <= i < j < |s| ==> Less(InOrder(s)[i], InOrder(s)[j])
  {
    hide Less;
    if s != {} {
      var x, r := First(s), InOrder(s - {First(s)});
      InOrderIncreasing(s - {x});
      assert InOrder(s) == [x] + r;
      forall i, j | 0 <= i < j < |s| ensures Less(InOrder(s)[i], InOrder(s)[j]) {
        assert InOrder(s)[j] == r[j - 1] && r[j - 1] in r;
        if i > 0 { assert InOrder(s)[i] == r[i - 1]; }
      }
    }
  }

  lemma FirstUnique(s: set<Bytes>, x: Bytes)
    requires IsFirst(x, s)
    ensures x == First(s)
  {
    var y := First(s);
    if x != y {
      LessTransitive(x, y, x);
      LessIrreflexive(x);
    }
  }

  method FindFirst(s: set<Bytes>) returns (x: Bytes)
    requires s != {}
    ensures x == First(s)
  {
    hide Less;
    assert IsFirst(First(s), s);
    x :| x in s && forall y :: y in s ==> y == x || Less(x, y);
    FirstUnique(s, x);
  }

  /** Visiting a `std::set`: the least key first. */
  method Visit(s: set<Bytes>) returns (r: seq<Bytes>)
    ensures r == InOrder(s)
  {
    hide IsFirst, First, InOrder;
    r := [];
    var rest := s;
    while rest != {}
      invariant r + InOrder(rest) == InOrder(s)
      decreases |rest|
    {
      var x := FindFirst(rest);
      InOrderStep(rest, r);
      r, rest := r + [x], rest - {x};
    }
    assert InOrder({}) == [];
    assert r + [] == r;
  }

  lemma InOrderStep(s: set<Bytes>, r: seq<Bytes>)
    requires s != {}
    ensures First(s) in s && r + InOrder(s) == (r + [First(s)]) + InOrder(s - {First(s)})
  {
  }
}
