/** The snapshot format (`src/persistence/rdb.hpp`, `src/persistence/rdb_manager.hpp`): how values
    are written and read, on little-endian hosts. */
module SnapshotFormat {
  import opened Bytes
  import opened Values

  // ---------------------------------------------------------------- fixed-size numbers

  function Pow256(k: nat): nat {
    if k == 0 then 1 else 256 * Pow256(k - 1)
  }

  /** The low `k` bytes of a number, low byte first. */
  function Word(n: nat, k: nat): (r: Bytes)
    ensures |r| == k
  {
    if k == 0 then [] else [(n % 256) as uint8] + Word(n / 256, k - 1)
  }

  function WordValue(b: Bytes): nat {
    if b == [] then 0 else b[0] as nat + 256 * WordValue(b[1..])
  }

  lemma {:induction false} WordRoundTrip(n: nat, k: nat)
    requires n < Pow256(k)
    ensures WordValue(Word(n, k)) == n
  {
    if k > 0 {
      WordRoundTrip(n / 256, k - 1);
      assert Word(n, k)[1..] == Word(n / 256, k - 1);
    }
  }

  lemma {:induction false} WordBound(b: Bytes)
    ensures WordValue(b) < Pow256(|b|)
  {
    if b != [] { WordBound(b[1..]); }
  }

  lemma Sizes()
    ensures Pow256(4) == TWO_32 && Pow256(8) == TWO_64
  {
    assert Pow256(2) == 65536;
    assert Pow256(4) == 256 * (256 * Pow256(2));
    assert Pow256(6) == 256 * (256 * Pow256(4));
  }

  /** A number cast to `uint32_t` and written. */
  function U32(n: nat): (r: Bytes)
    ensures |r| == 4
  {
    Word(n % TWO_32, 4)
  }

  /** A timestamp, in two's complement. */
  function I64(n: int): (r: Bytes)
    ensures |r| == 8
  {
    Word(n % TWO_64, 8)
  }

  function Signed(n: nat): int {
    if n < TWO_63 then n else n - TWO_64
  }

  lemma SignedRoundTrip(n: int)
    requires -TWO_63 <= n < TWO_63
    ensures Signed(n % TWO_64) == n
  {
  }

  // ---------------------------------------------------------------- reading

  /** What a read leaves, or `None` when the stream ends inside it or a score is NaN. */
  type Parsed<T> = Option<(T, Bytes)>

  function TakeWord(k: nat, s: Bytes): (r: Parsed<nat>)
    ensures r.Some? ==> |s| == k + |r.value.1| && r.value.0 < Pow256(k)
  {
    if |s| < k then None
    else
      WordBound(s[..k]);
      Some((WordValue(s[..k]), s[k..]))
  }

  lemma TakeWordOf(n: nat, k: nat, rest: Bytes)
    requires n < Pow256(k)
    ensures TakeWord(k, Word(n, k) + rest) == Some((n, rest))
  {
    WordRoundTrip(n, k);
    assert (Word(n, k) + rest)[..k] == Word(n, k);
    assert (Word(n, k) + rest)[k..] == rest;
  }

  /** `read_string`. */
  function TakeString(s: Bytes): Parsed<Bytes> {
    match TakeWord(4, s)
    case None => None
    case Some((n, rest)) => if |rest| < n then None else Some((rest[..n], rest[n..]))
  }

  function TakePair(s: Bytes): Parsed<(Bytes, Bytes)> {
    match TakeString(s)
    case None => None
    case Some((field, rest)) =>
      match TakeString(rest)
      case None => None
      case Some((value, end)) => Some(((field, value), end))
  }

  function TakeScored(s: Bytes): Parsed<ZEntry> {
    match TakeWord(8, s)
    case None => None
    case Some((score, rest)) =>
      if !IsScore(score) then None
      else
        match TakeString(rest)
        case None => None
        case Some((member, end)) => Some((ZEntry(score, member), end))
  }

  /** A counted run of items: the loop the collection readers share. */
  function TakeMany<T>(take: Bytes -> Parsed<T>, n: nat, s: Bytes): Parsed<seq<T>>
    decreases n
  {
    if n == 0 then Some(([], s))
    else
      match take(s)
      case None => None
      case Some((x, rest)) =>
        match TakeMany(take, n - 1, rest)
        case None => None
        case Some((xs, end)) => Some(([x] + xs, end))
  }

  function TakeAll<T>(take: Bytes -> Parsed<T>, s: Bytes): Parsed<seq<T>> {
    match TakeWord(4, s)
    case None => None
    case Some((n, rest)) => TakeMany(take, n, rest)
  }

  // ---------------------------------------------------------------- writing

  /** `write_string`: the length is cut to 32 bits, and that many bytes follow. */
  function String(s: Bytes): Bytes {
    U32(|s|) + s[..|s| % TWO_32]
  }

  function Pair(p: (Bytes, Bytes)): Bytes {
    String(p.0) + String(p.1)
  }

  function Scored(e: ZEntry): Bytes {
    Word(e.score, 8) + String(e.member)
  }

  function Join<T>(show: T -> Bytes, xs: seq<T>): Bytes {
    if xs == [] then [] else show(xs[0]) + Join(show, xs[1..])
  }

  function Counted<T>(show: T -> Bytes, xs: seq<T>): Bytes {
    U32(|xs|) + Join(show, xs)
  }

  // ---------------------------------------------------------------- reading back what was written

  /** Reading an item just written gives it back and leaves what follows. */
  ghost predicate Inverts<T(!new)>(take: Bytes -> Parsed<T>, show: T -> Bytes, x: T) {
    forall rest: Bytes :: take(show(x) + rest) == Some((x, rest))
  }

  /** Whatever is read took as many bytes as writing it would. */
  ghost predicate Exact<T(!new)>(take: Bytes -> Parsed<T>, show: T -> Bytes) {
    forall s: Bytes :: take(s).Some? ==> |s| == |show(take(s).value.0)| + |take(s).value.1|
  }

  ghost predicate Short(s: Bytes) {
    |s| < TWO_32
  }

  lemma ConcatAssoc(a: Bytes, b: Bytes, c: Bytes)
    ensures (a + b) + c == a + (b + c)
  {
  }

  lemma StringInverts(x: Bytes)
    requires Short(x)
    ensures Inverts(TakeString, String, x)
  {
    forall rest: Bytes ensures TakeString(String(x) + rest) == Some((x, rest)) {
      Sizes();
      assert x[..|x|] == x;
      ConcatAssoc(U32(|x|), x, rest);
      TakeWordOf(|x|, 4, x + rest);
      assert (x + rest)[..|x|] == x && (x + rest)[|x|..] == rest;
    }
  }

  lemma PairInverts(p: (Bytes, Bytes))
    requires Short(p.0) && Short(p.1)
    ensures Inverts(TakePair, Pair, p)
  {
    hide String, TakeString;
    StringInverts(p.0);
    StringInverts(p.1);
    forall rest: Bytes ensures TakePair(Pair(p) + rest) == Some((p, rest)) {
      ConcatAssoc(String(p.0), String(p.1), rest);
    }
  }

  lemma ScoredInverts(e: ZEntry)
    requires Short(e.member)
    ensures Inverts(TakeScored, Scored, e)
  {
    hide String, TakeString, TakeWord, Word;
    StringInverts(e.member);
    Sizes();
    forall rest: Bytes ensures TakeScored(Scored(e) + rest) == Some((e, rest)) {
      ConcatAssoc(Word(e.score, 8), String(e.member), rest);
      TakeWordOf(e.score, 8, String(e.member) + rest);
    }
  }

  lemma {:induction false} JoinInverts<T(!new)>(take: Bytes -> Parsed<T>, show: T -> Bytes, xs: seq<T>, rest: Bytes)
    requires forall x :: x in xs ==> Inverts(take, show, x)
    ensures TakeMany(take, |xs|, Join(show, xs) + rest) == Some((xs, rest))
  {
    if xs == [] {
      assert [] + rest == rest;
    } else {
      var x, tail := xs[0], xs[1..];
      assert x in xs && forall y :: y in tail ==> y in xs;
      ConcatAssoc(show(x), Join(show, tail), rest);
      assert take(show(x) + (Join(show, tail) + rest)) == Some((x, Join(show, tail) + rest));
      JoinInverts(take, show, tail, rest);
      assert [x] + tail == xs;
    }
  }

  lemma CountedInverts<T(!new)>(take: Bytes -> Parsed<T>, show: T -> Bytes, xs: seq<T>, rest: Bytes)
    requires |xs| < TWO_32 && forall x :: x in xs ==> Inverts(take, show, x)
    ensures TakeAll(take, Counted(show, xs) + rest) == Some((xs, rest))
  {
    hide Inverts, Word, TakeWord, TakeMany, Join, Pow256;
    Sizes();
    ConcatAssoc(U32(|xs|), Join(show, xs), rest);
    TakeWordOf(|xs|, 4, Join(show, xs) + rest);
    JoinInverts(take, show, xs, rest);
  }

  // ---------------------------------------------------------------- sizes of what is read

  lemma TakenStringSize()
    ensures Exact(TakeString, String)
  {
    forall s: Bytes | TakeString(s).Some? ensures |s| == |String(TakeString(s).value.0)| + |TakeString(s).value.1| {
      Sizes();
    }
  }

  lemma TakenPairSize()
    ensures Exact(TakePair, Pair)
  {
    hide String, TakeString;
    TakenStringSize();
  }

  lemma TakenScoredSize()
    ensures Exact(TakeScored, Scored)
  {
    hide String, TakeString;
    TakenStringSize();
  }

  lemma {:induction false} TakenManySize<T(!new)>(take: Bytes -> Parsed<T>, show: T -> Bytes, n: nat, s: Bytes)
    requires Exact(take, show) && TakeMany(take, n, s).Some?
    ensures var (xs, rest) := TakeMany(take, n, s).value;
            |xs| == n && |s| == |Join(show, xs)| + |rest|
    decreases n
  {
    if n > 0 {
      var (x, rest) := take(s).value;
      TakenManySize(take, show, n - 1, rest);
      var (xs, end) := TakeMany(take, n - 1, rest).value;
      assert ([x] + xs)[1..] == xs;
    }
  }

  lemma TakenAllSize<T(!new)>(take: Bytes -> Parsed<T>, show: T -> Bytes, s: Bytes)
    requires Exact(take, show) && TakeAll(take, s).Some?
    ensures var (xs, rest) := TakeAll(take, s).value;
            |xs| < TWO_32 && |s| == |Counted(show, xs)| + |rest|
  {
    hide Exact;
    Sizes();
    var (n, rest) := TakeWord(4, s).value;
    TakenManySize(take, show, n, rest);
  }
}
