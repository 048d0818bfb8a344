/** Key routing (`src/core/router.cpp`): 32-bit FNV-1a (section 2 of draft-eastlake-fnv) onto a ring
    of virtual nodes, looked up by clockwise successor. */
module Router {
  import opened Bytes

  const FNV_OFFSET: nat := 2166136261
  const FNV_PRIME: nat := 16777619
  /** The inverse of the prime modulo 2^32. */
  const FNV_INVERSE: nat := 899433627
  const VIRTUAL_NODES: nat := 100

  // ---------------------------------------------------------------- FNV-1a

  function Pow2(n: nat): (r: nat)
    ensures r > 0
  {
    if n == 0 then 1 else 2 * Pow2(n - 1)
  }

  /** Exclusive or of the low `n` bits. */
  function Xor(a: nat, b: nat, n: nat): (r: nat)
    ensures r < Pow2(n)
  {
    if n == 0 then 0 else 2 * Xor(a / 2, b / 2, n - 1) + (if a % 2 == b % 2 then 0 else 1)
  }

  /** `hash ^= (uint8_t)c`: only the low byte changes. */
  function XorByte(h: nat, c: uint8): (r: nat)
    requires h < TWO_32
    ensures r < TWO_32
  {
    assert Pow2(8) == 256;
    h - h % 256 + Xor(h % 256, c as nat, 8)
  }

  function FnvStep(h: nat, c: uint8): (r: nat)
    requires h < TWO_32
    ensures r < TWO_32
  {
    XorByte(h, c) * FNV_PRIME % TWO_32
  }

  function FnvFrom(h: nat, key: Bytes): (r: nat)
    requires h < TWO_32
    ensures r < TWO_32
    decreases |key|
  {
    if key == [] then h else FnvFrom(FnvStep(h, key[0]), key[1..])
  }

  function Fnv(key: Bytes): (r: nat)
    ensures r < TWO_32
  {
    FnvFrom(FNV_OFFSET, key)
  }

  /** Bit `i` of a number. */
  function Bit(a: nat, i: nat): nat {
    if i == 0 then a % 2 else Bit(a / 2, i - 1)
  }

  /** A bit of the exclusive or is set exactly if the two numbers differ in it. */
  lemma {:induction false} XorBits(a: nat, b: nat, n: nat, i: nat)
    requires i < n
    ensures Bit(Xor(a, b, n), i) == if Bit(a, i) == Bit(b, i) then 0 else 1
  {
    assert Xor(a, b, n) / 2 == Xor(a / 2, b / 2, n - 1);
    if i > 0 { XorBits(a / 2, b / 2, n - 1, i - 1); }
  }

  lemma {:induction false} XorZero(a: nat, n: nat)
    ensures Xor(a, 0, n) == a % Pow2(n)
  {
    if n > 0 {
      XorZero(a / 2, n - 1);
      HalfMod(a, Pow2(n - 1));
    }
  }

  lemma HalfMod(a: nat, p: nat)
    requires p > 0
    ensures a % (2 * p) == 2 * (a / 2 % p) + a % 2
  {
    var q, r := a / 2 / p, a / 2 % p;
    assert a == 2 * (p * q + r) + a % 2;
    assert a == (2 * p) * q + (2 * r + a % 2);
    Remainder(a, 2 * p, q, 2 * r + a % 2);
  }

  lemma Remainder(a: nat, m: nat, q: nat, r: nat)
    requires r < m && a == m * q + r
    ensures a % m == r
  {
    var d := a / m - q;
    assert m * d == r - a % m;
    assert d >= 1 ==> m * d >= m;
    assert d <= -1 ==> m * d + m <= 0;
  }

  /** The bits of a number put together from high and low ones. */
  lemma {:induction false} JoinedBits(q: nat, x: nat, n: nat, i: nat)
    requires x < Pow2(n)
    ensures Bit(Pow2(n) * q + x, i) == if i < n then Bit(x, i) else Bit(q, i - n)
  {
    if n > 0 {
      var half := Pow2(n - 1) * q;
      assert Pow2(n) * q == 2 * half;
      if i > 0 {
        assert (2 * half + x) / 2 == half + x / 2;
        JoinedBits(q, x / 2, n - 1, i - 1);
      }
    }
  }

  lemma {:induction false} NoBits(i: nat)
    ensures Bit(0, i) == 0
  {
    if i > 0 { NoBits(i - 1); }
  }

  lemma {:induction false} BitIsBit(a: nat, i: nat)
    ensures Bit(a, i) < 2
  {
    if i > 0 { BitIsBit(a / 2, i - 1); }
  }

  /** `^=` with a byte is the exclusive or of all the bits. */
  lemma XorByteBits(h: nat, c: uint8, i: nat)
    requires h < TWO_32
    ensures Bit(XorByte(h, c), i) == if Bit(h, i) == Bit(c as nat, i) then 0 else 1
  {
    assert Pow2(8) == 256;
    hide Xor, Pow2, Bit;
    var q, x := h / 256, Xor(h % 256, c as nat, 8);
    assert h == Pow2(8) * q + h % 256 && XorByte(h, c) == Pow2(8) * q + x;
    JoinedBits(q, h % 256, 8, i);
    JoinedBits(q, x, 8, i);
    JoinedBits(0, c as nat, 8, i);
    assert Pow2(8) * 0 + c as nat == c as nat;
    if i < 8 {
      XorBits(h % 256, c as nat, 8, i);
    } else {
      NoBits(i - 8);
      BitIsBit(q, i - 8);
    }
  }

  lemma XorNext(a: nat, b: nat, n: nat, c: nat, d: nat)
    requires n > 0 && c == a / 2 && d == b / 2
    ensures Xor(a, b, n) == 2 * Xor(c, d, n - 1) + (if a % 2 == b % 2 then 0 else 1)
    ensures Xor(0, 0, 0) == 0
  {
  }

  lemma XorOf197And97()
    ensures Xor(197, 97, 8) == 164
  {
    hide Xor;
    XorNext(1, 0, 1, 0, 0);
    XorNext(3, 1, 2, 1, 0);
    XorNext(6, 3, 3, 3, 1);
    XorNext(12, 6, 4, 6, 3);
    XorNext(24, 12, 5, 12, 6);
    XorNext(49, 24, 6, 24, 12);
    XorNext(98, 48, 7, 49, 24);
    XorNext(197, 97, 8, 98, 48);
  }

  lemma XorOf197And102()
    ensures Xor(197, 102, 8) == 163
  {
    hide Xor;
    XorNext(1, 0, 1, 0, 0);
    XorNext(3, 1, 2, 1, 0);
    XorNext(6, 3, 3, 3, 1);
    XorNext(12, 6, 4, 6, 3);
    XorNext(24, 12, 5, 12, 6);
    XorNext(49, 25, 6, 24, 12);
    XorNext(98, 51, 7, 49, 25);
    XorNext(197, 102, 8, 98, 51);
  }

  lemma XorOf153And111()
    ensures Xor(153, 111, 8) == 246
  {
    hide Xor;
    XorNext(1, 0, 1, 0, 0);
    XorNext(2, 1, 2, 1, 0);
    XorNext(4, 3, 3, 2, 1);
    XorNext(9, 6, 4, 4, 3);
    XorNext(19, 13, 5, 9, 6);
    XorNext(38, 27, 6, 19, 13);
    XorNext(76, 55, 7, 38, 27);
    XorNext(153, 111, 8, 76, 55);
  }

  /** One step, with the remainders given by their quotients. */
  lemma StepIs(high: nat, low: nat, c: uint8, q: nat, g: nat)
    requires low < 256 && 256 * high + low < TWO_32 && g < TWO_32
    requires (256 * high + Xor(low, c as nat, 8)) * 16777619 == q * 0x1_0000_0000 + g
    ensures FnvStep(256 * high + low, c) == g
  {
    hide Xor;
    LowByte(high, low);
    var x := 256 * high + Xor(low, c as nat, 8);
    assert XorByte(256 * high + low, c) == x;
    hide XorByte;
    Remainder(x * 16777619, 0x1_0000_0000, q, g);
  }

  lemma FnvNext(key: Bytes, i: nat, high: nat, low: nat, c: uint8, q: nat, g: nat)
    requires i < |key| && key[i] == c && low < 256 && 256 * high + low < TWO_32 && g < TWO_32
    requires (256 * high + Xor(low, c as nat, 8)) * 16777619 == q * 0x1_0000_0000 + g
    ensures FnvFrom(256 * high + low, key[i..]) == FnvFrom(g, key[i + 1..])
  {
    hide Xor, FnvStep;
    StepIs(high, low, c, q, g);
    assert key[i..][1..] == key[i + 1..];
  }

  lemma FnvWhole(key: Bytes, h: nat)
    requires h < TWO_32
    ensures key[0..] == key && FnvFrom(h, key[|key|..]) == h
  {
  }

  lemma FnvOfA(key: Bytes)
    requires |key| == 1 && key[0] == 97
    ensures Fnv(key) == 0xE40C292C
  {
    hide Xor, FnvFrom, Fnv;
    FnvIs(key);
    XorOf197And97();
    FnvWhole(key, 0xE40C292C);
    FnvNext(key, 0, 8461469, 197, 97, 8461672, 3826002220);
  }

  lemma FnvOfFo(key: Bytes)
    requires |key| == 2 && key[0] == 102 && key[1] == 111
    ensures Fnv(key) == 0x6222E842
  {
    hide Xor, FnvFrom, Fnv;
    FnvIs(key);
    XorOf197And102();
    XorOf153And111();
    FnvWhole(key, 0x6222E842);
    FnvNext(key, 0, 8461469, 197, 102, 8461672, 3809224601);
    FnvNext(key, 1, 14879783, 153, 111, 14880141, 1646454850);
  }

  /** The published FNV-1a values of the empty string, "a" and "fo". */
  lemma FnvVectors()
    ensures Fnv([]) == 2166136261
    ensures Fnv(Ascii("a")) == 0xE40C292C
    ensures Fnv(Ascii("fo")) == 0x6222E842
  {
    hide FnvFrom, Fnv;
    FnvIs([]);
    FnvWhole([], 2166136261);
    FnvOfA(Ascii("a"));
    FnvOfFo(Ascii("fo"));
  }

  lemma FnvIs(key: Bytes)
    ensures Fnv(key) == FnvFrom(2166136261, key)
  {
  }

  lemma XorSplit(a: nat, b: nat, n: nat)
    requires n > 0
    ensures Xor(a, b, n) / 2 == Xor(a / 2, b / 2, n - 1)
    ensures Xor(a, b, n) % 2 == if a % 2 == b % 2 then 0 else 1
  {
  }

  lemma {:induction false} XorUndoes(a: nat, b: nat, n: nat)
    requires a < Pow2(n)
    ensures Xor(Xor(a, b, n), b, n) == a
  {
    if n > 0 {
      XorSplit(a, b, n);
      XorSplit(Xor(a, b, n), b, n);
      hide Xor;
      XorUndoes(a / 2, b / 2, n - 1);
    }
  }

  lemma {:induction false} XorSeparates(a: nat, b: nat, c: nat, n: nat)
    requires b < Pow2(n) && c < Pow2(n) && Xor(a, b, n) == Xor(a, c, n)
    ensures b == c
  {
    if n > 0 {
      XorSeparates(a / 2, b / 2, c / 2, n - 1);
    }
  }

  /** Multiplying by the prime is undone by its inverse, because the prime is odd. */
  lemma MultiplyUndoes(x: nat)
    requires x < TWO_32
    ensures (x * FNV_PRIME % TWO_32) * FNV_INVERSE % TWO_32 == x
  {
    var u, q := x * 16777619 % 0x1_0000_0000, x * 16777619 / 0x1_0000_0000;
    assert u == x * 16777619 - q * 0x1_0000_0000;
    assert u * 899433627 == x + 0x1_0000_0000 * (x * 3513497 - q * 899433627);
    ModOfSum(x, x * 3513497 - q * 899433627);
  }

  lemma ModOfSum(x: nat, k: int)
    requires x < TWO_32
    ensures (x + TWO_32 * k) % TWO_32 == x
  {
  }

  lemma XorByteUndoes(h: nat, c: uint8)
    requires h < TWO_32
    ensures XorByte(XorByte(h, c), c) == h
  {
    assert Pow2(8) == 256;
    hide Xor, Pow2;
    var x := Xor(h % 256, c as nat, 8);
    assert XorByte(h, c) == 256 * (h / 256) + x;
    LowByte(h / 256, x);
    XorUndoes(h % 256, c as nat, 8);
  }

  lemma LowByte(q: nat, x: nat)
    requires x < 256
    ensures (256 * q + x) % 256 == x
  {
  }

  /** Each step is a permutation of the 32-bit states. */
  lemma StepInjective(g: nat, h: nat, c: uint8)
    requires g < TWO_32 && h < TWO_32 && FnvStep(g, c) == FnvStep(h, c)
    ensures g == h
  {
    assert Pow2(8) == 256;
    MultiplyUndoes(XorByte(g, c));
    MultiplyUndoes(XorByte(h, c));
    XorByteUndoes(g, c);
    XorByteUndoes(h, c);
  }

  /** Different bytes send a state to different states. */
  lemma StepSeparates(h: nat, c: uint8, d: uint8)
    requires h < TWO_32 && FnvStep(h, c) == FnvStep(h, d)
    ensures c == d
  {
    assert Pow2(8) == 256;
    MultiplyUndoes(XorByte(h, c));
    MultiplyUndoes(XorByte(h, d));
    XorSeparates(h % 256, c as nat, d as nat, 8);
  }

  lemma {:induction false} SuffixInjective(g: nat, h: nat, key: Bytes)
    requires g < TWO_32 && h < TWO_32 && FnvFrom(g, key) == FnvFrom(h, key)
    ensures g == h
    decreases |key|
  {
    if key != [] {
      SuffixInjective(FnvStep(g, key[0]), FnvStep(h, key[0]), key[1..]);
      StepInjective(g, h, key[0]);
    }
  }

  lemma {:induction false} OneByteFrom(h: nat, a: Bytes, b: Bytes, i: nat)
    requires h < TWO_32 && |a| == |b| && i < |a| && a[i] != b[i]
    requires a[..i] == b[..i] && a[i + 1..] == b[i + 1..]
    ensures FnvFrom(h, a) != FnvFrom(h, b)
    decreases |a|
  {
    if i == 0 {
      if FnvStep(h, a[0]) == FnvStep(h, b[0]) { StepSeparates(h, a[0], b[0]); }
      if FnvFrom(h, a) == FnvFrom(h, b) {
        SuffixInjective(FnvStep(h, a[0]), FnvStep(h, b[0]), a[1..]);
      }
    } else {
      assert a[..i][0] == b[..i][0];
      assert a[1..][..i - 1] == a[..i][1..] && b[1..][..i - 1] == b[..i][1..];
      assert a[1..][i..] == a[i + 1..] && b[1..][i..] == b[i + 1..];
      OneByteFrom(FnvStep(h, a[0]), a[1..], b[1..], i - 1);
    }
  }

  /** Two keys of equal length that differ in exactly one byte have different ring positions. */
  lemma OneByteSeparates(a: Bytes, b: Bytes, i: nat)
    requires |a| == |b| && i < |a| && a[i] != b[i] && a[..i] == b[..i] && a[i + 1..] == b[i + 1..]
    ensures Fnv(a) != Fnv(b)
  {
    OneByteFrom(FNV_OFFSET, a, b, i);
  }

  // ---------------------------------------------------------------- the ring

  /** The ring position of virtual node `v` of a shard. */
  function Point(shard: nat, v: nat): (p: nat)
    ensures p < TWO_32
  {
    Fnv(Ascii("SHARD-") + Dec(shard) + Ascii("-VN-") + Dec(v))
  }

  /** Ring positions to shards; a later write to the same position wins. */
  type Ring = map<nat, nat>

  function AddNodes(ring: Ring, shard: nat, count: nat): Ring {
    if count == 0 then ring else AddNodes(ring, shard, count - 1)[Point(shard, count - 1) := shard]
  }

  function RingOf(shards: nat): Ring {
    if shards == 0 then map[] else AddNodes(RingOf(shards - 1), shards - 1, VIRTUAL_NODES)
  }

  ghost predicate Least(p: nat, s: set<nat>) {
    p in s && forall q :: q in s ==> p <= q
  }

  lemma {:induction false} LeastExists(s: set<nat>)
    requires s != {}
    ensures exists p :: Least(p, s)
  {
    var x :| x in s;
    assert forall q :: q in s ==> q == x || q in s - {x};
    if s - {x} == {} {
      assert Least(x, s);
    } else {
      LeastExists(s - {x});
      var y :| Least(y, s - {x});
      assert Least(if x < y then x else y, s);
    }
  }

  ghost function Min(s: set<nat>): (p: nat)
    requires s != {}
    ensures Least(p, s)
  {
    LeastExists(s);
    var p :| Least(p, s); p
  }

  ghost function AtOrAfter(ring: Ring, h: nat): set<nat> {
    set p | p in ring && p >= h
  }

  /** `lower_bound(hash)`, or `begin()` past the end. */
  ghost function Successor(ring: Ring, h: nat): (p: nat)
    requires ring != map[]
    ensures p in ring
  {
    if AtOrAfter(ring, h) != {} then Min(AtOrAfter(ring, h))
    else
      assert exists q :: q in ring.Keys;
      Min(ring.Keys)
  }

  /** `get_shard_id`; the CRC fallback for an empty ring is outside the model (see `RingNeverEmpty`). */
  ghost function ShardId(shards: nat, key: Bytes): nat
    requires shards > 0
  {
    RingNeverEmpty(shards);
    var ring := RingOf(shards);
    ring[Successor(ring, Fnv(key))]
  }

  // ---------------------------------------------------------------- what lookup finds

  /** How far clockwise from `h` to `p`. */
  function Clockwise(h: nat, p: nat): int
    requires h < TWO_32 && p < TWO_32
  {
    if h <= p then p - h else p - h + TWO_32
  }

  ghost predicate OnRing(ring: Ring) {
    forall p :: p in ring ==> p < TWO_32
  }

  /** The nearest position clockwise from `h`. */
  ghost predicate Nearest(ring: Ring, h: nat, p: nat)
    requires OnRing(ring) && h < TWO_32
  {
    p in ring && forall q :: q in ring ==> Clockwise(h, p) <= Clockwise(h, q)
  }

  /** Lookup takes the nearest position clockwise, and there is only one. */
  lemma SuccessorIsNearest(ring: Ring, h: nat, p: nat)
    requires ring != map[] && OnRing(ring) && h < TWO_32
    ensures Nearest(ring, h, p) <==> p == Successor(ring, h)
  {
    var s := Successor(ring, h);
    assert forall q :: q in ring && q >= h ==> q in AtOrAfter(ring, h);
    assert Nearest(ring, h, s);
    if Nearest(ring, h, p) {
      assert Clockwise(h, p) == Clockwise(h, s);
    }
  }

  lemma {:induction false} AddedNodes(ring: Ring, shard: nat, count: nat)
    ensures var r := AddNodes(ring, shard, count);
            forall p :: p in r <==> p in ring || exists v :: 0 <= v < count && Point(shard, v) == p
    ensures var r := AddNodes(ring, shard, count);
            forall p :: p in r ==>
              r[p] == if exists v :: 0 <= v < count && Point(shard, v) == p then shard else ring[p]
  {
    hide Point;
    if count > 0 {
      AddedNodes(ring, shard, count - 1);
    }
  }

  lemma {:induction false} RingShape(shards: nat)
    ensures OnRing(RingOf(shards))
    ensures forall p :: p in RingOf(shards) ==> RingOf(shards)[p] < shards
    ensures shards > 0 ==> RingOf(shards) != map[]
  {
    hide Point;
    if shards > 0 {
      RingShape(shards - 1);
      AddedNodes(RingOf(shards - 1), shards - 1, VIRTUAL_NODES);
      assert Point(shards - 1, 0) in RingOf(shards);
    }
  }

  /** One of the hundred labels of a shard hashes to the position. */
  ghost predicate NodeAt(p: nat, shard: nat) {
    exists v :: 0 <= v < 100 && LabelHash(shard, v) == p
  }

  function LabelHash(shard: nat, v: nat): nat {
    Fnv(Ascii("SHARD-") + Dec(shard) + Ascii("-VN-") + Dec(v))
  }

  /** The ring has exactly the hashes of the labels; of shards that share one, the last has it. */
  lemma {:induction false} RingHolds(shards: nat, p: nat, c: nat)
    requires c < shards
    ensures p in RingOf(shards) && RingOf(shards)[p] == c <==> NodeAt(p, c) && forall d :: c < d < shards ==> !NodeAt(p, d)
  {
    hide RingOf, NodeAt;
    var last := shards - 1;
    RingNext(shards, p);
    if c < last { RingHolds(last, p, c); }
  }

  lemma RingNext(shards: nat, p: nat)
    requires shards > 0
    ensures var r, before := RingOf(shards), RingOf(shards - 1);
            && (p in r <==> p in before || NodeAt(p, shards - 1))
            && (p in r ==> r[p] == if NodeAt(p, shards - 1) then shards - 1 else before[p])
            && (p in before ==> before[p] < shards - 1)
  {
    hide AddNodes, Point, NodeAt;
    AddedNodes(RingOf(shards - 1), shards - 1, VIRTUAL_NODES);
    NodesAt(p, shards - 1);
    RingShape(shards - 1);
  }

  lemma NodesAt(p: nat, shard: nat)
    ensures NodeAt(p, shard) <==> exists v :: 0 <= v < VIRTUAL_NODES && Point(shard, v) == p
  {
    hide Fnv, Ascii, Dec;
    forall v: nat ensures Point(shard, v) == LabelHash(shard, v) {
    }
  }

  /** With at least one shard the ring has positions, so lookup never falls back to CRC. */
  lemma RingNeverEmpty(shards: nat)
    requires shards > 0
    ensures RingOf(shards) != map[]
  {
    RingShape(shards);
  }

  /** Every key has an owner among the shards. */
  lemma ShardIdInRange(shards: nat, key: Bytes)
    requires shards > 0
    ensures ShardId(shards, key) < shards
  {
    RingShape(shards);
  }

  /** A virtual node of the new shard comes no later clockwise than the key's old node. */
  ghost predicate Captured(shards: nat, key: Bytes)
    requires shards > 0
  {
    RingShape(shards);
    exists v :: 0 <= v < VIRTUAL_NODES &&
      Clockwise(Fnv(key), Point(shards, v)) <= Clockwise(Fnv(key), Successor(RingOf(shards), Fnv(key)))
  }

  /** Growing by one shard moves exactly the captured keys, and moves them to the new shard. */
  lemma MinimalMovement(shards: nat, key: Bytes)
    requires shards > 0
    ensures ShardId(shards + 1, key) == if Captured(shards, key) then shards else ShardId(shards, key)
  {
    hide Point, Fnv;
    var h := Fnv(key);
    var small, large := RingOf(shards), RingOf(shards + 1);
    RingShape(shards);
    RingShape(shards + 1);
    AddedNodes(small, shards, VIRTUAL_NODES);
    var was, now := Successor(small, h), Successor(large, h);
    SuccessorIsNearest(small, h, was);
    SuccessorIsNearest(large, h, now);
    if v :| 0 <= v < VIRTUAL_NODES && Point(shards, v) == now {
      assert was in large;
    } else {
      SuccessorIsNearest(small, h, now);
      assert forall v :: 0 <= v < VIRTUAL_NODES ==> Point(shards, v) in large;
    }
  }

  /** Growing to any larger number of shards, a key stays or moves to one of the new shards. */
  lemma {:induction false} GrowthMovesToNewShards(shards: nat, more: nat, key: Bytes)
    requires 0 < shards <= more
    ensures ShardId(more, key) == ShardId(shards, key) || shards <= ShardId(more, key)
    decreases more
  {
    if shards < more {
      hide ShardId, Captured;
      GrowthMovesToNewShards(shards, more - 1, key);
      MinimalMovement(more - 1, key);
    }
  }

  // ---------------------------------------------------------------- the class

  class Router {
    var ring: Ring
    const shards: nat

    ghost predicate Valid()
      reads this
    {
      ring == RingOf(shards)
    }

    constructor (shards: nat)
      ensures Valid() && this.shards == shards
    {
      this.shards := shards;
      this.ring := map[];
      new;
      InitializeRing();
    }

    method InitializeRing()
      modifies this`ring
      requires ring == map[]
      ensures Valid()
    {
      hide Point;
      for shard := 0 to shards
        invariant ring == RingOf(shard)
      {
        for v := 0 to VIRTUAL_NODES
          invariant ring == AddNodes(RingOf(shard), shard, v)
        {
          var hash := HashKey(Ascii("SHARD-") + Dec(shard) + Ascii("-VN-") + Dec(v));
          assert hash == Point(shard, v) by { HashIsPoint(shard, v); }
          ring := ring[hash := shard];
        }
      }
    }

    method GetShardId(key: Bytes) returns (id: nat)
      requires Valid()
      ensures shards > 0 ==> id == ShardId(shards, key)
      ensures shards == 0 ==> id == 0
    {
      if shards == 0 { return 0; }
      RingNeverEmpty(shards);
      var hash := HashKey(key);
      var after := set p | p in ring && p >= hash;
      assert after == AtOrAfter(ring, hash);
      var it: nat;
      if after != {} {
        LeastExists(after);
        it :| it in after && forall q :: q in after ==> it <= q;
        assert Least(it, after);
      } else {
        assert exists q :: q in ring.Keys;
        LeastExists(ring.Keys);
        it :| it in ring.Keys && forall q :: q in ring.Keys ==> it <= q;
        assert Least(it, ring.Keys);
      }
      assert it == Successor(ring, hash);
      return ring[it];
    }
  }

  lemma HashIsPoint(shard: nat, v: nat)
    ensures Fnv(Ascii("SHARD-") + Dec(shard) + Ascii("-VN-") + Dec(v)) == Point(shard, v)
  {
  }

  method HashKey(key: Bytes) returns (hash: nat)
    ensures hash == Fnv(key)
  {
    hash := FNV_OFFSET;
    for i := 0 to |key|
      invariant hash < TWO_32 && FnvFrom(hash, key[i..]) == Fnv(key)
    {
      assert key[i..][1..] == key[i + 1..];
      hash := XorByte(hash, key[i]);
      hash := hash * FNV_PRIME % TWO_32;
    }
  }
}
