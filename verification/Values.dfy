/** Stored values (`src/storage/value.hpp`), and the sorted set's two indexes. */
module Values {
  import opened Bytes

  /** The pattern of infinity; above it, the sign aside, are the NaNs. */
  const INFINITY: nat := 0x7FF0_0000_0000_0000

  predicate IsScore(s: nat) {
    s < TWO_64 && s % TWO_63 <= INFINITY
  }

  /** A double other than NaN, as its 64-bit pattern. */
  type Score = s: nat | IsScore(s) witness 0

  /** Doubles compare as their sign-magnitude patterns do; the two zeros compare equal. */
  function Rank(s: Score): int {
    if s < TWO_63 then s else TWO_63 - s
  }

  datatype ZEntry = ZEntry(score: Score, member: Bytes)

  /** `ZSetEntry::operator<`. */
  predicate ZLess(a: ZEntry, b: ZEntry) {
    if Rank(a.score) != Rank(b.score) then Rank(a.score) < Rank(b.score) else Less(a.member, b.member)
  }

  /** Equivalence under `operator<`, which is what `std::set` goes by. */
  predicate ZSame(a: ZEntry, b: ZEntry) {
    Rank(a.score) == Rank(b.score) && a.member == b.member
  }

  /** `tree` is the `std::set` in iteration order; `dict` maps members to scores. */
  datatype ZSet = ZSet(tree: seq<ZEntry>, dict: map<Bytes, Score>)

  datatype Value =
    | Nothing
    | Str(str: Bytes)
    | List(items: seq<Bytes>)
    | Set(members: set<Bytes>)
    | Hash(fields: map<Bytes, Bytes>)
    | Sorted(zset: ZSet)

  /** What a shard keeps under one key: the table's value and the expiry side map's timestamp. */
  datatype Slot = Slot(value: Option<Value>, expiry: Option<int>)

  const EMPTY_SLOT := Slot(None, None)

  // ---------------------------------------------------------------- the entry order

  lemma ZLessTotal(a: ZEntry, b: ZEntry)
    ensures ZSame(a, b) || ZLess(a, b) || ZLess(b, a)
  {
    LessTotal(a.member, b.member);
  }

  lemma ZLessTransitive(a: ZEntry, b: ZEntry, c: ZEntry)
    requires ZLess(a, b) && ZLess(b, c)
    ensures ZLess(a, c)
  {
    if Rank(a.score) == Rank(b.score) == Rank(c.score) {
      LessTransitive(a.member, b.member, c.member);
    }
  }

  lemma ZLessApart(a: ZEntry, b: ZEntry)
    requires ZLess(a, b)
    ensures !ZLess(b, a) && !ZSame(a, b)
  {
    if Rank(a.score) == Rank(b.score) {
      if Less(b.member, a.member) { LessTransitive(a.member, b.member, a.member); }
      LessIrreflexive(a.member);
    }
  }

  // ---------------------------------------------------------------- the tree

  /** Strictly increasing, so no two entries are equivalent. */
  ghost predicate Increasing(tree: seq<ZEntry>) {
    forall i, j :: 0 <= i < j < |tree| ==> ZLess(tree[i], tree[j])
  }

  /** `std::set::insert`: no effect when an equivalent entry is there. */
  function TreeInsert(tree: seq<ZEntry>, e: ZEntry): seq<ZEntry> {
    if tree == [] then [e]
    else if ZSame(tree[0], e) then tree
    else if ZLess(e, tree[0]) then [e] + tree
    else [tree[0]] + TreeInsert(tree[1..], e)
  }

  /** `std::set::erase` by key: removes the equivalent entry, if any. */
  function TreeErase(tree: seq<ZEntry>, e: ZEntry): seq<ZEntry> {
    if tree == [] then []
    else if ZSame(tree[0], e) then tree[1..]
    else [tree[0]] + TreeErase(tree[1..], e)
  }

  lemma {:induction false} TreeInsertAdds(tree: seq<ZEntry>, e: ZEntry)
    requires Increasing(tree) && forall x :: x in tree ==> !ZSame(x, e)
    ensures Increasing(TreeInsert(tree, e))
    ensures forall x :: x in TreeInsert(tree, e) <==> x == e || x in tree
    ensures |TreeInsert(tree, e)| == |tree| + 1
  {
    if tree != [] {
      var h, t := tree[0], tree[1..];
      assert h in tree;
      assert forall x :: x in t ==> x in tree;
      ZLessTotal(e, h);
      if ZLess(e, h) {
        forall x | x in t ensures ZLess(e, x) { ZLessTransitive(e, h, x); }
      } else {
        TreeInsertAdds(t, e);
        var u := TreeInsert(t, e);
        forall j | 0 <= j < |u| ensures ZLess(h, u[j]) {
          assert u[j] in u;
        }
      }
    }
  }

  lemma {:induction false} TreeEraseRemoves(tree: seq<ZEntry>, e: ZEntry)
    requires Increasing(tree)
    ensures Increasing(TreeErase(tree, e))
    ensures forall x :: x in TreeErase(tree, e) <==> x in tree && !ZSame(x, e)
  {
    if tree != [] {
      var h, t := tree[0], tree[1..];
      assert forall x :: x in tree <==> x == h || x in t;
      if ZSame(h, e) {
        forall x | x in t ensures !ZSame(x, e) {
          ZLessApart(h, x);
        }
      } else {
        TreeEraseRemoves(t, e);
        var u := TreeErase(t, e);
        forall j | 0 <= j < |u| ensures ZLess(h, u[j]) {
          assert u[j] in u;
        }
      }
    }
  }

  // ---------------------------------------------------------------- the two indexes

  function ZInsert(z: ZSet, e: ZEntry): ZSet {
    var tree := if e.member in z.dict then TreeErase(z.tree, ZEntry(z.dict[e.member], e.member)) else z.tree;
    ZSet(TreeInsert(tree, e), z.dict[e.member := e.score])
  }

  function ZErase(z: ZSet, member: Bytes): ZSet {
    if member in z.dict
    then ZSet(TreeErase(z.tree, ZEntry(z.dict[member], member)), z.dict - {member})
    else z
  }

  const EMPTY_ZSET := ZSet([], map[])

  /** The tree is exactly the dictionary's (score, member) pairs, in order. */
  ghost predicate Indexed(z: ZSet) {
    Increasing(z.tree) && forall e :: e in z.tree <==> e.member in z.dict && z.dict[e.member] == e.score
  }

  lemma EmptyIndexed()
    ensures Indexed(EMPTY_ZSET)
  {
  }

  /** Insert keeps the indexes in agreement, whether the member is new or changes score. */
  lemma InsertIndexed(z: ZSet, e: ZEntry)
    requires Indexed(z)
    ensures Indexed(ZInsert(z, e))
  {
    if e.member in z.dict {
      TreeEraseRemoves(z.tree, ZEntry(z.dict[e.member], e.member));
      TreeInsertAdds(TreeErase(z.tree, ZEntry(z.dict[e.member], e.member)), e);
    } else {
      TreeInsertAdds(z.tree, e);
    }
  }

  lemma EraseIndexed(z: ZSet, member: Bytes)
    requires Indexed(z)
    ensures Indexed(ZErase(z, member))
  {
    if member in z.dict {
      TreeEraseRemoves(z.tree, ZEntry(z.dict[member], member));
    }
  }

  /** Two increasing sequences with the same entries are the same sequence. */
  lemma {:induction false} IncreasingUnique(a: seq<ZEntry>, b: seq<ZEntry>)
    requires Increasing(a) && Increasing(b) && forall e :: e in a <==> e in b
    ensures a == b
  {
    assert b == [] || b[0] in b;
    if a != [] {
      assert a[0] in a;
      assert b != [] by { assert a[0] in b; }
      assert b[0] in b;
      if a[0] != b[0] {
        var i :| 0 <= i < |b| && b[i] == a[0];
        var j :| 0 <= j < |a| && a[j] == b[0];
        ZLessApart(a[0], b[0]);
        assert false;
      }
      var h, s, t := a[0], a[1..], b[1..];
      forall e ensures e in s <==> e in t {
        assert e in a <==> e == h || e in s;
        assert e in b <==> e == h || e in t;
        if e == h { HeadNotInTail(a); HeadNotInTail(b); }
      }
      IncreasingUnique(s, t);
      assert a == [h] + s && b == [h] + t;
    }
  }

  lemma HeadNotInTail(a: seq<ZEntry>)
    requires Increasing(a) && a != []
    ensures a[0] !in a[1..]
  {
    if a[0] in a[1..] {
      var i :| 0 <= i < |a[1..]| && a[1..][i] == a[0];
      ZLessApart(a[0], a[i + 1]);
    }
  }

  /** The tree is determined by the dictionary. */
  lemma TreeDetermined(y: ZSet, z: ZSet)
    requires Indexed(y) && Indexed(z) && y.dict == z.dict
    ensures y == z
  {
    IncreasingUnique(y.tree, z.tree);
  }

  /** The entries strictly below one, in (score, member) order. */
  ghost function Below(z: ZSet, e: ZEntry): set<ZEntry> {
    set x | x in z.tree && ZLess(x, e)
  }

  ghost function Elements(s: seq<ZEntry>): set<ZEntry> {
    set x | x in s
  }

  lemma {:induction false} PrefixSize(tree: seq<ZEntry>, i: nat)
    requires Increasing(tree) && i <= |tree|
    ensures |Elements(tree[..i])| == i
  {
    hide ZLess, ZSame;
    if i > 0 {
      PrefixSize(tree, i - 1);
      var e := tree[i - 1];
      assert tree[..i] == tree[..i - 1] + [e];
      assert Elements(tree[..i]) == Elements(tree[..i - 1]) + {e};
      if e in tree[..i - 1] {
        var j :| 0 <= j < i - 1 && tree[..i - 1][j] == e;
        ZLessApart(tree[j], e);
      }
    }
  }

  /** The entry at index `i` has exactly `i` entries below it, and the sizes agree. */
  lemma TreeRank(z: ZSet, i: nat)
    requires Indexed(z) && i < |z.tree|
    ensures |Below(z, z.tree[i])| == i
  {
    var e := z.tree[i];
    forall x ensures x in Below(z, e) <==> x in z.tree[..i] {
      if x in Below(z, e) {
        var j :| 0 <= j < |z.tree| && z.tree[j] == x;
        if i < j { ZLessApart(e, x); }
        if i == j { ZLessApart(e, e); }
        assert z.tree[..i][j] == x;
      }
    }
    assert Below(z, e) == Elements(z.tree[..i]);
    PrefixSize(z.tree, i);
  }

  lemma TreeSize(z: ZSet)
    requires Indexed(z)
    ensures |z.tree| == |z.dict|
  {
    PrefixSize(z.tree, |z.tree|);
    assert z.tree[..|z.tree|] == z.tree;
    var entries := Elements(z.tree);
    assert entries == set m | m in z.dict :: ZEntry(z.dict[m], m);
    MemberCount(entries, z.dict.Keys);
  }

  /** Entries with distinct members are as many as their members. */
  lemma {:induction false} MemberCount(entries: set<ZEntry>, members: set<Bytes>)
    requires forall e :: e in entries ==> e.member in members
    requires forall m :: m in members ==> exists e :: e in entries && e.member == m
    requires forall d, e :: d in entries && e in entries && d.member == e.member ==> d == e
    ensures |entries| == |members|
  {
    if entries == {} {
      assert members == {};
    } else {
      var e :| e in entries;
      forall m | m in members - {e.member}
        ensures exists x :: x in entries - {e} && x.member == m
      {
        var x :| x in entries && x.member == m;
        assert x in entries - {e};
      }
      MemberCount(entries - {e}, members - {e.member});
    }
  }

  // ---------------------------------------------------------------- in place

  class SortedSet {
    var tree: seq<ZEntry>
    var dict: map<Bytes, Score>

    ghost function Value(): ZSet
      reads this
    {
      ZSet(tree, dict)
    }

    constructor ()
      ensures Value() == EMPTY_ZSET && Indexed(Value())
    {
      tree, dict := [], map[];
    }

    method Insert(e: ZEntry)
      requires Indexed(Value())
      modifies this
      ensures Value() == ZInsert(old(Value()), e) && Indexed(Value())
    {
      InsertIndexed(Value(), e);
      if e.member in dict {
        tree := TreeErase(tree, ZEntry(dict[e.member], e.member));
      }
      dict := dict[e.member := e.score];
      tree := TreeInsert(tree, e);
    }

    method Erase(member: Bytes) returns (erased: bool)
      requires Indexed(Value())
      modifies this
      ensures Value() == ZErase(old(Value()), member) && Indexed(Value())
      ensures erased == (member in old(dict))
    {
      EraseIndexed(Value(), member);
      erased := member in dict;
      if erased {
        tree := TreeErase(tree, ZEntry(dict[member], member));
        dict := dict - {member};
      }
    }
  }
}
