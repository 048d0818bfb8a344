/** Snapshot records (`src/persistence/rdb_manager.hpp`): the writer, the reader as it is written, and
    a corrected reader. */
module Snapshot {
  import opened Bytes
  import opened Values
  import opened Commands
  import opened SnapshotFormat

  // ---------------------------------------------------------------- collections

  function AssignAll(ps: seq<(Bytes, Bytes)>): map<Bytes, Bytes> {
    if ps == [] then map[]
    else var p := ps[|ps| - 1]; AssignAll(ps[..|ps| - 1])[p.0 := p.1]
  }

  function InsertAll(es: seq<ZEntry>): ZSet {
    if es == [] then EMPTY_ZSET else ZInsert(InsertAll(es[..|es| - 1]), es[|es| - 1])
  }

  /** The pairs of a hash, in field order. */
  ghost function PairsOf(fields: map<Bytes, Bytes>): seq<(Bytes, Bytes)> {
    var order := InOrder(fields.Keys);
    seq(|order|, i requires 0 <= i < |order| => assert order[i] in order; (order[i], fields[order[i]]))
  }

  lemma {:induction false} AssignAllFrom(ps: seq<(Bytes, Bytes)>)
    ensures forall k :: k in AssignAll(ps) ==> (k, AssignAll(ps)[k]) in ps
    ensures forall p :: p in ps ==> p.0 in AssignAll(ps)
  {
    if ps != [] {
      AssignAllFrom(ps[..|ps| - 1]);
      assert ps == ps[..|ps| - 1] + [ps[|ps| - 1]];
    }
  }

  lemma PairsOfHash(fields: map<Bytes, Bytes>)
    ensures forall k, v :: (k, v) in PairsOf(fields) <==> k in fields && fields[k] == v
    ensures |PairsOf(fields)| == |fields|
  {
    var order, ps := InOrder(fields.Keys), PairsOf(fields);
    forall k, v ensures (k, v) in ps <==> k in fields && fields[k] == v {
      if k in fields && fields[k] == v {
        assert k in order;
        var i :| 0 <= i < |order| && order[i] == k;
        assert ps[i] == (k, v);
      }
      if (k, v) in ps {
        var i :| 0 <= i < |ps| && ps[i] == (k, v);
        assert order[i] in order;
      }
    }
  }

  lemma HashRoundTrip(fields: map<Bytes, Bytes>)
    ensures AssignAll(PairsOf(fields)) == fields
  {
    hide PairsOf;
    PairsOfHash(fields);
    AssignAllFrom(PairsOf(fields));
    var back := AssignAll(PairsOf(fields));
    assert forall k :: k in fields ==> (k, fields[k]) in PairsOf(fields);
    assert back.Keys == fields.Keys;
  }

  lemma {:induction false} InsertAllFrom(es: seq<ZEntry>)
    ensures Indexed(InsertAll(es))
    ensures forall m :: m in InsertAll(es).dict ==> ZEntry(InsertAll(es).dict[m], m) in es
    ensures forall e :: e in es ==> e.member in InsertAll(es).dict
  {
    hide Indexed, TreeInsert, TreeErase;
    if es == [] {
      EmptyIndexed();
    } else {
      var front, e := es[..|es| - 1], es[|es| - 1];
      InsertAllFrom(front);
      InsertIndexed(InsertAll(front), e);
      assert es == front + [e];
    }
  }

  lemma SortedRoundTrip(z: ZSet)
    requires Indexed(z)
    ensures InsertAll(z.tree) == z
  {
    InsertAllFrom(z.tree);
    var back := InsertAll(z.tree);
    forall m ensures m in back.dict <==> m in z.dict {
      if m in z.dict { assert ZEntry(z.dict[m], m) in z.tree; }
    }
    assert back.dict == z.dict;
    TreeDetermined(back, z);
  }

  // ---------------------------------------------------------------- values

  /** What `write_entry` writes after the key. */
  ghost function Payload(v: Value): Bytes {
    match v
    case Nothing => []
    case Str(s) => String(s)
    case List(items) => Counted(String, items)
    case Set(members) => Counted(String, InOrder(members))
    case Hash(fields) => Counted(Pair, PairsOf(fields))
    case Sorted(z) => Counted(Scored, z.tree)
  }

  function Tag(v: Value): uint8 {
    match v
    case Nothing => 255
    case Str(_) => 0
    case List(_) => 1
    case Set(_) => 2
    case Hash(_) => 3
    case Sorted(_) => 4
  }

  function TakeValue(tag: uint8, s: Bytes): Parsed<Value>
    requires tag <= 4
  {
    if tag == 0 then
      var t := TakeString(s);
      if t.None? then None else Some((Str(t.value.0), t.value.1))
    else if tag == 1 then
      var t := TakeAll(TakeString, s);
      if t.None? then None else Some((List(t.value.0), t.value.1))
    else if tag == 2 then
      var t := TakeAll(TakeString, s);
      if t.None? then None else Some((Set(ToSet(t.value.0)), t.value.1))
    else if tag == 3 then
      var t := TakeAll(TakePair, s);
      if t.None? then None else Some((Hash(AssignAll(t.value.0)), t.value.1))
    else
      var t := TakeAll(TakeScored, s);
      if t.None? then None else Some((Sorted(InsertAll(t.value.0)), t.value.1))
  }

  /** A value commands can have stored, with every length fitting in 32 bits. */
  ghost predicate Storable(v: Value) {
    match v
    case Nothing => false
    case Str(s) => Short(s)
    case List(items) => |items| < TWO_32 && forall x :: x in items ==> Short(x)
    case Set(members) => |members| < TWO_32 && forall x :: x in members ==> Short(x)
    case Hash(fields) => |fields| < TWO_32 && forall k :: k in fields ==> Short(k) && Short(fields[k])
    case Sorted(z) => Indexed(z) && |z.tree| < TWO_32 && forall e :: e in z.tree ==> Short(e.member)
  }

  lemma StringsInvert(xs: seq<Bytes>, rest: Bytes)
    requires |xs| < TWO_32 && forall x :: x in xs ==> Short(x)
    ensures TakeAll(TakeString, Counted(String, xs) + rest) == Some((xs, rest))
  {
    hide Inverts, TakeAll, Counted;
    forall x | x in xs ensures Inverts(TakeString, String, x) { StringInverts(x); }
    CountedInverts(TakeString, String, xs, rest);
  }

  lemma HashInverts(fields: map<Bytes, Bytes>, rest: Bytes)
    requires Storable(Hash(fields))
    ensures TakeAll(TakePair, Counted(Pair, PairsOf(fields)) + rest) == Some((PairsOf(fields), rest))
  {
    hide Inverts, TakeAll, Counted, PairsOf;
    PairsOfHash(fields);
    forall p | p in PairsOf(fields) ensures Inverts(TakePair, Pair, p) {
      assert (p.0, p.1) in PairsOf(fields);
      PairInverts(p);
    }
    CountedInverts(TakePair, Pair, PairsOf(fields), rest);
  }

  lemma SortedInverts(z: ZSet, rest: Bytes)
    requires Storable(Sorted(z))
    ensures TakeAll(TakeScored, Counted(Scored, z.tree) + rest) == Some((z.tree, rest))
  {
    hide Inverts, TakeAll, Counted, Indexed;
    forall e | e in z.tree ensures Inverts(TakeScored, Scored, e) { ScoredInverts(e); }
    CountedInverts(TakeScored, Scored, z.tree, rest);
  }

  /** Reading a value back gives the value that was written. */
  lemma ValueInverts(v: Value, rest: Bytes)
    requires Storable(v)
    ensures TakeValue(Tag(v), Payload(v) + rest) == Some((v, rest))
  {
    hide TakeAll, Counted, String, TakeString, PairsOf;
    match v
    case Str(s) => StringInverts(s);
    case List(items) => StringsInvert(items, rest);
    case Set(members) => StringsInvert(InOrder(members), rest); assert ToSet(InOrder(members)) == members;
    case Hash(fields) => HashInverts(fields, rest); HashRoundTrip(fields);
    case Sorted(z) => SortedInverts(z, rest); SortedRoundTrip(z);
  }

  // ---------------------------------------------------------------- sizes

  ghost predicate Distinct<T(!new)>(xs: seq<T>) {
    forall i, j :: 0 <= i < j < |xs| ==> xs[i] != xs[j]
  }

  ghost function Total<T>(weight: T -> nat, xs: seq<T>): nat {
    if xs == [] then 0 else weight(xs[0]) + Total(weight, xs[1..])
  }

  lemma {:induction false} TotalConcat<T>(weight: T -> nat, xs: seq<T>, ys: seq<T>)
    ensures Total(weight, xs + ys) == Total(weight, xs) + Total(weight, ys)
  {
    if xs == [] {
      assert xs + ys == ys;
    } else {
      assert (xs + ys)[1..] == xs[1..] + ys;
      TotalConcat(weight, xs[1..], ys);
    }
  }

  /** Distinct items found among others weigh no more than the others. */
  lemma {:induction false} DistinctWeighLess<T(!new)>(weight: T -> nat, ys: seq<T>, xs: seq<T>)
    requires Distinct(ys) && forall y :: y in ys ==> y in xs
    ensures Total(weight, ys) <= Total(weight, xs)
  {
    if ys != [] {
      var y, tail := ys[0], ys[1..];
      assert y in ys;
      var i :| 0 <= i < |xs| && xs[i] == y;
      var a, b := xs[..i], xs[i + 1..];
      assert xs == a + ([y] + b);
      forall t | t in tail ensures t in a + b {
        var j :| 0 <= j < |tail| && tail[j] == t;
        assert t == ys[j + 1];
        assert t in xs;
      }
      DistinctWeighLess(weight, tail, a + b);
      TotalConcat(weight, a, b);
      TotalConcat(weight, a, [y] + b);
      assert ([y] + b)[1..] == b;
    }
  }

  lemma {:induction false} JoinTotal<T(!new)>(show: T -> Bytes, weight: T -> nat, xs: seq<T>)
    requires forall x :: weight(x) == |show(x)|
    ensures |Join(show, xs)| == Total(weight, xs)
  {
    if xs != [] { JoinTotal(show, weight, xs[1..]); }
  }

  lemma DistinctAreFewer<T(!new)>(show: T -> Bytes, ys: seq<T>, xs: seq<T>)
    requires Distinct(ys) && forall y :: y in ys ==> y in xs
    ensures |Join(show, ys)| <= |Join(show, xs)|
  {
    var weight: T -> nat := x => |show(x)|;
    DistinctWeighLess(weight, ys, xs);
    JoinTotal(show, weight, ys);
    JoinTotal(show, weight, xs);
  }

  lemma {:induction false} InOrderDistinct(s: set<Bytes>)
    ensures Distinct(InOrder(s))
  {
    if s != {} { InOrderDistinct(s - {First(s)}); }
  }

  lemma PairsDistinct(fields: map<Bytes, Bytes>)
    ensures Distinct(PairsOf(fields))
  {
    InOrderDistinct(fields.Keys);
  }

  lemma TreeDistinct(tree: seq<ZEntry>)
    requires Increasing(tree)
    ensures Distinct(tree)
  {
    forall i, j | 0 <= i < j < |tree| ensures tree[i] != tree[j] { ZLessApart(tree[i], tree[j]); }
  }

  lemma SetSize(xs: seq<Bytes>)
    ensures |Counted(String, InOrder(ToSet(xs)))| <= |Counted(String, xs)|
  {
    hide Join, String;
    InOrderDistinct(ToSet(xs));
    DistinctAreFewer(String, InOrder(ToSet(xs)), xs);
  }

  lemma HashSize(ps: seq<(Bytes, Bytes)>)
    ensures |Counted(Pair, PairsOf(AssignAll(ps)))| <= |Counted(Pair, ps)|
  {
    hide Join, Pair, PairsOf;
    var fields := AssignAll(ps);
    AssignAllFrom(ps);
    PairsOfHash(fields);
    PairsDistinct(fields);
    forall p | p in PairsOf(fields) ensures p in ps { assert (p.0, p.1) in PairsOf(fields); }
    DistinctAreFewer(Pair, PairsOf(fields), ps);
  }

  lemma SortedSize(es: seq<ZEntry>)
    ensures |Counted(Scored, InsertAll(es).tree)| <= |Counted(Scored, es)|
  {
    hide Join, Scored;
    InsertAllFrom(es);
    var z := InsertAll(es);
    TreeDistinct(z.tree);
    forall e | e in z.tree ensures e in es { assert ZEntry(z.dict[e.member], e.member) == e; }
    DistinctAreFewer(Scored, z.tree, es);
  }

  /** Whatever value is read, reading it took at least as many bytes as writing it would. */
  lemma TakenValueSize(tag: uint8, s: Bytes)
    requires tag <= 4 && TakeValue(tag, s).Some?
    ensures var (v, rest) := TakeValue(tag, s).value; |s| >= |Payload(v)| + |rest|
  {
    hide TakeAll, Counted, String, TakeString, PairsOf, Exact, TakePair, Pair, TakeScored, Scored;
    TakenStringSize();
    if tag == 0 {
      StringTaken(s);
    } else if tag <= 2 {
      TakenAllSize(TakeString, String, s);
      SetSize(TakeAll(TakeString, s).value.0);
    } else if tag == 3 {
      TakenPairSize();
      TakenAllSize(TakePair, Pair, s);
      HashSize(TakeAll(TakePair, s).value.0);
    } else {
      TakenScoredSize();
      TakenAllSize(TakeScored, Scored, s);
      SortedSize(TakeAll(TakeScored, s).value.0);
    }
  }

  lemma StringTaken(s: Bytes)
    requires TakeString(s).Some?
    ensures |s| == |String(TakeString(s).value.0)| + |TakeString(s).value.1|
    ensures |String(TakeString(s).value.0)| >= 4
  {
    TakenStringSize();
  }

  // ---------------------------------------------------------------- records

  const EXPIRE_MS: uint8 := 252
  const END_OF_FILE: uint8 := 255
  const MAGIC: Bytes := Ascii("QUINEDB")
  const VERSION: nat := 1

  /** A key as `for_each` and the expiry side map report it. */
  datatype Record = Record(key: Bytes, value: Value, expiry: Option<int>)

  /** `write_entry`. */
  ghost function EntryBytes(key: Bytes, v: Value): Bytes {
    if v.Nothing? then [] else [Tag(v)] + String(key) + Payload(v)
  }

  /** One key of a snapshot; a timestamp of -1 reads as no expiry. */
  ghost function Written(r: Record): Bytes {
    (if r.expiry.Some? && r.expiry.value != -1 then [EXPIRE_MS] + I64(r.expiry.value) else []) + EntryBytes(r.key, r.value)
  }

  ghost function Save(rs: seq<Record>): Bytes {
    MAGIC + U32(VERSION) + (Join(Written, rs) + [END_OF_FILE])
  }

  lemma Words()
    ensures U32(1) == [1, 0, 0, 0] && I64(258) == [2, 1, 0, 0, 0, 0, 0, 0]
  {
    assert Word(0, 3) == [0] + Word(0, 2);
    assert Word(0, 6) == [0] + Word(0, 5) && Word(0, 5) == [0] + Word(0, 4) && Word(0, 4) == [0] + Word(0, 3);
    assert Word(258, 8) == [2] + Word(1, 7) && Word(1, 7) == [1] + Word(0, 6);
  }

  lemma OneByteStrings(b: uint8)
    ensures String([b]) == [1, 0, 0, 0, b]
  {
    hide U32, I64;
    Words();
    assert [b][..1] == [b];
  }

  /** The file of one key "k" with the value "v" that expires at 258, byte by byte. */
  lemma OneKeyFile()
    ensures Save([Record([107], Str([118]), Some(258))]) ==
            [81, 85, 73, 78, 69, 68, 66] + [1, 0, 0, 0] +
            ([252] + [2, 1, 0, 0, 0, 0, 0, 0] + [0] + [1, 0, 0, 0, 107] + [1, 0, 0, 0, 118] + [255])
  {
    hide String, U32, I64, Join;
    assert MAGIC == [81, 85, 73, 78, 69, 68, 66];
    Words();
    OneByteStrings(107);
    OneByteStrings(118);
    var r := Record([107], Str([118]), Some(258));
    JoinOne(r);
    assert Written(r) == [252] + [2, 1, 0, 0, 0, 0, 0, 0] + ([0] + [1, 0, 0, 0, 107] + [1, 0, 0, 0, 118]);
  }

  lemma JoinOne(r: Record)
    ensures Join(Written, [r]) == Written(r)
  {
    assert [r][1..] == [] && Written(r) + [] == Written(r);
  }

  datatype Item = End | Corrupt | Overrun | Found(record: Record, rest: Bytes)

  /** A value type, a key and a value. */
  function TakeEntry(tag: uint8, s: Bytes, expiry: Option<int>): Item {
    match TakeString(s)
    case None => Overrun
    case Some((key, rest)) =>
      if tag > 4 then Corrupt
      else
        match TakeValue(tag, rest)
        case None => Overrun
        case Some((value, end)) => Found(Record(key, value, expiry), end)
  }

  /** A timestamp, a value type, a key and a value. */
  function TakeExpiring(s: Bytes): Item {
    match TakeWord(8, s)
    case None => Overrun
    case Some((at, rest)) =>
      if rest == [] then Overrun else TakeEntry(rest[0], rest[1..], Some(Signed(at)))
  }

  /** One turn of `load`'s loop. As written, a key is read before the expiry opcode is looked at;
      the corrected reader looks at the opcode first. */
  function TakeRecord(asWritten: bool, s: Bytes): Item {
    if s == [] || s[0] == END_OF_FILE then End
    else if s[0] != EXPIRE_MS then TakeEntry(s[0], s[1..], None)
    else if asWritten then
      match TakeString(s[1..])
      case None => Overrun
      case Some((_, rest)) => TakeExpiring(rest)
    else TakeExpiring(s[1..])
  }

  ghost predicate RecordOk(r: Record) {
    && Short(r.key) && Storable(r.value)
    && (r.expiry.Some? ==> -TWO_63 <= r.expiry.value < TWO_63)
  }

  lemma EntryInverts(key: Bytes, v: Value, expiry: Option<int>, rest: Bytes)
    requires Short(key) && Storable(v)
    ensures EntryBytes(key, v) == [Tag(v)] + (String(key) + Payload(v)) && Tag(v) <= 4
    ensures TakeEntry(Tag(v), (String(key) + Payload(v)) + rest, expiry) == Found(Record(key, v, expiry), rest)
  {
    hide String, Payload, TakeString, TakeValue, Storable;
    assert Tag(v) <= 4 by { TagOk(v); }
    ConcatAssoc([Tag(v)], String(key), Payload(v));
    ConcatAssoc(String(key), Payload(v), rest);
    StringInverts(key);
    ValueInverts(v, rest);
  }

  lemma TagOk(v: Value)
    requires Storable(v)
    ensures Tag(v) <= 4 && !v.Nothing?
  {
  }

  /** The corrected reader inverts the writer; the reader as written inverts it on records without
      an expiry. */
  lemma RecordInverts(asWritten: bool, r: Record, rest: Bytes)
    requires RecordOk(r) && r.expiry != Some(-1) && (asWritten ==> r.expiry.None?)
    ensures TakeRecord(asWritten, Written(r) + rest) == Found(r, rest)
  {
    hide String, Payload, TakeString, TakeValue, Storable, EntryBytes, TakeEntry, TakeWord;
    var body := String(r.key) + Payload(r.value);
    TagOk(r.value);
    EntryInverts(r.key, r.value, r.expiry, rest);
    if r.expiry.None? {
      assert Written(r) + rest == [Tag(r.value)] + (body + rest);
    } else {
      var at := r.expiry.value;
      SignedRoundTrip(at);
      Sizes();
      var entry := [Tag(r.value)] + (body + rest);
      TakeWordOf(at % TWO_64, 8, entry);
      assert Written(r) + rest == [EXPIRE_MS] + (I64(at) + entry);
      assert entry[1..] == body + rest;
    }
  }

  /** The fewest bytes the reader as written takes for a record. */
  ghost function Floor(r: Record): nat {
    |EntryBytes(r.key, r.value)| + if r.expiry.Some? then 13 else 0
  }

  lemma TakenEntrySize(tag: uint8, s: Bytes, expiry: Option<int>)
    requires TakeEntry(tag, s, expiry).Found?
    ensures var Found(r, rest) := TakeEntry(tag, s, expiry);
            r.expiry == expiry && 1 + |s| >= |EntryBytes(r.key, r.value)| + |rest| && |rest| <= |s|
  {
    hide String, Payload, TakeString, TakeValue;
    StringTaken(s);
    TakenValueSize(tag, TakeString(s).value.1);
  }

  /** Whatever record the reader as written takes, it takes at least that many bytes for it. */
  lemma TakenRecordSize(s: Bytes)
    requires TakeRecord(true, s).Found?
    ensures var Found(r, rest) := TakeRecord(true, s); |s| >= Floor(r) + |rest|
  {
    hide String, TakeString, TakeEntry, TakeWord, EntryBytes;
    if s[0] != EXPIRE_MS {
      TakenEntrySize(s[0], s[1..], None);
    } else {
      StringTaken(s[1..]);
      var rest := TakeString(s[1..]).value.1;
      var (at, tail) := TakeWord(8, rest).value;
      TakenEntrySize(tail[0], tail[1..], Some(Signed(at)));
    }
  }

  lemma TakenRecordShrinks(asWritten: bool, s: Bytes)
    requires TakeRecord(asWritten, s).Found?
    ensures |TakeRecord(asWritten, s).rest| < |s|
  {
    hide String, TakeString, TakeEntry, TakeWord, EntryBytes;
    if s[0] != EXPIRE_MS {
      TakenEntrySize(s[0], s[1..], None);
    } else {
      if asWritten { StringTaken(s[1..]); }
      var rest := if asWritten then TakeString(s[1..]).value.1 else s[1..];
      var (at, tail) := TakeWord(8, rest).value;
      TakenEntrySize(tail[0], tail[1..], Some(Signed(at)));
    }
  }

  // ---------------------------------------------------------------- whole snapshots

  datatype Ending = Finished | Refused | Overran

  /** The records `load` reads, and how it ends if every insertion succeeds. */
  function Records(asWritten: bool, s: Bytes): (seq<Record>, Ending)
    decreases |s|
  {
    match TakeRecord(asWritten, s)
    case End => ([], Finished)
    case Corrupt => ([], Refused)
    case Overrun => ([], Overran)
    case Found(r, rest) =>
      TakenRecordShrinks(asWritten, s);
      var (rs, ending) := Records(asWritten, rest);
      ([r] + rs, ending)
  }

  /** The header `load` checks; `None` when it accepts it. */
  function Header(file: Bytes): Option<Ending> {
    if |file| < 7 || file[..7] != MAGIC then Some(Refused)
    else if |file| < 11 then Some(Overran)
    else if WordValue(file[7..11]) != VERSION then Some(Refused)
    else None
  }

  lemma {:induction false} RecordsInvert(asWritten: bool, rs: seq<Record>)
    requires forall r :: r in rs ==> RecordOk(r) && r.expiry != Some(-1) && (asWritten ==> r.expiry.None?)
    ensures Records(asWritten, Join(Written, rs) + [END_OF_FILE]) == (rs, Finished)
  {
    hide Written, TakeRecord, RecordOk;
    if rs == [] {
      EndTaken(asWritten);
      assert Join(Written, rs) + [END_OF_FILE] == [END_OF_FILE];
    } else {
      var r, tail := rs[0], rs[1..];
      assert r in rs && forall t :: t in tail ==> t in rs;
      var rest := Join(Written, tail) + [END_OF_FILE];
      ConcatAssoc(Written(r), Join(Written, tail), [END_OF_FILE]);
      RecordInverts(asWritten, r, rest);
      RecordsInvert(asWritten, tail);
      assert [r] + tail == rs;
    }
  }

  lemma EndTaken(asWritten: bool)
    ensures TakeRecord(asWritten, [END_OF_FILE]) == End
  {
  }

  /** All the records the reader as written takes, together, take at least their floors. */
  lemma {:induction false} RecordsSize(s: Bytes)
    ensures Total(Floor, Records(true, s).0) <= |s|
    decreases |s|
  {
    hide TakeRecord, Floor;
    if TakeRecord(true, s).Found? {
      TakenRecordSize(s);
      TakenRecordShrinks(true, s);
      var Found(r, rest) := TakeRecord(true, s);
      RecordsSize(rest);
      assert ([r] + Records(true, rest).0)[1..] == Records(true, rest).0;
    }
  }

  lemma HeaderOk(rs: seq<Record>)
    ensures Header(Save(rs)) == None && Save(rs)[11..] == Join(Written, rs) + [END_OF_FILE]
  {
    Sizes();
    WordRoundTrip(VERSION, 4);
    var body := Join(Written, rs) + [END_OF_FILE];
    assert Save(rs) == MAGIC + (U32(VERSION) + body);
    assert |MAGIC| == 7;
    assert Save(rs)[..7] == MAGIC;
    assert Save(rs)[7..11] == U32(VERSION);
  }
}
