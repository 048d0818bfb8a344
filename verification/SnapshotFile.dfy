/** Saving and loading as they run: loops over shards, entries and records
    (`src/persistence/rdb_manager.hpp`). */
module SnapshotFile {
  import opened Bytes
  import opened Values
  import opened HashMap
  import opened Commands
  import opened Shard
  import opened SnapshotFormat
  import opened Snapshot
  import opened SnapshotTheorems

  // ---------------------------------------------------------------- writing

  lemma JoinSnoc<T>(show: T -> Bytes, xs: seq<T>, i: nat)
    requires i < |xs|
    ensures Join(show, xs[..i + 1]) == Join(show, xs[..i]) + show(xs[i])
    ensures Join(show, xs[..0]) == []
  {
    JoinConcat(show, xs[..i], [xs[i]]);
    assert xs[..i] + [xs[i]] == xs[..i + 1];
    assert Join(show, [xs[i]]) == show(xs[i]) + Join(show, [xs[i]][1..]);
    assert [xs[i]][1..] == [];
    assert show(xs[i]) + [] == show(xs[i]);
  }

  lemma {:induction false} JoinConcat<T>(show: T -> Bytes, xs: seq<T>, ys: seq<T>)
    ensures Join(show, xs + ys) == Join(show, xs) + Join(show, ys)
  {
    if xs == [] {
      assert xs + ys == ys;
      assert [] + Join(show, ys) == Join(show, ys);
    } else {
      assert (xs + ys)[1..] == xs[1..] + ys;
      JoinConcat(show, xs[1..], ys);
      ConcatAssoc(show(xs[0]), Join(show, xs[1..]), Join(show, ys));
    }
  }

  /** The loops that write a collection. */
  method WriteItems<T>(show: T -> Bytes, xs: seq<T>) returns (out: Bytes)
    ensures out == Counted(show, xs)
  {
    out := U32(|xs|);
    for i := 0 to |xs|
      invariant out == U32(|xs|) + Join(show, xs[..i])
    {
      JoinSnoc(show, xs, i);
      ConcatAssoc(U32(|xs|), Join(show, xs[..i]), show(xs[i]));
      out := out + show(xs[i]);
    }
    assert xs[..|xs|] == xs;
  }

  method VisitPairs(fields: map<Bytes, Bytes>) returns (ps: seq<(Bytes, Bytes)>)
    ensures ps == PairsOf(fields)
  {
    var order := Visit(fields.Keys);
    ps := [];
    for i := 0 to |order|
      invariant ps == PairsOf(fields)[..i]
    {
      assert order[i] in order;
      ps := ps + [(order[i], fields[order[i]])];
    }
  }

  /** `write_entry`. */
  method WriteEntry(key: Bytes, v: Value) returns (out: Bytes)
    ensures out == EntryBytes(key, v)
  {
    hide Counted, String, PairsOf;
    var payload;
    match v {
      case Nothing => return [];
      case Str(s) => payload := String(s);
      case List(items) => payload := WriteItems(String, items);
      case Set(members) =>
        var items := Visit(members);
        payload := WriteItems(String, items);
      case Hash(fields) =>
        var pairs := VisitPairs(fields);
        payload := WriteItems(Pair, pairs);
      case Sorted(z) => payload := WriteItems(Scored, z.tree);
    }
    return [Tag(v)] + String(key) + payload;
  }

  /** What `for_each` and `get_expiry` report of one key. */
  function RecordOf(s: State, key: Bytes, v: Value): Record {
    Record(key, v, SlotIn(s, key).expiry)
  }

  function RecordsOf(s: State, es: seq<(Bytes, Value)>): seq<Record> {
    seq(|es|, i requires 0 <= i < |es| => RecordOf(s, es[i].0, es[i].1))
  }

  /** The records of a shard, in table order. */
  ghost function ShardRecords(shard: Shard): seq<Record>
    reads shard, shard.table, shard.table.entries
  {
    RecordsOf(shard.Value(), Entries(shard.table.entries[..]))
  }

  method WriteShard(shard: Shard) returns (out: Bytes)
    requires shard.Valid()
    ensures out == Join(Written, ShardRecords(shard))
  {
    hide Represents, EntryBytes;
    var es := shard.table.ForEach();
    ghost var rs := RecordsOf(shard.Value(), es);
    out := [];
    for i := 0 to |es|
      invariant out == Join(Written, rs[..i])
    {
      JoinSnoc(Written, rs, i);
      var expiry := shard.GetExpiry(es[i].0);
      var prefix := [];
      if expiry != -1 { prefix := [EXPIRE_MS] + I64(expiry); }
      var entry := WriteEntry(es[i].0, es[i].1);
      assert prefix + entry == Written(rs[i]);
      out := out + (prefix + entry);
    }
    assert rs[..|rs|] == rs;
  }

  /** The shards of a topology, which share nothing, and what they hold. */
  ghost predicate Holding(shards: seq<Shard>, ss: seq<State>)
    reads shards, Tables(shards), Arrays(shards)
  {
    && |shards| == |ss|
    && (forall i :: 0 <= i < |shards| ==> shards[i].Valid() && shards[i].Value() == ss[i])
    && (forall i, j :: 0 <= i < j < |shards| ==>
          shards[i] != shards[j] && shards[i].table != shards[j].table && shards[i].table.entries != shards[j].table.entries)
  }

  ghost function Tables(shards: seq<Shard>): set<object> {
    set s | s in shards :: s.table
  }

  ghost function Arrays(shards: seq<Shard>): set<object> {
    set s | s in shards :: s.table.entries
  }

  /** A shard's listing is exactly its slots, each key once. */
  lemma ShardListed(shard: Shard)
    requires shard.Valid()
    ensures var s := shard.Value();
            var rs := ShardRecords(shard);
            && (forall i, j :: 0 <= i < j < |rs| ==> rs[i].key != rs[j].key)
            && (forall r: Record :: r in rs <==> SlotIn(s, r.key) == Slot(Some(r.value), r.expiry))
  {
    var s, es := shard.Value(), Entries(shard.table.entries[..]);
    EntriesOfTable(shard.table.entries[..], shard.table.hash, shard.table.model);
    hide Represents, Entries;
    var rs := RecordsOf(s, es);
    forall r: Record ensures r in rs <==> SlotIn(s, r.key) == Slot(Some(r.value), r.expiry) {
      if r in rs {
        var i :| 0 <= i < |rs| && rs[i] == r;
        assert (es[i].0, es[i].1) in es;
      }
      if SlotIn(s, r.key) == Slot(Some(r.value), r.expiry) {
        assert (r.key, r.value) in es;
        var i :| 0 <= i < |es| && es[i] == (r.key, r.value);
        assert rs[i] == r;
      }
    }
  }

  /** The records of the shards, in shard order. */
  ghost function Listing(shards: seq<Shard>): seq<Record>
    reads shards, Tables(shards), Arrays(shards)
  {
    if shards == [] then []
    else
      var n := |shards| - 1;
      assert shards[n] in shards;
      Listing(shards[..n]) + ShardRecords(shards[n])
  }

  /** The listing of the first `k` shards. */
  ghost predicate ListsFirst(rs: seq<Record>, owner: Owner, ss: seq<State>, k: nat)
    requires Routes(owner, |ss|)
  {
    && (forall i, j :: 0 <= i < j < |rs| ==> rs[i].key != rs[j].key)
    && (forall r: Record :: r in rs <==> owner(r.key) < k && Global(owner, ss, r.key) == Slot(Some(r.value), r.expiry))
  }

  lemma ListsMore(rs: seq<Record>, more: seq<Record>, owner: Owner, ss: seq<State>, k: nat)
    requires Placed(owner, ss) && k < |ss| && ListsFirst(rs, owner, ss, k)
    requires forall i, j :: 0 <= i < j < |more| ==> more[i].key != more[j].key
    requires forall r: Record :: r in more <==> SlotIn(ss[k], r.key) == Slot(Some(r.value), r.expiry)
    ensures ListsFirst(rs + more, owner, ss, k + 1)
  {
    hide SlotIn;
    forall r | r in more ensures owner(r.key) == k { assert SlotIn(ss[k], r.key) != EMPTY_SLOT; }
    var all := rs + more;
    forall i, j | 0 <= i < j < |all| ensures all[i].key != all[j].key {
      if i < |rs| <= j {
        assert rs[i] in rs && more[j - |rs|] in more;
      }
    }
  }

  lemma ListingSnoc(shards: seq<Shard>, k: nat)
    requires k < |shards|
    ensures Listing(shards[..0]) == []
    ensures Listing(shards[..k + 1]) == Listing(shards[..k]) + ShardRecords(shards[k])
  {
    hide ShardRecords;
    assert shards[..k + 1][..k] == shards[..k];
  }

  lemma {:induction false} ListingFirst(shards: seq<Shard>, ss: seq<State>, owner: Owner, k: nat)
    requires Holding(shards, ss) && Placed(owner, ss) && k <= |shards|
    ensures ListsFirst(Listing(shards[..k]), owner, ss, k)
  {
    hide SlotIn, Represents, ShardRecords;
    if k > 0 {
      ListingFirst(shards, ss, owner, k - 1);
      ListingSnoc(shards, k - 1);
      ShardListed(shards[k - 1]);
      hide Listing, ListsFirst;
      ListsMore(Listing(shards[..k - 1]), ShardRecords(shards[k - 1]), owner, ss, k - 1);
    }
  }

  /** The shards' listing has every key of the database, once. */
  lemma ListingLists(shards: seq<Shard>, ss: seq<State>, owner: Owner)
    requires Holding(shards, ss) && Placed(owner, ss)
    ensures Lists(Listing(shards), owner, ss)
  {
    hide SlotIn, Listing, Represents;
    assert shards[..|shards|] == shards;
    ListingFirst(shards, ss, owner, |shards|);
  }

  lemma HoldingFits(shards: seq<Shard>, ss: seq<State>)
    requires Holding(shards, ss)
    ensures WithinSlots(ss)
  {
    forall c | 0 <= c < |ss| ensures |ss[c].table.contents| <= CAPACITY {
      var t := shards[c].table;
      assert shards[c].Valid();
      WithinCapacity(t.entries[..], t.hash, t.model);
    }
  }

  /** With the same owners there is always room. */
  lemma SameCoresRoom(shards: seq<Shard>, ss: seq<State>, owner: Owner)
    requires Holding(shards, ss) && Placed(owner, ss)
    ensures Room(owner, |ss|, Listing(shards))
  {
    hide Holding, Placed, Lists, Room, WithinSlots;
    ListingLists(shards, ss, owner);
    HoldingFits(shards, ss);
    SameOwnersRoom(owner, ss, Listing(shards));
  }

  twostate lemma {:induction false} ListingKept(shards: seq<Shard>)
    requires forall s :: s in shards ==> unchanged(s) && unchanged(s.table) && unchanged(s.table.entries)
    ensures Listing(shards) == old(Listing(shards))
  {
    if shards != [] {
      var n := |shards| - 1;
      assert shards[n] in shards && forall s :: s in shards[..n] ==> s in shards;
      ListingKept(shards[..n]);
      hide RecordsOf;
      assert ShardRecords(shards[n]) == old(ShardRecords(shards[n]));
    }
  }

  /** `save`: the file lists every key of the database once. */
  method SaveShards(shards: seq<Shard>, ghost ss: seq<State>, ghost owner: Owner) returns (file: Bytes)
    requires Holding(shards, ss) && Placed(owner, ss)
    ensures file == Save(Listing(shards)) && Lists(Listing(shards), owner, ss)
  {
    hide Represents, Written, ShardRecords, Listing, Join, Lists;
    ListingLists(shards, ss, owner);
    var body := [];
    forall k | 0 <= k < |shards|
      ensures Listing(shards[..k + 1]) == Listing(shards[..k]) + ShardRecords(shards[k])
    {
      ListingSnoc(shards, k);
    }
    NothingListed(shards);
    for k := 0 to |shards|
      invariant body == Join(Written, old(Listing(shards[..k])))
    {
      JoinConcat(Written, old(Listing(shards[..k])), ShardRecords(shards[k]));
      var out := WriteShard(shards[k]);
      body := body + out;
    }
    assert shards[..|shards|] == shards;
    ListingKept(shards);
    file := MAGIC + U32(VERSION) + (body + [END_OF_FILE]);
  }

  lemma NothingListed(shards: seq<Shard>)
    ensures Listing(shards[..0]) == [] && Join(Written, []) == []
  {
  }

  // ---------------------------------------------------------------- loading

  /** The loops that read a collection. */
  method ReadItems<T>(take: Bytes -> Parsed<T>, n: nat, s: Bytes) returns (r: Parsed<seq<T>>)
    ensures r == TakeMany(take, n, s)
  {
    var xs: seq<T>, rest := [], s;
    assert TakeMany(take, n, s).Some? ==> xs + TakeMany(take, n, s).value.0 == TakeMany(take, n, s).value.0;
    for i := 0 to n
      invariant var t := TakeMany(take, n - i, rest);
                TakeMany(take, n, s) == if t.None? then None else Some((xs + t.value.0, t.value.1))
    {
      var item := take(rest);
      if item.None? { return None; }
      ghost var t := TakeMany(take, n - i - 1, item.value.1);
      assert t.Some? ==> xs + ([item.value.0] + t.value.0) == (xs + [item.value.0]) + t.value.0;
      xs, rest := xs + [item.value.0], item.value.1;
    }
    assert xs + [] == xs;
    return Some((xs, rest));
  }

  method ReadAll<T>(take: Bytes -> Parsed<T>, s: Bytes) returns (r: Parsed<seq<T>>)
    ensures r == TakeAll(take, s)
  {
    hide TakeWord, TakeMany;
    var count := TakeWord(4, s);
    if count.None? { return None; }
    r := ReadItems(take, count.value.0, count.value.1);
  }

  method ReadValue(tag: uint8, s: Bytes) returns (r: Parsed<Value>)
    requires tag <= 4
    ensures r == TakeValue(tag, s)
  {
    hide TakeAll, TakeString, AssignAll, InsertAll;
    if tag == 0 {
      var t := TakeString(s);
      return if t.None? then None else Some((Str(t.value.0), t.value.1));
    } else if tag <= 2 {
      var t := ReadAll(TakeString, s);
      if t.None? { return None; }
      return Some((if tag == 1 then List(t.value.0) else Set(ToSet(t.value.0)), t.value.1));
    } else if tag == 3 {
      var t := ReadAll(TakePair, s);
      return if t.None? then None else Some((Hash(AssignAll(t.value.0)), t.value.1));
    }
    var t := ReadAll(TakeScored, s);
    return if t.None? then None else Some((Sorted(InsertAll(t.value.0)), t.value.1));
  }

  method ReadEntry(tag: uint8, s: Bytes, expiry: Option<int>) returns (item: Item)
    ensures item == TakeEntry(tag, s, expiry)
  {
    hide TakeString, TakeValue;
    var key := TakeString(s);
    if key.None? { return Overrun; }
    if tag > 4 { return Corrupt; }
    var value := ReadValue(tag, key.value.1);
    if value.None? { return Overrun; }
    return Found(Record(key.value.0, value.value.0, expiry), value.value.1);
  }

  /** One turn of the loop; see `TakeRecord`. */
  method ReadRecord(asWritten: bool, s: Bytes) returns (item: Item)
    ensures item == TakeRecord(asWritten, s)
  {
    hide TakeString, TakeWord, TakeEntry;
    if s == [] || s[0] == END_OF_FILE { return End; }
    var rest := s[1..];
    if s[0] != EXPIRE_MS {
      item := ReadEntry(s[0], rest, None);
      return;
    }
    if asWritten {
      var key := TakeString(rest);
      if key.None? { return Overrun; }
      rest := key.value.1;
    }
    var at := TakeWord(8, rest);
    if at.None? || at.value.1 == [] { return Overrun; }
    rest := at.value.1;
    item := ReadEntry(rest[0], rest[1..], Some(Signed(at.value.0)));
  }

  method SetIn(shards: seq<Shard>, c: nat, key: Bytes, value: Value, ghost ss: seq<State>) returns (ok: bool)
    requires Holding(shards, ss) && c < |shards|
    modifies shards, Tables(shards), Arrays(shards)
    ensures ok == AfterSet(ss[c], key, value).1 && Holding(shards, ss[c := AfterSet(ss[c], key, value).0])
  {
    hide Represents, AfterSet;
    ok := shards[c].Set(key, value);
  }

  method ExpireIn(shards: seq<Shard>, c: nat, key: Bytes, timestamp: int, ghost ss: seq<State>)
    requires Holding(shards, ss) && c < |shards|
    modifies shards
    ensures Holding(shards, ss[c := ss[c].(expires := ss[c].expires[key := timestamp])])
  {
    hide Represents;
    shards[c].SetExpiry(key, timestamp);
  }

  /** One record into its owner's shard. */
  method InsertRecord(owner: Owner, shards: seq<Shard>, r: Record, ghost ss: seq<State>) returns (ok: bool)
    requires Holding(shards, ss) && owner(r.key) < |shards|
    modifies shards, Tables(shards), Arrays(shards)
    ensures ok == Insert(owner, ss, r).Some?
    ensures ok ==> Holding(shards, Insert(owner, ss, r).value)
  {
    HeldCount(shards, ss);
    hide Holding, AfterSet;
    var c := owner(r.key);
    ok := SetIn(shards, c, r.key, r.value, ss);
    ghost var t := AfterSet(ss[c], r.key, r.value).0;
    if ok && r.expiry.Some? {
      SetTwice(ss, c, t, t.(expires := t.expires[r.key := r.expiry.value]));
      ExpireIn(shards, c, r.key, r.expiry.value, ss[c := t]);
    }
  }

  lemma SetTwice(ss: seq<State>, c: nat, t: State, u: State)
    requires c < |ss|
    ensures ss[c := t][c := u] == ss[c := u] && ss[c := t][c] == t
  {
  }

  lemma HeldCount(shards: seq<Shard>, ss: seq<State>)
    requires Holding(shards, ss)
    ensures |shards| == |ss|
  {
  }

  /** Once an insertion has thrown, the load is lost. */
  lemma {:induction false} FillThrew(owner: Owner, n: nat, rs: seq<Record>, more: seq<Record>)
    requires Routes(owner, n) && FillAll(owner, n, rs).None?
    ensures FillAll(owner, n, rs + more).None?
    decreases |more|
  {
    if more == [] {
      assert rs + more == rs;
    } else {
      FillThrew(owner, n, rs, more[..|more| - 1]);
      assert (rs + more)[..|rs + more| - 1] == rs + more[..|more| - 1];
    }
  }

  lemma FillSnoc(owner: Owner, n: nat, rs: seq<Record>, r: Record)
    requires Routes(owner, n) && FillAll(owner, n, rs).Some?
    ensures FillAll(owner, n, rs + [r]) == Insert(owner, FillAll(owner, n, rs).value, r)
  {
    assert (rs + [r])[..|rs + [r]| - 1] == rs;
  }

  datatype Verdict = Returned(ok: bool) | Threw | RanOut

  /** What `load` left behind, against what it was to do. */
  ghost predicate Achieved(shards: seq<Shard>, out: Outcome, v: Verdict)
    reads shards, Tables(shards), Arrays(shards)
  {
    match out
    case Loaded(ss) => v == Returned(true) && Holding(shards, ss)
    case Rejected(ss) => v == Returned(false) && Holding(shards, ss)
    case Exception => v == Threw
    case Undefined => v == RanOut
  }

  /** One turn of the loop, on the records read so far and those still to come. */
  lemma RecordsNext(asWritten: bool, s: Bytes, rs: seq<Record>)
    ensures var item, read := TakeRecord(asWritten, s), Records(asWritten, s);
            if item.Found? then
              var later := Records(asWritten, item.rest);
              |item.rest| < |s| && (rs + read.0, read.1) == ((rs + [item.record]) + later.0, later.1)
            else
              (rs + read.0, read.1) == (rs, if item.End? then Finished else if item.Corrupt? then Refused else Overran)
  {
    hide TakeRecord;
    var item := TakeRecord(asWritten, s);
    if item.Found? {
      TakenRecordShrinks(asWritten, s);
      var later := Records(asWritten, item.rest).0;
      assert rs + ([item.record] + later) == (rs + [item.record]) + later;
    } else {
      assert rs + [] == rs;
    }
  }

  /** `load`'s loop: each record is inserted as soon as it is read. */
  method LoadRecords(asWritten: bool, owner: Owner, shards: seq<Shard>, body: Bytes) returns (v: Verdict)
    requires Routes(owner, |shards|) && Holding(shards, seq(|shards|, _ => NEW_SHARD))
    modifies shards, Tables(shards), Arrays(shards)
    ensures Achieved(shards, Loading(owner, |shards|, Records(asWritten, body)), v)
  {
    hide Holding, TakeRecord, Insert, Records, FillAll;
    ghost var rs: seq<Record>, ss := [], seq(|shards|, _ => NEW_SHARD);
    var rest := body;
    FillStart(owner, |shards|);
    assert rs + Records(asWritten, body).0 == Records(asWritten, body).0;
    while true
      invariant FillAll(owner, |shards|, rs) == Some(ss) && Holding(shards, ss)
      invariant Records(asWritten, body) == (rs + Records(asWritten, rest).0, Records(asWritten, rest).1)
      decreases |rest|
    {
      var item := ReadRecord(asWritten, rest);
      RecordsNext(asWritten, rest, rs);
      if item.End? { return Returned(true); }
      if item.Corrupt? { return Returned(false); }
      if item.Overrun? { return RanOut; }
      var r := item.record;
      FillSnoc(owner, |shards|, rs, r);
      assert owner(r.key) < |shards|;
      var ok := InsertRecord(owner, shards, r, ss);
      if !ok {
        FillThrew(owner, |shards|, rs + [r], Records(asWritten, item.rest).0);
        return Threw;
      }
      rs, ss := rs + [r], Insert(owner, ss, r).value;
      rest := item.rest;
    }
  }

  lemma FillStart(owner: Owner, n: nat)
    requires Routes(owner, n)
    ensures FillAll(owner, n, []) == Some(seq(n, _ => NEW_SHARD))
  {
  }

  /** `load`, into fresh shards. */
  method LoadFile(asWritten: bool, owner: Owner, shards: seq<Shard>, file: Bytes) returns (v: Verdict)
    requires Routes(owner, |shards|) && Holding(shards, seq(|shards|, _ => NEW_SHARD))
    modifies shards, Tables(shards), Arrays(shards)
    ensures Achieved(shards, Load(asWritten, owner, |shards|, file), v)
  {
    hide Holding, FillAll, Records;
    if |file| < 7 || file[..7] != MAGIC { return Returned(false); }
    if |file| < 11 { return RanOut; }
    if WordValue(file[7..11]) != VERSION { return Returned(false); }
    v := LoadRecords(asWritten, owner, shards, file[11..]);
  }

  // ---------------------------------------------------------------- saving and loading

  ghost predicate Saveable(key: Bytes, slot: Slot) {
    slot.value.Some? ==> RecordOk(Record(key, slot.value.value, slot.expiry)) && slot.expiry.None?
  }

  ghost predicate AllSaveable(ss: seq<State>) {
    forall c, key :: 0 <= c < |ss| ==> Saveable(key, SlotIn(ss[c], key))
  }

  lemma SaveableRecords(rs: seq<Record>, owner: Owner, ss: seq<State>)
    requires Placed(owner, ss) && Lists(rs, owner, ss) && AllSaveable(ss)
    ensures SaveOk(owner, ss, rs) && NoExpiry(rs)
  {
    hide SlotIn, RecordOk;
    forall r | r in rs ensures RecordOk(r) && r.expiry.None? {
      assert Global(owner, ss, r.key) == Slot(Some(r.value), r.expiry);
      assert Saveable(r.key, SlotIn(ss[owner(r.key)], r.key));
    }
  }

  /** Saving shards that hold no expiries and loading the file into as many fresh ones never throws
      and restores every key where it was. */
  method SaveAndLoad(owner: Owner, shards: seq<Shard>, blank: seq<Shard>, ghost ss: seq<State>)
    returns (v: Verdict, ghost after: seq<State>)
    requires Holding(shards, ss) && Placed(owner, ss) && AllSaveable(ss)
    requires |blank| == |shards| && Holding(blank, seq(|blank|, _ => NEW_SHARD))
    modifies blank, Tables(blank), Arrays(blank)
    ensures v == Returned(true) && Holding(blank, after) && Restored(owner, ss, owner, |ss|, Loaded(after))
  {
    hide Holding, Placed, Lists, AllSaveable, Listing, SaveOk, Save, Load, Restored, Room, NoExpiry;
    HeldPlaced(owner, shards, ss);
    ListingLists(shards, ss, owner);
    SaveableRecords(Listing(shards), owner, ss);
    SameCoresRoom(shards, ss, owner);
    RoundTrip(owner, ss, Listing(shards), owner, |ss|);
    var file := SaveShards(shards, ss, owner);
    ListingKept(shards);
    ghost var out := Load(true, owner, |blank|, file);
    RestoredLoaded(owner, ss, owner, |ss|, out);
    v := LoadFile(true, owner, blank, file);
    after := out.shards;
  }

  lemma HeldPlaced(owner: Owner, shards: seq<Shard>, ss: seq<State>)
    requires Holding(shards, ss) && Placed(owner, ss)
    ensures |shards| == |ss| && Routes(owner, |ss|)
  {
  }
}
