/** What loading a snapshot restores: the same keys, values and placement exactly when there are no
    expiries and every shard has room. */
module SnapshotTheorems {
  import opened Bytes
  import opened Values
  import opened HashMap
  import opened Shard
  import opened SnapshotFormat
  import opened Snapshot

  type Owner = Bytes -> nat

  ghost predicate Routes(owner: Owner, n: nat) {
    forall key :: owner(key) < n
  }

  // ---------------------------------------------------------------- filling the shards

  /** `load`'s insertion: set, then the expiry; `None` is the table's exception. */
  function Insert(owner: Owner, shards: seq<State>, r: Record): (out: Option<seq<State>>)
    requires owner(r.key) < |shards|
    ensures out.Some? ==> |out.value| == |shards|
  {
    var c := owner(r.key);
    var (t, ok) := AfterSet(shards[c], r.key, r.value);
    if !ok then None
    else Some(shards[c := if r.expiry.Some? then t.(expires := t.expires[r.key := r.expiry.value]) else t])
  }

  function FillAll(owner: Owner, n: nat, rs: seq<Record>): (out: Option<seq<State>>)
    requires Routes(owner, n)
    ensures out.Some? ==> |out.value| == n
  {
    if rs == [] then Some(seq(n, _ => NEW_SHARD))
    else
      var front := FillAll(owner, n, rs[..|rs| - 1]);
      if front.None? then None else Insert(owner, front.value, rs[|rs| - 1])
  }

  function Last(rs: seq<Record>, key: Bytes): (out: Option<Record>)
    ensures out.Some? ==> out.value in rs && out.value.key == key
    ensures out.None? ==> forall r :: r in rs ==> r.key != key
  {
    if rs == [] then None
    else if rs[|rs| - 1].key == key then Some(rs[|rs| - 1])
    else Last(rs[..|rs| - 1], key)
  }

  function SlotOf(r: Option<Record>): Slot {
    if r.None? then EMPTY_SLOT else Slot(Some(r.value.value), r.value.expiry)
  }

  lemma InsertSlots(owner: Owner, shards: seq<State>, r: Record, c: nat, key: Bytes)
    requires owner(r.key) < |shards| && c < |shards| && Insert(owner, shards, r).Some?
    ensures SlotIn(Insert(owner, shards, r).value[c], key) ==
            if c == owner(r.key) && key == r.key then SlotOf(Some(r)) else SlotIn(shards[c], key)
  {
    SetOnSlots(shards[owner(r.key)], r.key, r.value, key);
  }

  /** After a load, each key is in its owner's shard as last read, and nowhere else. */
  lemma {:induction false} FillSlots(owner: Owner, n: nat, rs: seq<Record>, c: nat, key: Bytes)
    requires Routes(owner, n) && FillAll(owner, n, rs).Some? && c < n
    ensures SlotIn(FillAll(owner, n, rs).value[c], key) == if c == owner(key) then SlotOf(Last(rs, key)) else EMPTY_SLOT
  {
    hide SlotIn, Insert;
    if rs == [] {
      NewShardSlots(key);
    } else {
      var front := rs[..|rs| - 1];
      FillSlots(owner, n, front, c, key);
      InsertSlots(owner, FillAll(owner, n, front).value, rs[|rs| - 1], c, key);
    }
  }

  lemma NewShardSlots(key: Bytes)
    ensures SlotIn(NEW_SHARD, key) == EMPTY_SLOT
  {
  }

  // ---------------------------------------------------------------- room

  ghost function KeysAt(owner: Owner, rs: seq<Record>, c: nat): set<Bytes> {
    set r | r in rs && owner(r.key) == c :: r.key
  }

  ghost predicate Room(owner: Owner, n: nat, rs: seq<Record>) {
    forall c :: 0 <= c < n ==> |KeysAt(owner, rs, c)| <= CAPACITY
  }

  /** A table into which only insertions went: every used slot holds a key. */
  ghost predicate Packed(s: State, keys: set<Bytes>) {
    s.table.contents.Keys == keys && s.table.used == |keys| && s.table.capacity == CAPACITY
  }

  lemma InsertPacked(owner: Owner, shards: seq<State>, r: Record, keys: set<Bytes>)
    requires owner(r.key) < |shards| && Packed(shards[owner(r.key)], keys) && |keys| <= CAPACITY
    ensures var out := Insert(owner, shards, r);
            && (out.Some? <==> |keys + {r.key}| <= CAPACITY)
            && (out.Some? ==> Packed(out.value[owner(r.key)], keys + {r.key}))
            && (out.Some? ==> forall c :: 0 <= c < |shards| && c != owner(r.key) ==> out.value[c] == shards[c])
  {
    hide AfterSet, Packed;
    SetPacked(shards[owner(r.key)], r.key, r.value, keys);
  }

  lemma SetPacked(s: State, key: Bytes, v: Value, keys: set<Bytes>)
    requires Packed(s, keys) && |keys| <= CAPACITY
    ensures var (t, ok) := AfterSet(s, key, v);
            && (ok <==> |keys + {key}| <= CAPACITY)
            && (ok ==> Packed(t, keys + {key}) && forall x :: Packed(t.(expires := x), keys + {key}))
  {
    AddSize(keys, key);
    if key in keys { assert keys + {key} == keys; }
    assert s.table.contents[key := v].Keys == keys + {key};
  }

  lemma AddSize(keys: set<Bytes>, key: Bytes)
    ensures |keys + {key}| == |keys| + if key in keys then 0 else 1
  {
    if key in keys { assert keys + {key} == keys; }
  }

  /** Loading succeeds exactly when no shard is to hold more keys than it has slots. */
  lemma {:induction false} FillRoom(owner: Owner, n: nat, rs: seq<Record>)
    requires Routes(owner, n)
    ensures FillAll(owner, n, rs).Some? <==> Room(owner, n, rs)
    ensures FillAll(owner, n, rs).Some? ==>
              forall c :: 0 <= c < n ==> Packed(FillAll(owner, n, rs).value[c], KeysAt(owner, rs, c))
  {
    hide Packed, Insert, KeysAt;
    if rs == [] {
      NewShardPacked();
      forall c: nat ensures KeysAt(owner, rs, c) == {} { NoKeys(owner, c); }
    } else {
      var front, r := rs[..|rs| - 1], rs[|rs| - 1];
      FillRoom(owner, n, front);
      forall c: nat ensures KeysAt(owner, rs, c) == KeysAt(owner, front, c) + if owner(r.key) == c then {r.key} else {} {
        KeysAtSnoc(owner, rs, c);
      }
      if FillAll(owner, n, front).None? {
        var c :| 0 <= c < n && |KeysAt(owner, front, c)| > CAPACITY;
        Fewer(KeysAt(owner, front, c), KeysAt(owner, rs, c));
      } else {
        InsertPacked(owner, FillAll(owner, n, front).value, r, KeysAt(owner, front, owner(r.key)));
      }
    }
  }

  lemma NoKeys(owner: Owner, c: nat)
    ensures KeysAt(owner, [], c) == {}
  {
  }

  lemma NewShardPacked()
    ensures Packed(NEW_SHARD, {})
  {
  }

  lemma KeysAtSnoc(owner: Owner, rs: seq<Record>, c: nat)
    requires rs != []
    ensures var r := rs[|rs| - 1];
            KeysAt(owner, rs, c) == KeysAt(owner, rs[..|rs| - 1], c) + if owner(r.key) == c then {r.key} else {}
  {
    assert rs == rs[..|rs| - 1] + [rs[|rs| - 1]];
  }

  lemma Fewer(a: set<Bytes>, b: set<Bytes>)
    requires a <= b
    ensures |a| <= |b|
  {
    assert b == a + (b - a);
  }

  // ---------------------------------------------------------------- loading

  datatype Outcome = Loaded(shards: seq<State>) | Rejected(shards: seq<State>) | Exception | Undefined

  /** What comes of the records read: `Undefined` once the stream has ended inside one. */
  function Loading(owner: Owner, n: nat, read: (seq<Record>, Ending)): Outcome
    requires Routes(owner, n)
  {
    match FillAll(owner, n, read.0)
    case None => Exception
    case Some(shards) =>
      if read.1 == Finished then Loaded(shards) else if read.1 == Refused then Rejected(shards) else Undefined
  }

  /** `load` into `n` fresh shards. */
  function Load(asWritten: bool, owner: Owner, n: nat, file: Bytes): Outcome
    requires Routes(owner, n)
  {
    match Header(file)
    case Some(Overran) => Undefined
    case Some(_) => Rejected(seq(n, _ => NEW_SHARD))
    case None => Loading(owner, n, Records(asWritten, file[11..]))
  }

  // ---------------------------------------------------------------- the round trip

  predicate Sensible(slot: Slot) {
    slot.expiry.Some? ==> slot.value.Some?
  }

  /** Each key is stored in its owner's shard only, and only live keys have an expiry. */
  ghost predicate Placed(owner: Owner, shards: seq<State>) {
    && Routes(owner, |shards|)
    && (forall c, key :: 0 <= c < |shards| && c != owner(key) ==> SlotIn(shards[c], key) == EMPTY_SLOT)
    && (forall c, key :: 0 <= c < |shards| ==> Sensible(SlotIn(shards[c], key)))
  }

  /** What the database as a whole holds under a key. */
  ghost function Global(owner: Owner, shards: seq<State>, key: Bytes): Slot
    requires owner(key) < |shards|
  {
    SlotIn(shards[owner(key)], key)
  }

  /** The records `save` visits: every key of the database, once. */
  ghost predicate Lists(rs: seq<Record>, owner: Owner, shards: seq<State>)
    requires Routes(owner, |shards|)
  {
    && (forall i, j :: 0 <= i < j < |rs| ==> rs[i].key != rs[j].key)
    && (forall r: Record :: r in rs <==> Global(owner, shards, r.key) == Slot(Some(r.value), r.expiry))
  }

  ghost predicate Restored(owner: Owner, shards: seq<State>, home: Owner, n: nat, out: Outcome)
    requires Routes(owner, |shards|) && Routes(home, n)
  {
    && out.Loaded? && |out.shards| == n && Placed(home, out.shards)
    && forall key :: Global(home, out.shards, key) == Global(owner, shards, key)
  }

  lemma {:induction false} LastOfDistinct(rs: seq<Record>, r: Record)
    requires r in rs && forall i, j :: 0 <= i < j < |rs| ==> rs[i].key != rs[j].key
    ensures Last(rs, r.key) == Some(r)
  {
    var n := |rs| - 1;
    if rs[n] != r {
      var i :| 0 <= i < |rs| && rs[i] == r;
      assert r in rs[..n] by { assert rs[..n][i] == r; }
      LastOfDistinct(rs[..n], r);
    }
  }

  /** The listing gives every key's slot. */
  lemma ListedSlot(rs: seq<Record>, owner: Owner, shards: seq<State>, key: Bytes)
    requires Placed(owner, shards) && Lists(rs, owner, shards)
    ensures SlotOf(Last(rs, key)) == Global(owner, shards, key)
  {
    hide SlotIn;
    var slot := Global(owner, shards, key);
    if slot.value.Some? {
      var r := Record(key, slot.value.value, slot.expiry);
      assert r in rs;
      LastOfDistinct(rs, r);
    }
  }

  lemma SameSlotsRestored(owner: Owner, shards: seq<State>, home: Owner, t: seq<State>)
    requires Placed(owner, shards) && Routes(home, |t|)
    requires forall c, key :: 0 <= c < |t| ==>
               SlotIn(t[c], key) == if c == home(key) then Global(owner, shards, key) else EMPTY_SLOT
    ensures Restored(owner, shards, home, |t|, Loaded(t))
  {
    hide SlotIn;
    assert Sensible(EMPTY_SLOT);
    assert forall key :: Sensible(Global(owner, shards, key));
    forall c, key | 0 <= c < |t| ensures Sensible(SlotIn(t[c], key)) {
      assert SlotIn(t[c], key) == if c == home(key) then Global(owner, shards, key) else EMPTY_SLOT;
    }
    assert Placed(home, t);
  }

  /** Reading back exactly the records written restores the database if there is room, and throws
      if there is not. */
  lemma FillRestores(owner: Owner, shards: seq<State>, rs: seq<Record>, home: Owner, n: nat, out: Outcome)
    requires Placed(owner, shards) && Lists(rs, owner, shards) && Routes(home, n)
    requires out == var f := FillAll(home, n, rs); if f.None? then Exception else Loaded(f.value)
    ensures if Room(home, n, rs) then Restored(owner, shards, home, n, out) else out == Exception
  {
    hide SlotIn, Room, Lists, FillAll, SlotOf, Last;
    FillRoom(home, n, rs);
    if out.Loaded? {
      forall c, key | 0 <= c < n
        ensures SlotIn(out.shards[c], key) == if c == home(key) then Global(owner, shards, key) else EMPTY_SLOT
      {
        FillSlots(home, n, rs, c, key);
        ListedSlot(rs, owner, shards, key);
      }
      SameSlotsRestored(owner, shards, home, out.shards);
    }
  }

  ghost predicate NoExpiry(rs: seq<Record>) {
    forall r :: r in rs ==> r.expiry.None?
  }

  /** A database that is restored was read record for record. */
  lemma RestoredWasRead(owner: Owner, shards: seq<State>, rs: seq<Record>, home: Owner, n: nat, out: seq<Record>)
    requires Placed(owner, shards) && Lists(rs, owner, shards) && Routes(home, n) && FillAll(home, n, out).Some?
    requires Restored(owner, shards, home, n, Loaded(FillAll(home, n, out).value))
    ensures forall r :: r in rs ==> r in out
  {
    hide SlotIn;
    forall r | r in rs ensures r in out {
      FillSlots(home, n, out, home(r.key), r.key);
      assert Global(home, FillAll(home, n, out).value, r.key) == Global(owner, shards, r.key);
    }
  }

  lemma WrittenSize(r: Record)
    ensures Floor(r) >= |Written(r)| + if r.expiry.Some? then 4 else 0
  {
  }

  /** The reader's floors exceed what was written as soon as one record has an expiry. */
  lemma {:induction false} FloorsExceed(rs: seq<Record>)
    ensures Total(Floor, rs) >= |Join(Written, rs)|
    ensures !NoExpiry(rs) ==> Total(Floor, rs) >= |Join(Written, rs)| + 4
  {
    hide Floor, Written;
    if rs != [] {
      WrittenSize(rs[0]);
      FloorsExceed(rs[1..]);
      if !NoExpiry(rs) && rs[0].expiry.None? {
        var r :| r in rs && r.expiry.Some?;
        assert r in rs[1..];
      }
    }
  }

  lemma RestoredHadNoExpiry(owner: Owner, shards: seq<State>, rs: seq<Record>, home: Owner, n: nat)
    requires Placed(owner, shards) && Lists(rs, owner, shards) && Routes(home, n)
    requires Restored(owner, shards, home, n, Load(true, home, n, Save(rs)))
    ensures NoExpiry(rs)
  {
    hide SlotIn, Floor, Written, Records, Restored;
    HeaderOk(rs);
    var body := Join(Written, rs) + [END_OF_FILE];
    var out := Records(true, body).0;
    RestoredLoaded(owner, shards, home, n, Load(true, home, n, Save(rs)));
    RestoredWasRead(owner, shards, rs, home, n, out);
    DistinctWeighLess(Floor, rs, out);
    RecordsSize(body);
    FloorsExceed(rs);
  }

  lemma RestoredLoaded(owner: Owner, shards: seq<State>, home: Owner, n: nat, out: Outcome)
    requires Routes(owner, |shards|) && Routes(home, n) && Restored(owner, shards, home, n, out)
    ensures out.Loaded?
  {
  }

  ghost predicate SaveOk(owner: Owner, shards: seq<State>, rs: seq<Record>) {
    Placed(owner, shards) && Lists(rs, owner, shards) && forall r :: r in rs ==> RecordOk(r)
  }

  /** The snapshot round trip, into any number of cores: the database is restored, each key in the
      shard of its new owner, exactly when it has no expiries and no new shard lacks room. Without
      expiries, lack of room is the only failure, and it is the table's exception. */
  lemma RoundTrip(owner: Owner, shards: seq<State>, rs: seq<Record>, home: Owner, n: nat)
    requires SaveOk(owner, shards, rs) && Routes(home, n)
    ensures var out := Load(true, home, n, Save(rs));
            && (Restored(owner, shards, home, n, out) <==> NoExpiry(rs) && Room(home, n, rs))
            && (NoExpiry(rs) && !Room(home, n, rs) ==> out == Exception)
  {
    hide SlotIn, Written, Lists, Records, Restored, Room, RecordOk, Save, Header, FillAll;
    var out := Load(true, home, n, Save(rs));
    HeaderOk(rs);
    if Restored(owner, shards, home, n, out) { RestoredHadNoExpiry(owner, shards, rs, home, n); }
    if NoExpiry(rs) {
      RecordsInvert(true, rs);
      FillRestores(owner, shards, rs, home, n, out);
      if Restored(owner, shards, home, n, out) { RestoredLoaded(owner, shards, home, n, out); }
    }
  }

  /** With the key read in its place, expiries are restored too. */
  lemma CorrectedRoundTrip(owner: Owner, shards: seq<State>, rs: seq<Record>, home: Owner, n: nat)
    requires SaveOk(owner, shards, rs) && Routes(home, n) && forall r :: r in rs ==> r.expiry != Some(-1)
    ensures var out := Load(false, home, n, Save(rs));
            if Room(home, n, rs) then Restored(owner, shards, home, n, out) else out == Exception
  {
    hide SlotIn, Written, Lists, Records, Restored, Room, RecordOk, Save, Header, FillAll;
    HeaderOk(rs);
    RecordsInvert(false, rs);
    FillRestores(owner, shards, rs, home, n, Load(false, home, n, Save(rs)));
  }

  /** No shard holds more keys than it has slots. */
  ghost predicate WithinSlots(shards: seq<State>) {
    forall c :: 0 <= c < |shards| ==> |shards[c].table.contents| <= CAPACITY
  }

  /** What the shards hold now, the same number of shards has room for. */
  lemma SameOwnersRoom(owner: Owner, shards: seq<State>, rs: seq<Record>)
    requires Placed(owner, shards) && Lists(rs, owner, shards) && WithinSlots(shards)
    ensures Room(owner, |shards|, rs)
  {
    forall c | 0 <= c < |shards| ensures |KeysAt(owner, rs, c)| <= CAPACITY {
      forall key | key in KeysAt(owner, rs, c) ensures key in shards[c].table.contents {
        var r :| r in rs && owner(r.key) == c && r.key == key;
        assert Global(owner, shards, r.key) == Slot(Some(r.value), r.expiry);
      }
      Fewer(KeysAt(owner, rs, c), shards[c].table.contents.Keys);
    }
  }

  /** A key with an expiry, alone in the database, is not restored. */
  lemma ExpiryLost(owner: Owner, shards: seq<State>, home: Owner, n: nat)
    requires |shards| == 1 && Routes(owner, 1) && Routes(home, n)
    requires shards[0] == State(Budgeted(map[Ascii("k") := Str(Ascii("v"))], 1, CAPACITY), map[Ascii("k") := 1000])
    ensures !Restored(owner, shards, home, n, Load(true, home, n, Save([Record(Ascii("k"), Str(Ascii("v")), Some(1000))])))
  {
    var r := Record(Ascii("k"), Str(Ascii("v")), Some(1000));
    var rs := [r];
    assert r in rs;
    forall q: Record ensures q in rs <==> Global(owner, shards, q.key) == Slot(Some(q.value), q.expiry) {
    }
    hide Restored, Load, Save;
    RoundTrip(owner, shards, rs, home, n);
  }
}
