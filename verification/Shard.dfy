/** One core's partition of the data (`src/storage/shard.cpp`): the table and a side map of expiry
    timestamps. */
module Shard {
  import opened Bytes
  import opened Values
  import opened HashMap
  import opened Commands

  const CAPACITY: nat := 10000

  /** What a shard holds: the map its table represents, and the expiries. */
  datatype State = State(table: Budgeted<Value>, expires: map<Bytes, int>)

  const NEW_SHARD := State(Budgeted(map[], 0, CAPACITY), map[])

  function SlotIn(s: State, key: Bytes): Slot {
    Slot(
      if key in s.table.contents then Some(s.table.contents[key]) else None,
      if key in s.expires then Some(s.expires[key]) else None)
  }

  // ---------------------------------------------------------------- operations

  /** `set`; false is the table's exception, thrown before the expiry is cleared. */
  function AfterSet(s: State, key: Bytes, value: Value): (State, bool) {
    var (b, r) := MapStep(s.table, Op.Put(key, value));
    if r == Stored(Full) then (s, false) else (State(b, s.expires - {key}), true)
  }

  function AfterDel(s: State, key: Bytes): (State, bool) {
    var (b, r) := MapStep(s.table, Op.Del(key));
    (State(b, s.expires - {key}), r == Removed(true))
  }

  /** The mutating `get`: an expired key is deleted first. */
  function AfterGet(s: State, key: Bytes, now: int): (State, Option<Value>) {
    var t := if Expired(SlotIn(s, key), now) then AfterDel(s, key).0 else s;
    (t, SlotIn(t, key).value)
  }

  /** Writing through the pointer `get` returned. */
  function AfterWrite(s: State, key: Bytes, value: Value): State {
    s.(table := s.table.(contents := s.table.contents[key := value]))
  }

  // ---------------------------------------------------------------- on slots

  /** A full table is reported exactly when a new key finds every slot used; nothing changes then. */
  lemma SetOnSlots(s: State, key: Bytes, value: Value, j: Bytes)
    ensures var (t, ok) := AfterSet(s, key, value);
            && (ok <==> key in s.table.contents || s.table.used != s.table.capacity)
            && (!ok ==> t == s)
            && (ok ==> SlotIn(t, j) == if j == key then Fresh(value) else SlotIn(s, j))
  {
  }

  lemma GetOnSlots(s: State, key: Bytes, now: int, j: Bytes)
    ensures var (t, v) := AfterGet(s, key, now);
            && v == Purge(SlotIn(s, key), now).value
            && SlotIn(t, j) == (if j == key then Purge(SlotIn(s, key), now) else SlotIn(s, j))
            && t.table.used == s.table.used && t.table.capacity == s.table.capacity
  {
  }

  lemma DelOnSlots(s: State, key: Bytes, j: Bytes)
    ensures var (t, was) := AfterDel(s, key);
            && was == SlotIn(s, key).value.Some?
            && SlotIn(t, j) == (if j == key then EMPTY_SLOT else SlotIn(s, j))
  {
  }

  // ---------------------------------------------------------------- the class

  class Shard {
    const table: HashMap<Value>
    var expires: map<Bytes, int>

    ghost predicate Valid()
      reads this, table, table.entries
    {
      table.Valid() && table.blank == Nothing && table.model.capacity == CAPACITY
    }

    ghost function Value(): State
      reads this, table
    {
      State(table.model, expires)
    }

    constructor (hash: Bytes -> nat)
      ensures Valid() && Value() == NEW_SHARD && fresh(table) && fresh(table.entries)
    {
      table := new HashMap<Values.Value>(hash, Nothing, CAPACITY);
      expires := map[];
    }

    method Set(key: Bytes, value: Values.Value) returns (ok: bool)
      requires Valid()
      modifies this, table, table.entries
      ensures Valid() && (Value(), ok) == AfterSet(old(Value()), key, value)
    {
      hide Represents;
      var r := table.Put(key, value);
      if r == Full { return false; }
      expires := expires - {key};
      return true;
    }

    method Get(key: Bytes, now: int) returns (value: Option<Values.Value>)
      requires Valid()
      modifies this, table, table.entries
      ensures Valid() && (Value(), value) == AfterGet(old(Value()), key, now)
      ensures value == var slot := SlotIn(old(Value()), key);
                       if slot.expiry.Some? && slot.expiry.value < now then None else slot.value
      ensures var slot := SlotIn(old(Value()), key);
              if slot.expiry.Some? && slot.expiry.value < now then SlotIn(Value(), key) == EMPTY_SLOT else Value() == old(Value())
      ensures forall j :: j != key ==> SlotIn(Value(), j) == SlotIn(old(Value()), j)
    {
      hide Represents;
      if key in expires && now > expires[key] {
        var was := table.Del(key);
        expires := expires - {key};
        return None;
      }
      value := table.Get(key);
    }

    /** The const `get`: the same answer, without the deletion. */
    method Peek(key: Bytes, now: int) returns (value: Option<Values.Value>)
      requires Valid()
      ensures value == AfterGet(Value(), key, now).1
      ensures value == var slot := SlotIn(Value(), key);
                       if slot.expiry.Some? && slot.expiry.value < now then None else slot.value
    {
      if key in expires && now > expires[key] { return None; }
      value := table.Get(key);
    }

    method Del(key: Bytes) returns (was: bool)
      requires Valid()
      modifies this, table, table.entries
      ensures Valid() && (Value(), was) == AfterDel(old(Value()), key)
    {
      expires := expires - {key};
      was := table.Del(key);
    }

    method SetExpiry(key: Bytes, timestamp: int)
      modifies this
      ensures expires == old(expires)[key := timestamp]
    {
      expires := expires[key := timestamp];
    }

    /** -1 for none. */
    method GetExpiry(key: Bytes) returns (timestamp: int)
      ensures timestamp == var e := SlotIn(Value(), key).expiry; if e.Some? then e.value else -1
    {
      if key in expires { return expires[key]; }
      return -1;
    }

    /** An assignment through the pointer `Get` returned: the key is in the table. */
    method Write(key: Bytes, value: Values.Value)
      requires Valid() && key in table.model.contents
      modifies this, table, table.entries
      ensures Valid() && Value() == AfterWrite(old(Value()), key, value)
    {
      var r := table.Put(key, value);
    }
  }
}
