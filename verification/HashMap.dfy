/** The fixed-capacity open-addressing table (`src/storage/hash_map.hpp`): linear probing,
    tombstones that are never reused, `std::hash` taken as an arbitrary function.

    The functions on `seq<Entry>` are the table operations; the class runs the source's probe loops
    in place and is proved equal to them; `Refines` relates every operation sequence to a
    mathematical map with an insert budget. */
module HashMap {
  import opened Bytes

  datatype Entry<V> = Entry(key: Bytes, value: V, occupied: bool, deleted: bool)

  predicate Live<V>(e: Entry<V>) {
    e.occupied && !e.deleted
  }

  // ---------------------------------------------------------------- probing

  /** The slot `d` steps after `start` in a table of `n` slots. */
  function Slot(start: nat, d: nat, n: nat): (i: nat)
    requires start < n && d <= n
    ensures i < n
  {
    if start + d < n then start + d else start + d - n
  }

  /** How many steps the probe from `start` takes to reach slot `i`. */
  function Distance(start: nat, i: nat, n: nat): (d: nat)
    requires start < n && i < n
    ensures d < n && Slot(start, d, n) == i
  {
    if start <= i then i - start else i - start + n
  }

  datatype Probe = Hit(slot: nat) | Free(slot: nat) | Exhausted

  /** The probe loop shared by `put`, `get` and `del`, `d` steps in. */
  function ProbeFrom<V>(t: seq<Entry<V>>, key: Bytes, start: nat, d: nat): (r: Probe)
    requires start < |t| && d <= |t|
    ensures !r.Exhausted? ==> r.slot < |t|
    ensures r.Hit? ==> Live(t[r.slot]) && t[r.slot].key == key
    ensures r.Free? ==> !t[r.slot].occupied
    decreases |t| - d
  {
    if d == |t| then Exhausted
    else
      var i := Slot(start, d, |t|);
      if !t[i].occupied then Free(i)
      else if !t[i].deleted && t[i].key == key then Hit(i)
      else ProbeFrom(t, key, start, d + 1)
  }

  function Home(h: Bytes -> nat, key: Bytes, n: nat): (i: nat)
    requires n > 0
    ensures i < n
  {
    h(key) % n
  }

  function Find<V>(t: seq<Entry<V>>, h: Bytes -> nat, key: Bytes): (r: Probe)
    requires t != []
    ensures !r.Exhausted? ==> r.slot < |t|
    ensures r.Hit? ==> Live(t[r.slot]) && t[r.slot].key == key
    ensures r.Free? ==> !t[r.slot].occupied
  {
    ProbeFrom(t, key, Home(h, key, |t|), 0)
  }

  // ---------------------------------------------------------------- operations

  /** `Full` is the exception "HashMap is full". */
  datatype PutResult = Inserted | Updated | Full

  function PutIn<V>(t: seq<Entry<V>>, h: Bytes -> nat, key: Bytes, value: V): (seq<Entry<V>>, PutResult)
    requires t != []
  {
    match Find(t, h, key)
    case Hit(i) => (t[i := t[i].(value := value)], Updated)
    case Free(i) => (t[i := Entry(key, value, true, false)], Inserted)
    case Exhausted => (t, Full)
  }

  function GetIn<V>(t: seq<Entry<V>>, h: Bytes -> nat, key: Bytes): Option<V>
    requires t != []
  {
    match Find(t, h, key)
    case Hit(i) => Some(t[i].value)
    case _ => None
  }

  function DelIn<V>(t: seq<Entry<V>>, h: Bytes -> nat, key: Bytes, blank: V): (seq<Entry<V>>, bool)
    requires t != []
  {
    match Find(t, h, key)
    case Hit(i) => (t[i := t[i].(deleted := true, value := blank)], true)
    case _ => (t, false)
  }

  // ---------------------------------------------------------------- the table invariant

  /** Slot `i` can be reached: every slot its probe visits first is occupied. */
  ghost predicate Reachable<V>(t: seq<Entry<V>>, h: Bytes -> nat, i: nat)
    requires i < |t|
  {
    var start := Home(h, t[i].key, |t|);
    forall d :: 0 <= d < Distance(start, i, |t|) ==> t[Slot(start, d, |t|)].occupied
  }

  ghost predicate Sound<V>(t: seq<Entry<V>>, h: Bytes -> nat) {
    && t != []
    && (forall i :: 0 <= i < |t| && t[i].deleted ==> t[i].occupied)
    && (forall i, j :: 0 <= i < |t| && 0 <= j < |t| && Live(t[i]) && Live(t[j]) && t[i].key == t[j].key ==> i == j)
    && (forall i :: 0 <= i < |t| && Live(t[i]) ==> Reachable(t, h, i))
  }

  predicate Used<V>(e: Entry<V>) {
    e.occupied
  }

  /** The number of slots with property `p`. */
  ghost function Count<V>(t: seq<Entry<V>>, p: Entry<V> -> bool): (n: nat)
    ensures n <= |t|
  {
    if t == [] then 0 else Count(t[..|t| - 1], p) + if p(t[|t| - 1]) then 1 else 0
  }

  /** The simple form: a map and how many of its `capacity` inserts are spent. */
  datatype Budgeted<V> = Budgeted(contents: map<Bytes, V>, used: nat, capacity: nat)

  /** The live entries are exactly the map. */
  ghost predicate Holds<V>(t: seq<Entry<V>>, m: map<Bytes, V>) {
    && (forall i :: 0 <= i < |t| && Live(t[i]) ==> t[i].key in m && m[t[i].key] == t[i].value)
    && (forall k :: k in m ==> exists i :: 0 <= i < |t| && Live(t[i]) && t[i].key == k)
  }

  ghost predicate Represents<V>(t: seq<Entry<V>>, h: Bytes -> nat, b: Budgeted<V>) {
    && Sound(t, h)
    && Holds(t, b.contents)
    && |t| == b.capacity
    && Count(t, Used) == b.used
    && Count(t, Live) == |b.contents|
  }

  lemma WithinCapacity<V>(t: seq<Entry<V>>, h: Bytes -> nat, b: Budgeted<V>)
    requires Represents(t, h, b)
    ensures |b.contents| <= b.capacity
  {
  }

  // ---------------------------------------------------------------- what a probe finds

  /** A probe that ends on a free slot passed only occupied ones, none of them the key's. */
  lemma {:induction false} ProbePath<V>(t: seq<Entry<V>>, key: Bytes, start: nat, d: nat)
    requires start < |t| && d <= |t|
    ensures var r := ProbeFrom(t, key, start, d);
            forall e :: d <= e < (if r.Exhausted? then |t| else Distance(start, r.slot, |t|)) ==>
              var s := t[Slot(start, e, |t|)]; s.occupied && !(Live(s) && s.key == key)
    ensures var r := ProbeFrom(t, key, start, d);
            !r.Exhausted? ==> d <= Distance(start, r.slot, |t|)
    decreases |t| - d
  {
    if d < |t| {
      var i := Slot(start, d, |t|);
      assert Distance(start, i, |t|) == d;
      if t[i].occupied && !(Live(t[i]) && t[i].key == key) {
        ProbePath(t, key, start, d + 1);
      }
    }
  }

  /** A live key is found, where it is. */
  lemma FindLive<V>(t: seq<Entry<V>>, h: Bytes -> nat, i: nat)
    requires Sound(t, h) && i < |t| && Live(t[i])
    ensures Find(t, h, t[i].key) == Hit(i)
  {
    var key := t[i].key;
    var start := Home(h, key, |t|);
    ProbePath(t, key, start, 0);
    var d := Distance(start, i, |t|);
    assert t[Slot(start, d, |t|)] == t[i];
    assert Reachable(t, h, i);
  }

  /** A probe for a key that is not live ends at a free slot if there is one. */
  lemma FindDead<V>(t: seq<Entry<V>>, h: Bytes -> nat, key: Bytes)
    requires Sound(t, h) && forall i :: 0 <= i < |t| && Live(t[i]) ==> t[i].key != key
    ensures !Find(t, h, key).Hit?
    ensures Find(t, h, key).Exhausted? <==> forall i :: 0 <= i < |t| ==> t[i].occupied
  {
    var start := Home(h, key, |t|);
    ProbePath(t, key, start, 0);
    if Find(t, h, key).Exhausted? {
      forall i | 0 <= i < |t| ensures t[i].occupied {
        assert t[Slot(start, Distance(start, i, |t|), |t|)] == t[i];
      }
    }
  }

  lemma FindKey<V>(t: seq<Entry<V>>, h: Bytes -> nat, b: Budgeted<V>, key: Bytes)
    requires Represents(t, h, b)
    ensures Find(t, h, key).Hit? <==> key in b.contents
    ensures key in b.contents ==> t[Find(t, h, key).slot].value == b.contents[key]
    ensures Find(t, h, key).Exhausted? <==> key !in b.contents && b.used == b.capacity
  {
    if key in b.contents {
      var i :| 0 <= i < |t| && Live(t[i]) && t[i].key == key;
      FindLive(t, h, i);
    } else {
      FindDead(t, h, key);
      AllUsed(t);
    }
  }

  lemma {:induction false} CountUpdate<V>(t: seq<Entry<V>>, p: Entry<V> -> bool, i: nat, e: Entry<V>)
    requires i < |t|
    ensures Count(t[i := e], p) ==
            Count(t, p) - (if p(t[i]) then 1 else 0) + (if p(e) then 1 else 0)
  {
    var n, u := |t| - 1, t[i := e];
    if i < n {
      assert u[..n] == t[..n][i := e];
      CountUpdate(t[..n], p, i, e);
    } else {
      assert u[..n] == t[..n];
    }
  }

  lemma {:induction false} AllUsed<V>(t: seq<Entry<V>>)
    ensures Count(t, Used) == |t| <==> forall i :: 0 <= i < |t| ==> t[i].occupied
  {
    if t != [] {
      var n := |t| - 1;
      AllUsed(t[..n]);
      assert forall i :: 0 <= i < n ==> t[..n][i] == t[i];
      assert Used(t[n]) == t[n].occupied;
    }
  }

  // ---------------------------------------------------------------- one operation

  /** The observable behaviour of an operation. */
  datatype Op<V> = Put(key: Bytes, value: V) | Get(key: Bytes) | Del(key: Bytes)

  datatype TableReply<V> = Stored(result: PutResult) | Looked(found: Option<V>) | Removed(was: bool)

  function TableStep<V>(t: seq<Entry<V>>, h: Bytes -> nat, blank: V, op: Op<V>): (r: (seq<Entry<V>>, TableReply<V>))
    requires t != []
    ensures r.0 != []
  {
    match op
    case Put(k, v) => var (u, res) := PutIn(t, h, k, v); (u, Stored(res))
    case Get(k) => (t, Looked(GetIn(t, h, k)))
    case Del(k) => var (u, was) := DelIn(t, h, k, blank); (u, Removed(was))
  }

  /** The same operation on the simple form: full exactly when the budget is spent and the key is new. */
  function MapStep<V>(b: Budgeted<V>, op: Op<V>): (Budgeted<V>, TableReply<V>) {
    match op
    case Put(k, v) =>
      if k in b.contents then (b.(contents := b.contents[k := v]), Stored(Updated))
      else if b.used == b.capacity then (b, Stored(Full))
      else (b.(contents := b.contents[k := v], used := b.used + 1), Stored(Inserted))
    case Get(k) => (b, Looked(if k in b.contents then Some(b.contents[k]) else None))
    case Del(k) => (b.(contents := b.contents - {k}), Removed(k in b.contents))
  }

  /** Changing slot `i` without freeing it keeps every other live slot reachable. */
  lemma ReachableKept<V>(t: seq<Entry<V>>, h: Bytes -> nat, i: nat, e: Entry<V>)
    requires Sound(t, h) && i < |t| && (t[i].occupied ==> e.occupied)
    ensures forall j :: 0 <= j < |t| && j != i && Live(t[j]) ==> Reachable(t[i := e], h, j)
  {
    var u := t[i := e];
    forall j | 0 <= j < |t| && j != i && Live(t[j]) ensures Reachable(u, h, j) {
      assert Reachable(t, h, j);
      var start := Home(h, t[j].key, |t|);
      forall d | 0 <= d < Distance(start, j, |t|) ensures u[Slot(start, d, |u|)].occupied {
        assert t[Slot(start, d, |t|)].occupied;
      }
    }
  }

  /** Writing an entry that is dead, or live, reachable and the only one of its key, is sound. */
  lemma WriteSound<V>(t: seq<Entry<V>>, h: Bytes -> nat, i: nat, e: Entry<V>)
    requires Sound(t, h) && i < |t| && e.occupied
    requires Live(e) ==> Reachable(t[i := e], h, i)
    requires Live(e) ==> forall j :: 0 <= j < |t| && j != i && Live(t[j]) ==> t[j].key != e.key
    ensures Sound(t[i := e], h)
  {
    ReachableKept(t, h, i, e);
    var u := t[i := e];
    forall j | 0 <= j < |u| && Live(u[j]) ensures Reachable(u, h, j) {
      if j != i { assert Live(t[j]); }
    }
  }

  lemma WriteLive<V>(t: seq<Entry<V>>, m: map<Bytes, V>, i: nat, e: Entry<V>)
    requires Holds(t, m) && i < |t| && Live(e)
    requires Live(t[i]) ==> t[i].key == e.key
    requires forall j :: 0 <= j < |t| && j != i && Live(t[j]) ==> t[j].key != e.key
    ensures Holds(t[i := e], m[e.key := e.value])
  {
    var u, c := t[i := e], m[e.key := e.value];
    forall k | k in c ensures exists j :: 0 <= j < |u| && Live(u[j]) && u[j].key == k {
      if k == e.key {
        assert Live(u[i]);
      } else {
        var j :| 0 <= j < |t| && Live(t[j]) && t[j].key == k;
        assert Live(u[j]) && u[j].key == k;
      }
    }
  }

  lemma WriteDead<V>(t: seq<Entry<V>>, m: map<Bytes, V>, i: nat, e: Entry<V>)
    requires Holds(t, m) && i < |t| && Live(t[i]) && !Live(e)
    requires forall j :: 0 <= j < |t| && j != i && Live(t[j]) ==> t[j].key != t[i].key
    ensures Holds(t[i := e], m - {t[i].key})
  {
    var u, c := t[i := e], m - {t[i].key};
    forall k | k in c ensures exists j :: 0 <= j < |u| && Live(u[j]) && u[j].key == k {
      var j :| 0 <= j < |t| && Live(t[j]) && t[j].key == k;
      assert Live(u[j]) && u[j].key == k;
    }
  }

  lemma PutUpdates<V>(t: seq<Entry<V>>, h: Bytes -> nat, b: Budgeted<V>, i: nat, v: V)
    requires Represents(t, h, b) && i < |t| && Live(t[i])
    ensures Represents(t[i := t[i].(value := v)], h, b.(contents := b.contents[t[i].key := v]))
  {
    var e := t[i].(value := v);
    assert Reachable(t[i := e], h, i) by { assert Reachable(t, h, i); }
    WriteSound(t, h, i, e);
    WriteLive(t, b.contents, i, e);
    assert t[i].key in b.contents;
    assert b.contents[t[i].key := v].Keys == b.contents.Keys;
    hide Sound, Holds;
    CountUpdate(t, Used, i, e);
    CountUpdate(t, Live, i, e);
  }

  lemma PutInserts<V>(t: seq<Entry<V>>, h: Bytes -> nat, b: Budgeted<V>, k: Bytes, v: V)
    requires Represents(t, h, b) && k !in b.contents && Find(t, h, k).Free?
    ensures var e := Entry(k, v, true, false);
            Represents(t[Find(t, h, k).slot := e], h, b.(contents := b.contents[k := v], used := b.used + 1))
  {
    var i, e := Find(t, h, k).slot, Entry(k, v, true, false);
    assert Reachable(t[i := e], h, i) by { ProbePath(t, k, Home(h, k, |t|), 0); }
    hide Find;
    WriteSound(t, h, i, e);
    WriteLive(t, b.contents, i, e);
    assert b.contents[k := v].Keys == b.contents.Keys + {k};
    hide Sound, Holds;
    CountUpdate(t, Used, i, e);
    CountUpdate(t, Live, i, e);
  }

  lemma DelRemoves<V>(t: seq<Entry<V>>, h: Bytes -> nat, b: Budgeted<V>, i: nat, blank: V)
    requires Represents(t, h, b) && i < |t| && Live(t[i])
    ensures Represents(t[i := t[i].(deleted := true, value := blank)], h, b.(contents := b.contents - {t[i].key}))
  {
    var e := t[i].(deleted := true, value := blank);
    WriteSound(t, h, i, e);
    WriteDead(t, b.contents, i, e);
    assert (b.contents - {t[i].key}).Keys == b.contents.Keys - {t[i].key};
    hide Sound, Holds;
    CountUpdate(t, Used, i, e);
    CountUpdate(t, Live, i, e);
  }

  /** One operation on the table is the operation on the map it represents. */
  lemma StepRefines<V>(t: seq<Entry<V>>, h: Bytes -> nat, blank: V, b: Budgeted<V>, op: Op<V>)
    requires Represents(t, h, b)
    ensures var (u, r), (c, q) := TableStep(t, h, blank, op), MapStep(b, op);
            r == q && Represents(u, h, c)
  {
    hide Represents;
    RepresentsNonEmpty(t, h, b);
    FindKey(t, h, b, op.key);
    hide Find;
    var f := Find(t, h, op.key);
    match op
    case Put(k, v) =>
      if f.Hit? { PutUpdates(t, h, b, f.slot, v); }
      if f.Free? { PutInserts(t, h, b, k, v); }
    case Get(k) =>
    case Del(k) =>
      if f.Hit? {
        DelRemoves(t, h, b, f.slot, blank);
      } else {
        assert b.contents - {k} == b.contents;
      }
  }

  lemma RepresentsNonEmpty<V>(t: seq<Entry<V>>, h: Bytes -> nat, b: Budgeted<V>)
    requires Represents(t, h, b)
    ensures t != []
  {
  }

  // ---------------------------------------------------------------- every run

  function TableRun<V>(t: seq<Entry<V>>, h: Bytes -> nat, blank: V, ops: seq<Op<V>>): (seq<Entry<V>>, seq<TableReply<V>>)
    requires t != []
    decreases |ops|
  {
    if ops == [] then (t, [])
    else
      var (u, r) := TableStep(t, h, blank, ops[0]);
      var (w, rs) := TableRun(u, h, blank, ops[1..]);
      (w, [r] + rs)
  }

  function MapRun<V>(b: Budgeted<V>, ops: seq<Op<V>>): (Budgeted<V>, seq<TableReply<V>>)
    decreases |ops|
  {
    if ops == [] then (b, [])
    else
      var (c, r) := MapStep(b, ops[0]);
      var (d, rs) := MapRun(c, ops[1..]);
      (d, [r] + rs)
  }

  /** Over every operation sequence the table answers as the map does and goes on representing it:
      tombstones neither hide nor resurrect a key. */
  lemma {:induction false} RunRefines<V>(t: seq<Entry<V>>, h: Bytes -> nat, blank: V, b: Budgeted<V>, ops: seq<Op<V>>)
    requires Represents(t, h, b) && t != []
    ensures var (u, rs), (c, qs) := TableRun(t, h, blank, ops), MapRun(b, ops);
            rs == qs && Represents(u, h, c)
    decreases |ops|
  {
    hide Represents, TableStep, MapStep;
    if ops != [] {
      StepRefines(t, h, blank, b, ops[0]);
      RunRefines(TableStep(t, h, blank, ops[0]).0, h, blank, MapStep(b, ops[0]).0, ops[1..]);
    }
  }

  function EmptyTable<V>(capacity: nat, blank: V): (t: seq<Entry<V>>)
    ensures |t| == capacity
  {
    seq(capacity, _ => Entry([], blank, false, false))
  }

  lemma {:induction false} NoneCounted<V>(t: seq<Entry<V>>, p: Entry<V> -> bool)
    requires forall i :: 0 <= i < |t| ==> !p(t[i])
    ensures Count(t, p) == 0
  {
    if t != [] { NoneCounted(t[..|t| - 1], p); }
  }

  lemma EmptyRepresents<V>(capacity: nat, h: Bytes -> nat, blank: V)
    requires capacity > 0
    ensures Represents(EmptyTable(capacity, blank), h, Budgeted(map[], 0, capacity))
  {
    NoneCounted(EmptyTable(capacity, blank), Used<V>);
    NoneCounted(EmptyTable(capacity, blank), Live<V>);
  }

  function Inserts<V>(rs: seq<TableReply<V>>): nat {
    if rs == [] then 0 else (if rs[0] == Stored(Inserted) then 1 else 0) + Inserts(rs[1..])
  }

  lemma {:induction false} MapRunBudget<V>(b: Budgeted<V>, ops: seq<Op<V>>)
    requires b.used <= b.capacity
    ensures var (c, rs) := MapRun(b, ops);
            c.used == b.used + Inserts(rs) && c.used <= c.capacity == b.capacity
    decreases |ops|
  {
    if ops != [] {
      var (c, r) := MapStep(b, ops[0]);
      MapRunBudget(c, ops[1..]);
      var rs := MapRun(c, ops[1..]).1;
      assert ([r] + rs)[1..] == rs;
    }
  }

  /** The insert budget: from a new table, the used slots are the puts that inserted, never more
      than the capacity, whatever was deleted in between. */
  lemma InsertBudget<V>(capacity: nat, h: Bytes -> nat, blank: V, ops: seq<Op<V>>)
    requires capacity > 0
    ensures var (t, rs) := TableRun(EmptyTable(capacity, blank), h, blank, ops);
            Count(t, Used) == Inserts(rs) <= capacity
  {
    hide Find;
    EmptyRepresents(capacity, h, blank);
    RunRefines(EmptyTable(capacity, blank), h, blank, Budgeted(map[], 0, capacity), ops);
    MapRunBudget(Budgeted(map[], 0, capacity), ops);
  }

  // ---------------------------------------------------------------- iteration

  /** What `for_each` visits: the live entries in slot order. */
  function Entries<V>(t: seq<Entry<V>>): seq<(Bytes, V)> {
    if t == [] then []
    else
      var e := t[|t| - 1];
      Entries(t[..|t| - 1]) + if Live(e) then [(e.key, e.value)] else []
  }

  /** Each entry visited is a live slot. */
  lemma {:induction false} EntryIsLive<V>(t: seq<Entry<V>>, x: (Bytes, V)) returns (i: nat)
    requires x in Entries(t)
    ensures i < |t| && Live(t[i]) && x == (t[i].key, t[i].value)
  {
    var n := |t| - 1;
    if x in Entries(t[..n]) {
      i := EntryIsLive(t[..n], x);
    } else {
      i := n;
    }
  }

  /** Each live slot is visited. */
  lemma {:induction false} LiveIsEntry<V>(t: seq<Entry<V>>, i: nat)
    requires i < |t| && Live(t[i])
    ensures (t[i].key, t[i].value) in Entries(t)
  {
    var n := |t| - 1;
    if i < n {
      LiveIsEntry(t[..n], i);
    }
  }

  lemma {:induction false} EntriesDistinct<V>(t: seq<Entry<V>>)
    requires forall i, j :: 0 <= i < |t| && 0 <= j < |t| && Live(t[i]) && Live(t[j]) && t[i].key == t[j].key ==> i == j
    ensures forall i, j :: 0 <= i < j < |Entries(t)| ==> Entries(t)[i].0 != Entries(t)[j].0
  {
    if t != [] {
      var n := |t| - 1;
      var u := t[..n];
      assert forall i :: 0 <= i < n ==> u[i] == t[i];
      EntriesDistinct(u);
      var es := Entries(u);
      forall i | 0 <= i < |es| ensures Live(t[n]) ==> es[i].0 != t[n].key {
        var k := EntryIsLive(u, es[i]);
      }
    }
  }

  /** `for_each` visits exactly the map the table represents, each key once. */
  lemma EntriesOfTable<V>(t: seq<Entry<V>>, h: Bytes -> nat, b: Budgeted<V>)
    requires Represents(t, h, b)
    ensures forall k, v :: (k, v) in Entries(t) <==> k in b.contents && b.contents[k] == v
    ensures forall i, j :: 0 <= i < j < |Entries(t)| ==> Entries(t)[i].0 != Entries(t)[j].0
  {
    EntriesDistinct(t);
    forall k, v ensures (k, v) in Entries(t) <==> k in b.contents && b.contents[k] == v {
      if (k, v) in Entries(t) {
        var i := EntryIsLive(t, (k, v));
      }
      if k in b.contents && b.contents[k] == v {
        var i :| 0 <= i < |t| && Live(t[i]) && t[i].key == k;
        LiveIsEntry(t, i);
      }
    }
  }

  // ---------------------------------------------------------------- the class

  class HashMap<V(==)> {
    const hash: Bytes -> nat
    const blank: V
    const entries: array<Entry<V>>
    var size: nat
    /** The map this table represents. */
    ghost var model: Budgeted<V>

    ghost predicate Valid()
      reads this, entries
    {
      Represents(entries[..], hash, model) && size == |model.contents|
    }

    constructor (hash: Bytes -> nat, blank: V, capacity: nat)
      requires capacity > 0
      ensures Valid() && fresh(entries) && this.hash == hash && this.blank == blank
      ensures model == Budgeted(map[], 0, capacity)
    {
      this.hash, this.blank, this.size := hash, blank, 0;
      entries := new Entry<V>[capacity](_ => Entry([], blank, false, false));
      model := Budgeted(map[], 0, capacity);
      new;
      EmptyRepresents(capacity, hash, blank);
      assert entries[..] == EmptyTable(capacity, blank);
    }

    /** The three operations' probe loop. */
    method Seek(key: Bytes) returns (r: Probe)
      requires entries.Length > 0
      ensures r == Find(entries[..], hash, key)
    {
      var n := entries.Length;
      var idx := hash(key) % n;
      var start := idx;
      ghost var d := 0;
      while entries[idx].occupied
        invariant 0 <= d < n && idx == Slot(start, d, n) && start == Home(hash, key, n)
        invariant ProbeFrom(entries[..], key, start, d) == Find(entries[..], hash, key)
        decreases n - d
      {
        if !entries[idx].deleted && entries[idx].key == key { return Hit(idx); }
        NextSlot(idx, n);
        idx := (idx + 1) % n;
        d := d + 1;
        if idx == start { return Exhausted; }
      }
      return Free(idx);
    }

    method Put(key: Bytes, value: V) returns (result: PutResult)
      requires Valid()
      modifies this, entries
      ensures Valid()
      ensures (model, Stored(result)) == MapStep(old(model), Op.Put(key, value))
    {
      hide Represents, Find, MapStep;
      ghost var t := entries[..];
      StepRefines(t, hash, blank, model, Op.Put(key, value));
      StepSize(model, Op.Put(key, value));
      RepresentsNonEmpty(t, hash, model);
      var r := Seek(key);
      model := MapStep(model, Op.Put(key, value)).0;
      match r {
        case Hit(i) =>
          entries[i] := entries[i].(value := value);
          assert entries[..] == t[i := t[i].(value := value)];
          result := Updated;
        case Free(i) =>
          entries[i] := Entry(key, value, true, false);
          assert entries[..] == t[i := Entry(key, value, true, false)];
          size := size + 1;
          result := Inserted;
        case Exhausted =>
          result := Full;
      }
    }

    method Get(key: Bytes) returns (value: Option<V>)
      requires Valid()
      ensures Looked(value) == MapStep(model, Op.Get(key)).1
    {
      StepRefines(entries[..], hash, blank, model, Op.Get(key));
      var r := Seek(key);
      if r.Hit? { return Some(entries[r.slot].value); }
      return None;
    }

    method Del(key: Bytes) returns (was: bool)
      requires Valid()
      modifies this, entries
      ensures Valid()
      ensures (model, Removed(was)) == MapStep(old(model), Op.Del(key))
    {
      hide Represents, Find, MapStep;
      ghost var t := entries[..];
      StepRefines(t, hash, blank, model, Op.Del(key));
      StepSize(model, Op.Del(key));
      RepresentsNonEmpty(t, hash, model);
      var r := Seek(key);
      model := MapStep(model, Op.Del(key)).0;
      was := r.Hit?;
      if was {
        var i := r.slot;
        entries[i] := entries[i].(deleted := true, value := blank);
        assert entries[..] == t[i := t[i].(deleted := true, value := blank)];
        size := size - 1;
      }
    }

    /** `for_each`, collecting what the callback is given. */
    method ForEach() returns (es: seq<(Bytes, V)>)
      ensures es == Entries(entries[..])
    {
      es := [];
      for i := 0 to entries.Length
        invariant es == Entries(entries[..i])
      {
        assert entries[..i + 1][..i] == entries[..i];
        if entries[i].occupied && !entries[i].deleted {
          es := es + [(entries[i].key, entries[i].value)];
        }
      }
      assert entries[..entries.Length] == entries[..];
    }
  }

  lemma PutSize<V>(m: map<Bytes, V>, k: Bytes, v: V)
    ensures |m[k := v]| == |m| + if k in m then 0 else 1
  {
    assert m[k := v].Keys == m.Keys + {k};
  }

  lemma DropSize<V>(m: map<Bytes, V>, k: Bytes)
    ensures |m - {k}| == |m| - if k in m then 1 else 0
  {
    assert (m - {k}).Keys == m.Keys - {k};
  }

  lemma StepSize<V>(b: Budgeted<V>, op: Op<V>)
    ensures var (c, r) := MapStep(b, op);
            |c.contents| == |b.contents| + (if r == Stored(Inserted) then 1 else if r == Removed(true) then -1 else 0)
  {
    match op
    case Put(k, v) => PutSize(b.contents, k, v);
    case Get(_) =>
    case Del(k) => DropSize(b.contents, k);
  }

  lemma NextSlot(i: nat, n: nat)
    requires i < n
    ensures (i + 1) % n == if i + 1 == n then 0 else i + 1
  {
  }
}
