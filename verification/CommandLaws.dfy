/** What each command reads and writes, told by its arguments, the clock and what was stored, with
    every deadline comparison written out. */
module CommandLaws {
  import opened Bytes
  import opened Values
  import opened Protocol
  import opened Commands
  import CommandTheorems

  // ---------------------------------------------------------------- replies as bytes

  lemma LineEnd()
    ensures Ascii("\r\n") == CRLF && Ascii("$") == [DOLLAR] && Ascii(":") == [58]
  {
  }

  /** Replies as they are sent. */
  lemma Wire(n: int, b: Bytes)
    ensures Render(Ok) == Ascii("+OK") + Ascii("\r\n") && Render(Pong) == Ascii("+PONG") + Ascii("\r\n")
    ensures Render(Nil) == Ascii("$-1") + Ascii("\r\n")
    ensures Render(Bulk(b)) == Ascii("$") + Dec(|b|) + Ascii("\r\n") + b + Ascii("\r\n")
    ensures Render(Int(n)) == Ascii(":") + DecInt(n) + Ascii("\r\n")
  {
    hide DecInt, Dec, Ascii;
    LineEnd();
  }

  /** The number in an integer reply reads back. */
  lemma IntegerReads(n: int)
    requires -TWO_63 <= n < TWO_63
    ensures var r := Render(Int(n)); |r| > 3 && r[0] == 58 && r[|r| - 2..] == [13, 10] && Stol(r[1..|r| - 2]) == Some(n)
  {
    hide DecInt;
    var r := Render(Int(n));
    assert r[1..|r| - 2] == DecInt(n);
    ParseDecInt(n, -TWO_63, TWO_63);
  }

  // ---------------------------------------------------------------- the last assignment

  /** HSET: the value of the last pair that names the field. */
  ghost function LastValue(pairs: seq<Bytes>, f: Bytes): Option<Bytes>
    decreases |pairs|
  {
    if |pairs| < 2 then None
    else
      var later := LastValue(pairs[2..], f);
      if later.Some? then later else if pairs[0] == f then Some(pairs[1]) else None
  }

  /** ZADD: the score of the last pair that names the member, before the first bad score. */
  ghost function LastScore(env: Env, pairs: seq<Bytes>, m: Bytes): Option<Score>
    decreases |pairs|
  {
    if |pairs| < 2 || env.stod(pairs[0]).None? then None
    else
      var later := LastScore(env, pairs[2..], m);
      if later.Some? then later else if pairs[1] == m then env.stod(pairs[0]) else None
  }

  ghost function Lookup<V>(m: map<Bytes, V>, k: Bytes): Option<V> {
    if k in m then Some(m[k]) else None
  }

  /** HSET gives each field the value of its last pair; other fields keep theirs. */
  lemma {:induction false} LastPairWins(fields: map<Bytes, Bytes>, pairs: seq<Bytes>, f: Bytes)
    ensures Lookup(SetFields(fields, pairs), f) ==
            if LastValue(pairs, f).Some? then LastValue(pairs, f) else Lookup(fields, f)
    decreases |pairs|
  {
    if |pairs| >= 2 { LastPairWins(fields[pairs[0] := pairs[1]], pairs[2..], f); }
  }

  /** The member has in `y` a score that compares equal to that of its last pair before the first bad
      score; the one it had in `z`, if no such pair names it. */
  ghost predicate Scored(env: Env, z: ZSet, pairs: seq<Bytes>, y: ZSet, m: Bytes) {
    var last := LastScore(env, pairs, m);
    if last.Some? then m in y.dict && Rank(y.dict[m]) == Rank(last.value) else Lookup(y.dict, m) == Lookup(z.dict, m)
  }

  /** ZADD gives each member the score of its last pair; other members keep theirs. */
  lemma {:induction false} LastScoreWins(env: Env, z: ZSet, pairs: seq<Bytes>, m: Bytes)
    ensures Scored(env, z, pairs, AddScores(env, z, pairs).0, m)
    decreases |pairs|
  {
    hide TreeInsert, TreeErase, Rank;
    if |pairs| >= 2 && env.stod(pairs[0]).Some? {
      var e := ZEntry(env.stod(pairs[0]).value, pairs[1]);
      var y := if e.member in z.dict && Rank(z.dict[e.member]) == Rank(e.score) then z else ZInsert(z, e);
      LastScoreWins(env, y, pairs[2..], m);
    }
  }

  /** Only the two zeros compare equal without being the same. */
  lemma RankTells(a: Score, b: Score)
    requires Rank(a) == Rank(b) != 0
    ensures a == b
  {
  }

  // ---------------------------------------------------------------- lists

  lemma {:induction false} ReverseAt(xs: seq<Bytes>, i: nat)
    ensures |Reverse(xs)| == |xs| && (i < |xs| ==> Reverse(xs)[i] == xs[|xs| - 1 - i])
  {
    if xs != [] { ReverseAt(xs[1..], i); }
  }

  /** The index is between the start and the stop, negative ones counting from the end; the first
      index also when the stop lies before it. */
  ghost predicate Selects(start: int, stop: int, size: nat, i: int) {
    && (if start < 0 then size + start else start) <= i
    && (i <= (if stop < 0 then size + stop else stop) || i == 0)
  }

  /** LRANGE lists exactly the selected items, in order. */
  lemma SliceExact(items: seq<Bytes>, start: int, stop: int) returns (lo: nat)
    ensures var r := Slice(items, start, stop);
            && lo + |r| <= |items| && r == items[lo..lo + |r|]
            && forall i :: 0 <= i < |items| ==> (lo <= i < lo + |r| <==> Selects(start, stop, |items|, i))
  {
    var range := Clamp(start, stop, |items|);
    lo := if range.Some? then range.value.0 else 0;
    forall i | 0 <= i < |items|
      ensures lo <= i < lo + |Slice(items, start, stop)| <==> Selects(start, stop, |items|, i)
    {
      CommandTheorems.ClampExact(start, stop, |items|, i);
    }
  }

  // ---------------------------------------------------------------- hashes

  /** HGETALL's listing alternates the fields, in order, with their values. */
  lemma {:induction false} FlatAt(fields: map<Bytes, Bytes>, order: seq<Bytes>, i: nat)
    requires forall f :: f in order ==> f in fields
    ensures var r := Flat(fields, order);
            |r| == 2 * |order| && (i < |order| ==> r[2 * i] == order[i] && r[2 * i + 1] == fields[order[i]])
    decreases |order|
  {
    if order != [] {
      assert order[0] in order;
      FlatAt(fields, order[1..], if i == 0 then 0 else i - 1);
      if 0 < i < |order| { assert order[1..][i - 1] == order[i] && order[i] in order; }
    }
  }

  // ---------------------------------------------------------------- what a command finds

  /** The key is there and its deadline has not passed. */
  ghost predicate Live(slot: Slot, now: int) {
    slot.value.Some? && (slot.expiry.Some? ==> now <= slot.expiry.value)
  }

  /** The deadline that a write to a live key leaves alone. */
  ghost function Deadline(slot: Slot, now: int): Option<int> {
    if Live(slot, now) then slot.expiry else None
  }

  ghost predicate ListOrMissing(slot: Slot, now: int) {
    Live(slot, now) ==> slot.value.value.List?
  }

  ghost function ItemsAt(slot: Slot, now: int): seq<Bytes> {
    if Live(slot, now) && slot.value.value.List? then slot.value.value.items else []
  }

  ghost predicate SetOrMissing(slot: Slot, now: int) {
    Live(slot, now) ==> slot.value.value.Set?
  }

  ghost function MembersAt(slot: Slot, now: int): set<Bytes> {
    if Live(slot, now) && slot.value.value.Set? then slot.value.value.members else {}
  }

  ghost predicate HashOrMissing(slot: Slot, now: int) {
    Live(slot, now) ==> slot.value.value.Hash?
  }

  ghost function FieldsAt(slot: Slot, now: int): map<Bytes, Bytes> {
    if Live(slot, now) && slot.value.value.Hash? then slot.value.value.fields else map[]
  }

  ghost predicate SortedOrMissing(slot: Slot, now: int) {
    Live(slot, now) ==> slot.value.value.Sorted?
  }

  ghost function ZSetAt(slot: Slot, now: int): ZSet {
    if Live(slot, now) && slot.value.value.Sorted? then slot.value.value.zset else EMPTY_ZSET
  }

  lemma PurgedByDeadline(slot: Slot, now: int)
    ensures if Live(slot, now) then Purge(slot, now) == slot else Purge(slot, now).value == None
    ensures Purge(slot, now).expiry in {slot.expiry, None}
  {
  }

  // ---------------------------------------------------------------- strings and deadlines

  lemma SetWrites(env: Env, k: Bytes, v: Bytes, clock: Clock, slot: Slot)
    ensures var args := [Ascii("SET"), k, v];
            Early(env, SET, args) == None && Apply(env, SET, args, clock, slot) == (Slot(Some(Str(v)), None), Ok)
  {
    hide Ascii;
  }

  lemma DelWrites(env: Env, k: Bytes, clock: Clock, slot: Slot)
    ensures var args := [Ascii("DEL"), k];
            && Early(env, DEL, args) == None
            && Apply(env, DEL, args, clock, slot) == (Slot(None, None), Int(if slot.value.Some? then 1 else 0))
  {
    hide Ascii;
  }

  lemma GetReads(env: Env, k: Bytes, clock: Clock, slot: Slot)
    ensures var args := [Ascii("GET"), k];
            && Early(env, GET, args) == None
            && Apply(env, GET, args, clock, slot).1 ==
               if !Live(slot, clock.first) then Nil
               else if slot.value.value.Str? then Bulk(slot.value.value.str) else Err(WrongType)
  {
    hide Ascii;
  }

  lemma ExpireWrites(env: Env, k: Bytes, arg: Bytes, n: int, clock: Clock, slot: Slot)
    requires Stol(arg) == Some(n)
    ensures var args := [Ascii("EXPIRE"), k, arg];
            && Early(env, EXPIRE, args) == None
            && (Live(slot, clock.first) ==>
                  Apply(env, EXPIRE, args, clock, slot) == (Slot(slot.value, Some(clock.second + 1000 * n)), Int(1)))
            && (!Live(slot, clock.first) ==>
                  Apply(env, EXPIRE, args, clock, slot).1 == Int(0) && Apply(env, EXPIRE, args, clock, slot).0.value == None)
  {
    hide Ascii, Stol;
  }

  /** TTL's answer `r` for a key that is there, its deadline and the second clock reading: the whole
      seconds that are left. A deadline of exactly -1 passes for none. */
  ghost predicate SecondsLeft(deadline: Option<int>, now: int, r: int) {
    if deadline.None? || deadline.value == -1 then r == -1
    else if deadline.value < now then r == -2
    else r >= 0 && 1000 * r <= deadline.value - now < 1000 * (r + 1)
  }

  /** TTL's answer for a key: the seconds left, or -2 if it is not there or its deadline has passed. */
  ghost predicate TtlAnswers(slot: Slot, clock: Clock, r: int) {
    if Live(slot, clock.first) then SecondsLeft(slot.expiry, clock.second, r) else r == -2
  }

  lemma TtlReads(env: Env, k: Bytes, clock: Clock, slot: Slot) returns (r: int)
    ensures var args := [Ascii("TTL"), k];
            Early(env, TTL, args) == None && Apply(env, TTL, args, clock, slot).1 == Int(r)
    ensures TtlAnswers(slot, clock, r)
  {
    hide Ascii;
    r := Apply(env, TTL, [Ascii("TTL"), k], clock, slot).1.n;
  }

  // ---------------------------------------------------------------- lists

  lemma PushOnto(c: Command, args: seq<Bytes>, p: Slot, items: seq<Bytes>)
    requires c in {LPUSH, RPUSH} && |args| >= 3
    requires (p.value == None && items == []) || p.value == Some(List(items))
    ensures var xs := args[2..];
            ApplyList(c, args, p) ==
            (Slot(Some(List(if c == LPUSH then Reverse(xs) + items else items + xs)), if p.value.Some? then p.expiry else None),
             Int(|items| + |xs|))
  {
    hide Reverse, Slice, Stoi;
    assert items == [] ==> Reverse(args[2..]) + items == Reverse(args[2..]) && items + args[2..] == args[2..];
  }

  lemma ListApply(env: Env, c: Command, args: seq<Bytes>, clock: Clock, slot: Slot)
    requires c in {LPUSH, LPOP, LRANGE, RPUSH, RPOP, LLEN} && ArityOk(c, |args|)
    ensures Early(env, c, args) == None && Apply(env, c, args, clock, slot) == ApplyList(c, args, Purge(slot, clock.first))
  {
    hide ApplyList;
  }

  lemma PushWrites(env: Env, left: bool, args: seq<Bytes>, clock: Clock, slot: Slot)
    requires |args| >= 3 && ListOrMissing(slot, clock.first)
    ensures var c, items, xs := if left then LPUSH else RPUSH, ItemsAt(slot, clock.first), args[2..];
            && Early(env, c, args) == None
            && Apply(env, c, args, clock, slot) ==
               (Slot(Some(List(if left then Reverse(xs) + items else items + xs)), Deadline(slot, clock.first)), Int(|items| + |xs|))
  {
    hide Reverse, Purge, ApplyList, Apply, Early;
    var c := if left then LPUSH else RPUSH;
    PurgedByDeadline(slot, clock.first);
    ListApply(env, c, args, clock, slot);
    PushOnto(c, args, Purge(slot, clock.first), ItemsAt(slot, clock.first));
  }

  /** LPOP takes the first item, RPOP the last. */
  lemma PopWrites(env: Env, k: Bytes, left: bool, clock: Clock, slot: Slot)
    requires ListOrMissing(slot, clock.first)
    ensures var c, args := if left then LPOP else RPOP, [Ascii(if left then "LPOP" else "RPOP"), k];
            var items, (after, reply) := ItemsAt(slot, clock.first), Apply(env, c, args, clock, slot);
            && Early(env, c, args) == None
            && (items == [] ==> reply == Nil && after == Purge(slot, clock.first))
            && (items != [] ==>
                  && after == Slot(Some(List(if left then items[1..] else items[..|items| - 1])), slot.expiry)
                  && reply == Bulk(items[if left then 0 else |items| - 1]))
  {
    hide Ascii, Purge, Slice, Stoi, Reverse;
    PurgedByDeadline(slot, clock.first);
  }

  lemma RangeReads(env: Env, k: Bytes, from: Bytes, to: Bytes, start: int, stop: int, clock: Clock, slot: Slot)
    requires Stoi(from) == Some(start) && Stoi(to) == Some(stop) && ListOrMissing(slot, clock.first)
    ensures var args := [Ascii("LRANGE"), k, from, to];
            Early(env, LRANGE, args) == None && Apply(env, LRANGE, args, clock, slot).1 == Array(Slice(ItemsAt(slot, clock.first), start, stop))
  {
    hide Ascii, Purge, Stoi, Reverse;
    PurgedByDeadline(slot, clock.first);
  }

  // ---------------------------------------------------------------- sets

  /** SADD adds its arguments and SREM removes them. */
  lemma MembersWritten(env: Env, adds: bool, args: seq<Bytes>, clock: Clock, slot: Slot) returns (members: set<Bytes>)
    requires |args| >= 3 && SetOrMissing(slot, clock.first)
    ensures var c := if adds then SADD else SREM;
            && Early(env, c, args) == None
            && (adds || Live(slot, clock.first) ==>
                  Apply(env, c, args, clock, slot).0 == Slot(Some(Set(members)), Deadline(slot, clock.first)))
            && (!adds && !Live(slot, clock.first) ==> Apply(env, c, args, clock, slot).0.value == None && members == {})
    ensures forall x :: x in members <==>
              if adds then x in MembersAt(slot, clock.first) || x in args[2..] else x in MembersAt(slot, clock.first) && x !in args[2..]
  {
    hide Purge, ApplyList, ApplyHash, ApplySorted;
    PurgedByDeadline(slot, clock.first);
    var base, xs := MembersAt(slot, clock.first), ToSet(args[2..]);
    members := if adds then base + xs else base - xs;
    assert adds && base == {} ==> members == xs;
  }

  /** SMEMBERS lists the members in lexicographic order, each once. */
  lemma MembersRead(env: Env, k: Bytes, clock: Clock, slot: Slot) returns (items: seq<Bytes>)
    requires SetOrMissing(slot, clock.first)
    ensures var args := [Ascii("SMEMBERS"), k];
            Early(env, SMEMBERS, args) == None && Apply(env, SMEMBERS, args, clock, slot).1 == Array(items)
    ensures forall x :: x in items <==> x in MembersAt(slot, clock.first)
    ensures forall i, j :: 0 <= i < j < |items| ==> Less(items[i], items[j])
  {
    hide Ascii, Purge, InOrder, Less, ApplyList, ApplyHash, ApplySorted;
    PurgedByDeadline(slot, clock.first);
    InOrderIncreasing(MembersAt(slot, clock.first));
    items := Apply(env, SMEMBERS, [Ascii("SMEMBERS"), k], clock, slot).1.items;
  }

  // ---------------------------------------------------------------- hashes

  lemma FieldsWritten(env: Env, args: seq<Bytes>, clock: Clock, slot: Slot)
    requires |args| >= 4 && |args| % 2 == 0 && HashOrMissing(slot, clock.first)
    ensures Early(env, HSET, args) == None
    ensures Apply(env, HSET, args, clock, slot).0 ==
            Slot(Some(Hash(SetFields(FieldsAt(slot, clock.first), args[2..]))), Deadline(slot, clock.first))
  {
    hide Purge, SetFields, ApplyList, ApplySet, ApplySorted;
    PurgedByDeadline(slot, clock.first);
  }

  lemma FieldRead(env: Env, k: Bytes, f: Bytes, clock: Clock, slot: Slot)
    requires HashOrMissing(slot, clock.first)
    ensures var args, v := [Ascii("HGET"), k, f], Lookup(FieldsAt(slot, clock.first), f);
            && Early(env, HGET, args) == None
            && Apply(env, HGET, args, clock, slot).1 == if v.Some? then Bulk(v.value) else Nil
  {
    hide Ascii, Purge, SetFields, ApplyList, ApplySet, ApplySorted;
    PurgedByDeadline(slot, clock.first);
  }

  /** HGETALL lists every field once, in lexicographic order, each followed by its value. */
  lemma FieldsRead(env: Env, k: Bytes, clock: Clock, slot: Slot) returns (order: seq<Bytes>, items: seq<Bytes>)
    requires HashOrMissing(slot, clock.first)
    ensures var args := [Ascii("HGETALL"), k];
            Early(env, HGETALL, args) == None && Apply(env, HGETALL, args, clock, slot).1 == Array(items)
    ensures |items| == 2 * |order| && (forall f :: f in order <==> f in FieldsAt(slot, clock.first))
    ensures forall i, j :: 0 <= i < j < |order| ==> Less(order[i], order[j])
    ensures forall i :: 0 <= i < |order| ==>
              items[2 * i] == order[i] && Some(items[2 * i + 1]) == Lookup(FieldsAt(slot, clock.first), order[i])
  {
    hide Ascii, Purge, InOrder, Flat, Less, SetFields, ApplyList, ApplySet, ApplySorted;
    PurgedByDeadline(slot, clock.first);
    var fields := FieldsAt(slot, clock.first);
    order := InOrder(fields.Keys);
    items := Flat(fields, order);
    InOrderIncreasing(fields.Keys);
    FlatAt(fields, order, 0);
    forall i | 0 <= i < |order| ensures items[2 * i] == order[i] && Some(items[2 * i + 1]) == Lookup(fields, order[i]) {
      FlatAt(fields, order, i);
    }
  }

  // ---------------------------------------------------------------- sorted sets

  lemma ScoresWritten(env: Env, args: seq<Bytes>, clock: Clock, slot: Slot)
    requires |args| >= 4 && |args| % 2 == 0 && SortedOrMissing(slot, clock.first)
    ensures Early(env, ZADD, args) == None
    ensures Apply(env, ZADD, args, clock, slot).0 ==
            Slot(Some(Sorted(AddScores(env, ZSetAt(slot, clock.first), args[2..]).0)), Deadline(slot, clock.first))
  {
    hide Purge, AddScores, RemoveMembers, Range, ApplyList, ApplySet, ApplyHash;
    PurgedByDeadline(slot, clock.first);
  }

  lemma ScoreRead(env: Env, k: Bytes, m: Bytes, clock: Clock, slot: Slot)
    requires SortedOrMissing(slot, clock.first)
    ensures var args, score := [Ascii("ZSCORE"), k, m], Lookup(ZSetAt(slot, clock.first).dict, m);
            && Early(env, ZSCORE, args) == None
            && Apply(env, ZSCORE, args, clock, slot).1 == if score.Some? then Bulk(env.showScore(score.value)) else Nil
  {
    hide Ascii, Purge, AddScores, RemoveMembers, Range, ApplyList, ApplySet, ApplyHash;
    PurgedByDeadline(slot, clock.first);
  }

  lemma RankedRead(env: Env, args: seq<Bytes>, start: int, stop: int, clock: Clock, slot: Slot)
    requires |args| >= 4 && Stoi(args[2]) == Some(start) && Stoi(args[3]) == Some(stop) && SortedOrMissing(slot, clock.first)
    ensures Early(env, ZRANGE, args) == None
    ensures Apply(env, ZRANGE, args, clock, slot).1 ==
            Array(Range(env, ZSetAt(slot, clock.first), start, stop, |args| > 4 && Upper(args[4]) == Ascii("WITHSCORES")))
  {
    hide Ascii, Upper, Purge, AddScores, RemoveMembers, Stoi, ListAll, ApplyList, ApplySet, ApplyHash;
    PurgedByDeadline(slot, clock.first);
  }

  /** The item for the entry with `p` entries below it, and its score if asked for. */
  ghost predicate ListsAt(env: Env, z: ZSet, items: seq<Bytes>, i: nat, withScores: bool, p: nat) {
    && i + (if withScores then 1 else 0) < |items| && items[i] in z.dict
    && |Below(z, ZEntry(z.dict[items[i]], items[i]))| == p
    && (withScores ==> items[i + 1] == env.showScore(z.dict[items[i]]))
  }

  /** The items are the entries with `lo` to `lo + count - 1` entries below them, in order, with their
      scores if asked for; and these are the ranks between the start and the stop. */
  ghost predicate ListsRanks(env: Env, z: ZSet, items: seq<Bytes>, start: int, stop: int, withScores: bool, lo: nat, count: nat) {
    var width := if withScores then 2 else 1;
    && |items| == count * width && lo + count <= |z.dict|
    && (forall i :: 0 <= i < count ==> ListsAt(env, z, items, i * width, withScores, lo + i))
    && (forall p :: 0 <= p < |z.dict| ==> (lo <= p < lo + count <==> Selects(start, stop, |z.dict|, p)))
  }

  /** ZRANGE lists exactly the selected ranks, in order. */
  lemma RangeExact(env: Env, z: ZSet, start: int, stop: int, withScores: bool) returns (lo: nat, count: nat)
    requires Indexed(z)
    ensures ListsRanks(env, z, Range(env, z, start, stop, withScores), start, stop, withScores, lo, count)
  {
    TreeSize(z);
    var range := Clamp(start, stop, |z.tree|);
    lo, count := if range.Some? then range.value.0 else 0, if range.Some? then range.value.1 - range.value.0 + 1 else 0;
    CommandTheorems.RangeRanks(env, z, start, stop, withScores, 0);
    var items, width := Range(env, z, start, stop, withScores), if withScores then 2 else 1;
    forall i | 0 <= i < count ensures ListsAt(env, z, items, i * width, withScores, lo + i) {
      RankAt(env, z, start, stop, withScores, i);
    }
    forall p | 0 <= p < |z.dict| ensures lo <= p < lo + count <==> Selects(start, stop, |z.dict|, p) {
      CommandTheorems.ClampExact(start, stop, |z.dict|, p);
    }
  }

  lemma RankAt(env: Env, z: ZSet, start: int, stop: int, withScores: bool, i: nat)
    requires Indexed(z) && Clamp(start, stop, |z.tree|).Some?
    requires var (lo, hi) := Clamp(start, stop, |z.tree|).value; lo + i <= hi
    ensures var lo := Clamp(start, stop, |z.tree|).value.0;
            ListsAt(env, z, Range(env, z, start, stop, withScores), i * (if withScores then 2 else 1), withScores, lo + i)
  {
    CommandTheorems.RangeRanks(env, z, start, stop, withScores, i);
    var (lo, hi) := Clamp(start, stop, |z.tree|).value;
    assert z.tree[lo + i] in z.tree;
    hide Range, Clamp, Below, Increasing;
  }

  // ---------------------------------------------------------------- removals

  /** HDEL removes exactly the fields it names. */
  lemma FieldsErased(env: Env, args: seq<Bytes>, clock: Clock, slot: Slot, f: Bytes)
    requires |args| >= 3 && HashOrMissing(slot, clock.first)
    ensures var after := Apply(env, HDEL, args, clock, slot).0;
            && Early(env, HDEL, args) == None
            && (after.value.Some? ==> after.value.value.Hash? && after.expiry == Deadline(slot, clock.first) && Live(slot, clock.first))
            && Lookup(if after.value.Some? then after.value.value.fields else map[], f) ==
               if f in args[2..] then None else Lookup(FieldsAt(slot, clock.first), f)
  {
    hide Purge, SetFields, ApplyList, ApplySet, ApplySorted;
    PurgedByDeadline(slot, clock.first);
  }

  lemma {:induction false} ScoresRemoved(z: ZSet, ms: seq<Bytes>, m: Bytes)
    ensures Lookup(RemoveMembers(z, ms).dict, m) == if m in ms then None else Lookup(z.dict, m)
    decreases |ms|
  {
    hide TreeErase;
    if ms != [] { ScoresRemoved(ZErase(z, ms[0]), ms[1..], m); }
  }

  /** ZREM removes exactly the members it names. */
  lemma ScoresErased(env: Env, args: seq<Bytes>, clock: Clock, slot: Slot, m: Bytes)
    requires |args| >= 3 && SortedOrMissing(slot, clock.first)
    ensures var after := Apply(env, ZREM, args, clock, slot).0;
            && Early(env, ZREM, args) == None
            && (after.value.Some? ==> after.value.value.Sorted? && after.expiry == Deadline(slot, clock.first) && Live(slot, clock.first))
            && Lookup(if after.value.Some? then after.value.value.zset.dict else map[], m) ==
               if m in args[2..] then None else Lookup(ZSetAt(slot, clock.first).dict, m)
  {
    hide Purge, AddScores, RemoveMembers, Range, ApplyList, ApplySet, ApplyHash;
    PurgedByDeadline(slot, clock.first);
    ScoresRemoved(ZSetAt(slot, clock.first), args[2..], m);
  }

  // ---------------------------------------------------------------- missing keys and wrong types

  /** What a command that only reads or removes answers for a key that is not there, or whose
      deadline has passed. */
  lemma MissingReads(env: Env, c: Command, args: seq<Bytes>, clock: Clock, slot: Slot)
    requires Early(env, c, args) == None && !Live(slot, clock.first) && c !in {SET, DEL, LPUSH, RPUSH, SADD, HSET, ZADD}
    ensures Apply(env, c, args, clock, slot).1 ==
            if c in {GET, HGET, ZSCORE, LPOP, RPOP} then Nil
            else if c in {LRANGE, SMEMBERS, HGETALL, ZRANGE} then Array([])
            else if c == TTL then Int(-2)
            else Int(0)
    ensures Apply(env, c, args, clock, slot).0.value == None
  {
    hide Purge, Early, Slice, Range, Stoi, Stol, SetFields, AddScores, RemoveMembers, Reverse;
    CommandTheorems.EarlyArity(env, c, args);
    PurgedByDeadline(slot, clock.first);
  }

  /** The kind of value a command works on; SET, DEL, EXPIRE and TTL take any. */
  predicate Fits(c: Command, v: Value) {
    if c in {SET, DEL, EXPIRE, TTL} then true
    else if c == GET then v.Str?
    else if c in {LPUSH, LPOP, LRANGE, RPUSH, RPOP, LLEN} then v.List?
    else if c in {SADD, SMEMBERS, SCARD, SREM} then v.Set?
    else if c in {HSET, HGET, HGETALL, HDEL, HLEN} then v.Hash?
    else v.Sorted?
  }

  /** A command gives the wrong-type error exactly for a live key of another kind, and then changes
      nothing. */
  lemma WrongTypeExact(env: Env, c: Command, args: seq<Bytes>, clock: Clock, slot: Slot)
    requires Early(env, c, args) == None
    ensures Apply(env, c, args, clock, slot).1 == Err(WrongType) <==> Live(slot, clock.first) && !Fits(c, slot.value.value)
    ensures Live(slot, clock.first) && !Fits(c, slot.value.value) ==> Apply(env, c, args, clock, slot).0 == slot
  {
    hide Purge, Early, Slice, Range, Stoi, Stol, SetFields, AddScores, RemoveMembers, Reverse;
    CommandTheorems.EarlyArity(env, c, args);
    PurgedByDeadline(slot, clock.first);
    if OnStrings(c) { hide ApplyTyped; }
    else if c in {LPUSH, LPOP, LRANGE, RPUSH, RPOP, LLEN} { hide ApplyString, ApplySet, ApplyHash, ApplySorted; }
    else if c in {SADD, SMEMBERS, SCARD, SREM} { hide ApplyString, ApplyList, ApplyHash, ApplySorted; }
    else if c in {HSET, HGET, HGETALL, HDEL, HLEN} { hide ApplyString, ApplyList, ApplySet, ApplySorted; }
    else { hide ApplyString, ApplyList, ApplySet, ApplyHash; }
  }

  lemma LengthReads(env: Env, k: Bytes, clock: Clock, slot: Slot)
    requires ListOrMissing(slot, clock.first)
    ensures var args := [Ascii("LLEN"), k];
            Early(env, LLEN, args) == None && Apply(env, LLEN, args, clock, slot).1 == Int(|ItemsAt(slot, clock.first)|)
  {
    hide Ascii, Purge, Stoi, Reverse, Slice;
    PurgedByDeadline(slot, clock.first);
  }
}
