/** The commands' loops, and the commands as they run on a shard, proved against their meaning on
    the key's slot. */
module ShardCommands {
  import opened Bytes
  import opened Values
  import opened HashMap
  import opened Protocol
  import opened Commands
  import opened Shard
  import CommandLaws
  import ParserTheorems

  // ---------------------------------------------------------------- loops over arguments

  /** SADD's loop: duplicates among the arguments are counted once. */
  method AddMembers(base: set<Bytes>, xs: seq<Bytes>) returns (members: set<Bytes>, added: nat)
    ensures members == base + ToSet(xs) && added == |members| - |base|
  {
    members, added := base, 0;
    for i := 0 to |xs|
      invariant members == base + ToSet(xs[..i]) && added == |members| - |base|
    {
      assert ToSet(xs[..i + 1]) == ToSet(xs[..i]) + {xs[i]};
      if xs[i] !in members {
        members := members + {xs[i]};
        added := added + 1;
      }
    }
    assert xs[..|xs|] == xs;
  }

  /** SREM's loop. */
  method EraseMembers(base: set<Bytes>, xs: seq<Bytes>) returns (members: set<Bytes>, removed: nat)
    ensures members == base - ToSet(xs) && removed == |base| - |members|
  {
    members, removed := base, 0;
    for i := 0 to |xs|
      invariant members == base - ToSet(xs[..i]) && removed == |base| - |members|
    {
      assert ToSet(xs[..i + 1]) == ToSet(xs[..i]) + {xs[i]};
      if xs[i] in members {
        members := members - {xs[i]};
        removed := removed + 1;
      }
    }
    assert xs[..|xs|] == xs;
  }

  /** HSET's loop. */
  method AssignFields(base: map<Bytes, Bytes>, pairs: seq<Bytes>) returns (fields: map<Bytes, Bytes>, created: nat)
    requires |pairs| % 2 == 0
    ensures fields == SetFields(base, pairs) && created == |fields| - |base|
    ensures forall f :: CommandLaws.Lookup(fields, f) ==
              if CommandLaws.LastValue(pairs, f).Some? then CommandLaws.LastValue(pairs, f) else CommandLaws.Lookup(base, f)
  {
    fields, created := base, 0;
    var i := 0;
    assert pairs[0..] == pairs;
    while i < |pairs|
      invariant 0 <= i <= |pairs| && i % 2 == 0 && created == |fields| - |base|
      invariant SetFields(fields, pairs[i..]) == SetFields(base, pairs)
    {
      var f, v := pairs[i], pairs[i + 1];
      assert pairs[i..][2..] == pairs[i + 2..];
      PutSize(fields, f, v);
      if f !in fields { created := created + 1; }
      fields := fields[f := v];
      i := i + 2;
    }
    forall f ensures CommandLaws.Lookup(fields, f) ==
      if CommandLaws.LastValue(pairs, f).Some? then CommandLaws.LastValue(pairs, f) else CommandLaws.Lookup(base, f)
    {
      CommandLaws.LastPairWins(base, pairs, f);
    }
  }

  /** HDEL's loop. */
  method EraseFields(base: map<Bytes, Bytes>, xs: seq<Bytes>) returns (fields: map<Bytes, Bytes>, removed: nat)
    ensures fields == base - ToSet(xs) && removed == |base| - |fields|
  {
    fields, removed := base, 0;
    for i := 0 to |xs|
      invariant fields == base - ToSet(xs[..i]) && removed == |base| - |fields|
    {
      DropSnoc(base, xs, i);
      DropSize(fields, xs[i]);
      if xs[i] in fields { removed := removed + 1; }
      fields := fields - {xs[i]};
    }
    assert xs[..|xs|] == xs;
  }

  lemma DropSnoc<V>(m: map<Bytes, V>, xs: seq<Bytes>, i: nat)
    requires i < |xs|
    ensures m - ToSet(xs[..i + 1]) == m - ToSet(xs[..i]) - {xs[i]}
  {
    assert ToSet(xs[..i + 1]) == ToSet(xs[..i]) + {xs[i]};
  }

  /** ZADD's loop: it stops at the first bad score, keeping what it has done. */
  method AddAllScores(env: Env, z: ZSet, pairs: seq<Bytes>) returns (y: ZSet, added: nat, ok: bool)
    requires |pairs| % 2 == 0
    ensures (y, ok) == AddScores(env, z, pairs) && added == |y.dict| - |z.dict|
    ensures forall m :: CommandLaws.Scored(env, z, pairs, y, m)
  {
    hide TreeInsert, TreeErase, CommandLaws.Scored;
    forall m ensures CommandLaws.Scored(env, z, pairs, AddScores(env, z, pairs).0, m) {
      CommandLaws.LastScoreWins(env, z, pairs, m);
    }
    y, added := z, 0;
    var i := 0;
    while i < |pairs|
      invariant 0 <= i <= |pairs| && i % 2 == 0 && added == |y.dict| - |z.dict|
      invariant AddScores(env, y, pairs[i..]) == AddScores(env, z, pairs)
    {
      var score, m := env.stod(pairs[i]), pairs[i + 1];
      if score.None? { return y, added, false; }
      assert pairs[i..][2..] == pairs[i + 2..];
      PutSize(y.dict, m, score.value);
      if m in y.dict {
        if Rank(y.dict[m]) != Rank(score.value) {
          y := ZInsert(y, ZEntry(score.value, m));
        }
      } else {
        y := ZInsert(y, ZEntry(score.value, m));
        added := added + 1;
      }
      i := i + 2;
    }
    ok := true;
  }

  /** ZREM's loop. */
  method EraseScores(z: ZSet, ms: seq<Bytes>) returns (y: ZSet, removed: nat)
    ensures y == RemoveMembers(z, ms) && removed == |z.dict| - |y.dict|
  {
    y, removed := z, 0;
    for i := 0 to |ms|
      invariant RemoveMembers(y, ms[i..]) == RemoveMembers(z, ms) && removed == |z.dict| - |y.dict|
    {
      assert ms[i..][1..] == ms[i + 1..];
      DropSize(y.dict, ms[i]);
      if ms[i] in y.dict { removed := removed + 1; }
      y := ZErase(y, ms[i]);
    }
  }

  /** LPUSH's loop: each argument goes to the front. */
  method PushFront(base: seq<Bytes>, xs: seq<Bytes>) returns (items: seq<Bytes>)
    ensures items == Reverse(xs) + base
  {
    items := base;
    for i := 0 to |xs|
      invariant Reverse(xs[i..]) + items == Reverse(xs) + base
    {
      assert xs[i..][1..] == xs[i + 1..];
      assert Reverse(xs[i..]) + items == Reverse(xs[i + 1..]) + ([xs[i]] + items);
      items := [xs[i]] + items;
    }
  }

  lemma BulksSnoc(xs: seq<Bytes>, x: Bytes)
    ensures ParserTheorems.Bulks(xs + [x]) == ParserTheorems.Bulks(xs) + ParserTheorems.Bulk(x)
    ensures ParserTheorems.Bulks([]) == []
  {
    ParserTheorems.BulksConcat(xs, [x]);
    assert [x][1..] == [];
  }

  method BulkReply(x: Bytes) returns (r: Bytes)
    ensures r == ParserTheorems.Bulk(x)
  {
    r := [DOLLAR] + Dec(|x|) + CRLF + x + CRLF;
  }

  /** The index arithmetic LRANGE and ZRANGE share. */
  method ClampRange(from: int, to: int, size: nat) returns (r: Option<(nat, nat)>)
    ensures r == Clamp(from, to, size)
  {
    var start, stop := from, to;
    if start < 0 { start := size + start; }
    if stop < 0 { stop := size + stop; }
    if start < 0 { start := 0; }
    if stop < 0 { stop := 0; }
    if start >= size { return None; }
    if stop >= size { stop := size - 1; }
    if start > stop { return None; }
    return Some((start, stop));
  }

  lemma ArrayBytes(items: seq<Bytes>)
    ensures Render(Array(items)) == ([STAR] + Dec(|items|) + CRLF) + ParserTheorems.Bulks(items)
  {
  }

  /** LRANGE's reply loop: the bytes sent are the array reply of the slice. */
  method RangeReply(items: seq<Bytes>, from: int, to: int) returns (resp: Bytes)
    ensures resp == Render(Array(Slice(items, from, to)))
  {
    hide Render, ParserTheorems.Bulk, ParserTheorems.Bulks, Clamp;
    var range := ClampRange(from, to, |items|);
    if range.None? { return EmptyArray(); }
    var (start, stop) := range.value;
    ArrayBytes(items[start..stop + 1]);
    BulksSnoc([], []);
    resp := [STAR] + Dec(stop - start + 1) + CRLF;
    ghost var head := resp;
    assert items[start..start] == [] && head + [] == head;
    var i := start;
    while i <= stop
      invariant start <= i <= stop + 1
      invariant resp == head + ParserTheorems.Bulks(items[start..i])
    {
      BulksSnoc(items[start..i], items[i]);
      assert items[start..i] + [items[i]] == items[start..i + 1];
      var b := BulkReply(items[i]);
      resp := resp + b;
      i := i + 1;
    }
  }

  function EmptyArray(): (r: Bytes)
    ensures r == Render(Array([]))
  {
    [STAR] + Dec(0) + CRLF
  }

  lemma ListAllLength(env: Env, es: seq<ZEntry>, withScores: bool)
    ensures |ListAll(env, es, withScores)| == |es| * (if withScores then 2 else 1)
  {
  }

  /** One entry of ZRANGE's reply. */
  method EntryReply(env: Env, e: ZEntry, withScores: bool) returns (r: Bytes)
    ensures r == ParserTheorems.Bulks(Listed(env, e, withScores))
  {
    hide ParserTheorems.Bulk, ParserTheorems.Bulks;
    r := BulkReply(e.member);
    BulksSnoc([], e.member);
    assert [] + [e.member] == [e.member];
    if withScores {
      var score := BulkReply(env.showScore(e.score));
      BulksSnoc([e.member], env.showScore(e.score));
      assert [e.member] + [env.showScore(e.score)] == Listed(env, e, true);
      r := r + score;
    }
  }

  /** ZRANGE's reply loop, over the entries from its start to its stop. */
  method EntriesReply(env: Env, es: seq<ZEntry>, withScores: bool) returns (r: Bytes)
    ensures r == ParserTheorems.Bulks(ListAll(env, es, withScores))
  {
    hide ParserTheorems.Bulk, ParserTheorems.Bulks, Listed;
    r := [];
    BulksSnoc([], []);
    for i := 0 to |es|
      invariant r == ParserTheorems.Bulks(ListAll(env, es[..i], withScores))
    {
      assert es[..i + 1][..i] == es[..i];
      ParserTheorems.BulksConcat(ListAll(env, es[..i], withScores), Listed(env, es[i], withScores));
      var entry := EntryReply(env, es[i], withScores);
      r := r + entry;
    }
    assert es[..|es|] == es;
  }

  method SortedRangeReply(env: Env, z: ZSet, from: int, to: int, withScores: bool) returns (resp: Bytes)
    ensures resp == Render(Array(Range(env, z, from, to, withScores)))
  {
    hide ErrorText, ParserTheorems.Bulk, ParserTheorems.Bulks, Clamp, ListAll;
    var range := ClampRange(from, to, |z.tree|);
    if range.None? { return EmptyArray(); }
    var (start, stop) := range.value;
    var items := EntriesReply(env, z.tree[start..stop + 1], withScores);
    ListAllLength(env, z.tree[start..stop + 1], withScores);
    resp := [STAR] + Dec((stop - start + 1) * (if withScores then 2 else 1)) + CRLF + items;
  }

  /** The reply loop of SMEMBERS and HGETALL. */
  method ArrayReply(items: seq<Bytes>) returns (resp: Bytes)
    ensures resp == Render(Array(items))
  {
    hide Render, ParserTheorems.Bulk, ParserTheorems.Bulks;
    ArrayBytes(items);
    BulksSnoc([], []);
    resp := [STAR] + Dec(|items|) + CRLF;
    ghost var head := resp;
    assert items[..0] == [] && head + [] == head;
    for i := 0 to |items|
      invariant resp == head + ParserTheorems.Bulks(items[..i])
    {
      BulksSnoc(items[..i], items[i]);
      assert items[..i] + [items[i]] == items[..i + 1];
      var b := BulkReply(items[i]);
      resp := resp + b;
    }
    assert items[..|items|] == items;
  }

  // ---------------------------------------------------------------- commands on a value

  /** A command's effect and the bytes it replies with. */
  ghost function Rendered(x: (Slot, Reply)): (Slot, Bytes) {
    (x.0, Render(x.1))
  }

  predicate Creates(c: Command) {
    c in {LPUSH, RPUSH, SADD, HSET, ZADD}
  }

  /** The empty collection a command stores before it fills it. */
  function Blank(c: Command): Value {
    if c == SADD then Set({}) else if c == HSET then Hash(map[]) else if c == ZADD then Sorted(EMPTY_ZSET) else List([])
  }

  /** What a command that creates nothing answers for a missing key. */
  function Missing(c: Command): Reply {
    if c in {LPOP, RPOP, HGET, ZSCORE} then Nil
    else if c in {LRANGE, SMEMBERS, HGETALL, ZRANGE} then Array([])
    else Int(0)
  }

  lemma OnMissingList(c: Command, args: seq<Bytes>, p: Slot)
    requires c in {LPUSH, LPOP, LRANGE, RPUSH, RPOP, LLEN} && ArityOk(c, |args|) && p.value.None?
    ensures ApplyList(c, args, p) == if Creates(c) then ApplyList(c, args, Fresh(Blank(c))) else (p, Missing(c))
  {
    hide Clamp, Stoi, Reverse;
    assert Creates(c) ==> Reverse(args[2..]) + [] == Reverse(args[2..]) && [] + args[2..] == args[2..];
  }

  lemma OnMissingSet(c: Command, args: seq<Bytes>, p: Slot)
    requires c in {SADD, SMEMBERS, SCARD, SREM} && ArityOk(c, |args|) && p.value.None?
    ensures ApplySet(c, args, p) == if Creates(c) then ApplySet(c, args, Fresh(Blank(c))) else (p, Missing(c))
  {
    assert c == SADD ==> {} + ToSet(args[2..]) == ToSet(args[2..]);
  }

  /** A command that creates its key does to it what it does to an empty collection. */
  lemma OnMissing(env: Env, c: Command, args: seq<Bytes>, p: Slot)
    requires !OnStrings(c) && Early(env, c, args) == None && p.value.None?
    ensures ApplyTyped(env, c, args, p) ==
            if Creates(c) then ApplyTyped(env, c, args, Fresh(Blank(c))) else (p, Missing(c))
  {
    hide Early, SetFields, AddScores, RemoveMembers, Range, Stoi, ApplyList, ApplySet;
    if c in {LPUSH, LPOP, LRANGE, RPUSH, RPOP, LLEN} {
      OnMissingList(c, args, p);
    } else if c in {SADD, SMEMBERS, SCARD, SREM} {
      OnMissingSet(c, args, p);
    }
  }

  method ModifyList(c: Command, args: seq<Bytes>, v: Value, ghost p: Slot) returns (w: Value, out: Bytes)
    requires c in {LPUSH, LPOP, LRANGE, RPUSH, RPOP, LLEN} && ArityOk(c, |args|) && p.value == Some(v)
    ensures Rendered(ApplyList(c, args, p)) == (p.(value := Some(w)), out)
  {
    hide Clamp, Render, Stoi;
    w := v;
    if !v.List? { return w, Render(Err(WrongType)); }
    if c == LPUSH {
      var items := PushFront(v.items, args[2..]);
      ReverseLength(args[2..]);
      return List(items), Render(Int(|items|));
    } else if c == RPUSH {
      return List(v.items + args[2..]), Render(Int(|v.items| + |args| - 2));
    } else if c == LLEN {
      return w, Render(Int(|v.items|));
    } else if c == LRANGE {
      var start, stop := Stoi(args[2]), Stoi(args[3]);
      if start.None? || stop.None? { return w, Render(Err(NotInteger)); }
      out := RangeReply(v.items, start.value, stop.value);
    } else if v.items == [] {
      return w, Render(Nil);
    } else if c == LPOP {
      return List(v.items[1..]), Render(Bulk(v.items[0]));
    } else {
      return List(v.items[..|v.items| - 1]), Render(Bulk(v.items[|v.items| - 1]));
    }
  }

  lemma ReverseLength(xs: seq<Bytes>)
    ensures |Reverse(xs)| == |xs|
  {
  }

  method ModifySet(c: Command, args: seq<Bytes>, v: Value, ghost p: Slot) returns (w: Value, out: Bytes)
    requires c in {SADD, SMEMBERS, SCARD, SREM} && ArityOk(c, |args|) && p.value == Some(v)
    ensures Rendered(ApplySet(c, args, p)) == (p.(value := Some(w)), out)
  {
    hide Render;
    w := v;
    if !v.Set? { return w, Render(Err(WrongType)); }
    if c == SCARD { return w, Render(Int(|v.members|)); }
    if c == SMEMBERS {
      var items := Visit(v.members);
      out := ArrayReply(items);
      return;
    }
    var members, n;
    if c == SADD {
      members, n := AddMembers(v.members, args[2..]);
    } else {
      members, n := EraseMembers(v.members, args[2..]);
    }
    return Set(members), Render(Int(n));
  }

  /** HGETALL's loop. */
  method ListFields(fields: map<Bytes, Bytes>, order: seq<Bytes>) returns (items: seq<Bytes>)
    requires forall f :: f in order ==> f in fields
    ensures items == Flat(fields, order)
  {
    items := [];
    assert order[0..] == order;
    for i := 0 to |order|
      invariant items + Flat(fields, order[i..]) == Flat(fields, order)
    {
      assert order[i..][1..] == order[i + 1..];
      var f := order[i];
      ghost var tail := Flat(fields, order[i + 1..]);
      assert items + ([f, fields[f]] + tail) == (items + [f, fields[f]]) + tail;
      items := items + [f, fields[f]];
    }
    assert items + [] == items;
  }

  method ModifyHash(c: Command, args: seq<Bytes>, v: Value, ghost p: Slot) returns (w: Value, out: Bytes)
    requires c in {HSET, HGET, HGETALL, HDEL, HLEN} && ArityOk(c, |args|) && p.value == Some(v)
    ensures Rendered(ApplyHash(c, args, p)) == (p.(value := Some(w)), out)
  {
    hide SetFields, Render;
    w := v;
    if !v.Hash? { return w, Render(Err(WrongType)); }
    if c == HLEN { return w, Render(Int(|v.fields|)); }
    if c == HGETALL {
      var order := Visit(v.fields.Keys);
      var items := ListFields(v.fields, order);
      out := ArrayReply(items);
      return;
    }
    if c == HGET { return w, Render(if args[2] in v.fields then Bulk(v.fields[args[2]]) else Nil); }
    var fields, n;
    if c == HSET {
      fields, n := AssignFields(v.fields, args[2..]);
    } else {
      fields, n := EraseFields(v.fields, args[2..]);
    }
    return Hash(fields), Render(Int(n));
  }

  method ModifySorted(env: Env, c: Command, args: seq<Bytes>, v: Value, ghost p: Slot) returns (w: Value, out: Bytes)
    requires c in {ZADD, ZRANGE, ZREM, ZCARD, ZSCORE} && ArityOk(c, |args|) && p.value == Some(v)
    ensures Rendered(ApplySorted(env, c, args, p)) == (p.(value := Some(w)), out)
  {
    hide Range, AddScores, RemoveMembers, Render, Stoi, Upper;
    w := v;
    if !v.Sorted? { return w, Render(Err(WrongType)); }
    var z := v.zset;
    if c == ZADD {
      var y, added, ok := AddAllScores(env, z, args[2..]);
      return Sorted(y), Render(if ok then Int(added) else Err(NotFloat));
    } else if c == ZREM {
      var y, removed := EraseScores(z, args[2..]);
      return Sorted(y), Render(Int(removed));
    } else if c == ZCARD {
      return w, Render(Int(|z.tree|));
    } else if c == ZSCORE {
      return w, Render(if args[2] in z.dict then Bulk(env.showScore(z.dict[args[2]])) else Nil);
    }
    var start, stop := Stoi(args[2]), Stoi(args[3]);
    if start.None? || stop.None? { return w, Render(Err(NotInteger)); }
    var withScores := |args| > 4 && Upper(args[4]) == Ascii("WITHSCORES");
    out := SortedRangeReply(env, z, start.value, stop.value, withScores);
  }

  /** A collection command on the value its key holds. */
  method Modify(env: Env, c: Command, args: seq<Bytes>, v: Value, ghost p: Slot) returns (w: Value, out: Bytes)
    requires !OnStrings(c) && Early(env, c, args) == None && p.value == Some(v)
    ensures Rendered(ApplyTyped(env, c, args, p)) == (p.(value := Some(w)), out)
  {
    hide ApplyList, ApplySet, ApplyHash, ApplySorted;
    if c in {LPUSH, LPOP, LRANGE, RPUSH, RPOP, LLEN} { w, out := ModifyList(c, args, v, p); }
    else if c in {SADD, SMEMBERS, SCARD, SREM} { w, out := ModifySet(c, args, v, p); }
    else if c in {HSET, HGET, HGETALL, HDEL, HLEN} { w, out := ModifyHash(c, args, v, p); }
    else { w, out := ModifySorted(env, c, args, v, p); }
  }

  // ---------------------------------------------------------------- commands on a shard

  /** The table's exception: the command has to insert a key and every slot is used. */
  ghost predicate NoRoom(c: Command, clock: Clock, s: State, key: Bytes) {
    s.table.used == s.table.capacity &&
    if c == SET then SlotIn(s, key).value.None?
    else Creates(c) && Purge(SlotIn(s, key), clock.first).value.None?
  }

  /** What a command did to a shard: its key's slot and the reply are as `Apply` says, and no other
      key is touched; or it threw for want of room, having at most collected its own expired key. */
  ghost predicate Served(env: Env, c: Command, args: seq<Bytes>, clock: Clock, s: State, t: State, out: Option<Bytes>)
    requires Early(env, c, args) == None
  {
    var key := args[1];
    var (slot, reply) := Apply(env, c, args, clock, SlotIn(s, key));
    && (out.None? <==> NoRoom(c, clock, s, key))
    && (out.Some? ==> out.value == Render(reply) && SlotIn(t, key) == slot)
    && (out.None? ==> SlotIn(t, key) == if c == SET then SlotIn(s, key) else Purge(SlotIn(s, key), clock.first))
    && (forall j :: j != key ==> SlotIn(t, j) == SlotIn(s, j))
  }

  /** The key holds a value: it is read, changed and written back. */
  lemma ServedFound(env: Env, c: Command, args: seq<Bytes>, clock: Clock, s: State, w: Value, out: Bytes)
    requires Early(env, c, args) == None && !OnStrings(c)
    requires var p := Purge(SlotIn(s, args[1]), clock.first);
             p.value.Some? && Rendered(ApplyTyped(env, c, args, p)) == (p.(value := Some(w)), out)
    ensures Served(env, c, args, clock, s, AfterWrite(AfterGet(s, args[1], clock.first).0, args[1], w), Some(out))
  {
    hide ApplyTyped, Render;
  }

  /** The key is missing and the command stores nothing. */
  lemma ServedMissing(env: Env, c: Command, args: seq<Bytes>, clock: Clock, s: State)
    requires Early(env, c, args) == None && !OnStrings(c) && !Creates(c)
    requires Purge(SlotIn(s, args[1]), clock.first).value.None?
    ensures Served(env, c, args, clock, s, AfterGet(s, args[1], clock.first).0, Some(Render(Missing(c))))
  {
    hide ApplyTyped, Render;
    OnMissing(env, c, args, Purge(SlotIn(s, args[1]), clock.first));
  }

  /** The key is missing and an empty collection has been stored for it: it is filled. */
  lemma ServedCreated(env: Env, c: Command, args: seq<Bytes>, clock: Clock, s: State, w: Value, out: Bytes)
    requires Early(env, c, args) == None && !OnStrings(c) && Creates(c)
    requires Purge(SlotIn(s, args[1]), clock.first).value.None?
    requires Rendered(ApplyTyped(env, c, args, Fresh(Blank(c)))) == (Fresh(w), out)
    requires AfterSet(AfterGet(s, args[1], clock.first).0, args[1], Blank(c)).1
    ensures var t := AfterSet(AfterGet(s, args[1], clock.first).0, args[1], Blank(c)).0;
            Served(env, c, args, clock, s, AfterWrite(t, args[1], w), Some(out))
  {
    hide ApplyTyped, Early, Render;
    OnMissing(env, c, args, Purge(SlotIn(s, args[1]), clock.first));
  }

  /** The key is missing and every slot is used. */
  lemma ServedFull(env: Env, c: Command, args: seq<Bytes>, clock: Clock, s: State)
    requires Early(env, c, args) == None && !OnStrings(c) && Creates(c)
    requires Purge(SlotIn(s, args[1]), clock.first).value.None?
    ensures var (t, ok) := AfterSet(AfterGet(s, args[1], clock.first).0, args[1], Blank(c));
            if ok then args[1] in t.table.contents else Served(env, c, args, clock, s, t, None)
  {
    hide ApplyTyped, Early, Render;
  }

  /** A collection command on a shard. */
  method Execute(env: Env, shard: Shard, c: Command, args: seq<Bytes>, clock: Clock) returns (r: Option<Bytes>)
    requires shard.Valid() && Early(env, c, args) == None && !OnStrings(c)
    modifies shard, shard.table, shard.table.entries
    ensures shard.Valid() && Served(env, c, args, clock, old(shard.Value()), shard.Value(), r)
  {
    ghost var s := shard.Value();
    hide Served, Render, Represents, ApplyTyped, AfterGet, AfterSet, AfterWrite, Early, SlotIn, Purge;
    var key := args[1];
    ghost var p := Purge(SlotIn(s, key), clock.first);
    GetOnSlots(s, key, clock.first, key);
    var val := shard.Get(key, clock.first);
    if val.Some? {
      var w, reply := Modify(env, c, args, val.value, p);
      ServedFound(env, c, args, clock, s, w, reply);
      shard.Write(key, w);
      return Some(reply);
    }
    if !Creates(c) {
      ServedMissing(env, c, args, clock, s);
      return Some(Render(Missing(c)));
    }
    ServedFull(env, c, args, clock, s);
    var ok := shard.Set(key, Blank(c));
    if !ok { return None; }
    var w, reply := Modify(env, c, args, Blank(c), Fresh(Blank(c)));
    ServedCreated(env, c, args, clock, s, w, reply);
    shard.Write(key, w);
    return Some(reply);
  }

  lemma ServedSetDel(env: Env, c: Command, args: seq<Bytes>, clock: Clock, s: State)
    requires Early(env, c, args) == None && c in {SET, DEL}
    ensures c == SET ==>
              var (t, ok) := AfterSet(s, args[1], Str(args[2]));
              Served(env, c, args, clock, s, t, if ok then Some(Render(Ok)) else None)
    ensures c == DEL ==>
              var (t, was) := AfterDel(s, args[1]);
              Served(env, c, args, clock, s, t, Some(Render(Int(if was then 1 else 0))))
  {
    hide Early, Stol, Render;
    if c == SET { SetOnSlots(s, args[1], Str(args[2]), args[1]); } else { DelOnSlots(s, args[1], args[1]); }
  }

  lemma ServedLookup(env: Env, c: Command, args: seq<Bytes>, clock: Clock, s: State)
    requires Early(env, c, args) == None && c in {GET, TTL, EXPIRE}
    ensures var key := args[1];
            var (t, v) := AfterGet(s, key, clock.first);
            && v == SlotIn(t, key).value
            && (c != EXPIRE ==> Served(env, c, args, clock, s, t, Some(Render(Report(c, SlotIn(t, key), clock.second)))))
            && (c == EXPIRE ==>
                  if v.None? then Served(env, c, args, clock, s, t, Some(Render(Int(0))))
                  else var at := clock.second + Stol(args[2]).value * 1000;
                       Served(env, c, args, clock, s, t.(expires := t.expires[key := at]), Some(Render(Int(1)))))
  {
    hide Early, Stol, Report, Render;
  }

  /** SET and DEL on a shard: neither looks at the clock. */
  method ExecuteSetDel(env: Env, shard: Shard, c: Command, args: seq<Bytes>, clock: Clock) returns (r: Option<Bytes>)
    requires shard.Valid() && Early(env, c, args) == None && c in {SET, DEL}
    modifies shard, shard.table, shard.table.entries
    ensures shard.Valid() && Served(env, c, args, clock, old(shard.Value()), shard.Value(), r)
  {
    hide Served, Render, Represents, AfterGet, AfterSet, AfterDel, Early, Apply;
    ServedSetDel(env, c, args, clock, shard.Value());
    if c == SET {
      var ok := shard.Set(args[1], Str(args[2]));
      return if ok then Some(Render(Ok)) else None;
    }
    var was := shard.Del(args[1]);
    return Some(Render(Int(if was then 1 else 0)));
  }

  /** GET and TTL on a shard. */
  method ExecuteGetTtl(env: Env, shard: Shard, c: Command, args: seq<Bytes>, clock: Clock) returns (r: Option<Bytes>)
    requires shard.Valid() && Early(env, c, args) == None && c in {GET, TTL}
    modifies shard, shard.table, shard.table.entries
    ensures shard.Valid() && Served(env, c, args, clock, old(shard.Value()), shard.Value(), r)
    ensures var slot := SlotIn(old(shard.Value()), args[1]);
            && (c == GET ==> r == Some(Render(
                  if !CommandLaws.Live(slot, clock.first) then Nil
                  else if slot.value.value.Str? then Bulk(slot.value.value.str) else Err(WrongType))))
            && (c == TTL ==> exists seconds :: CommandLaws.TtlAnswers(slot, clock, seconds) && r == Some(Render(Int(seconds))))
  {
    hide Served, Render, Represents, AfterGet, Early;
    ServedLookup(env, c, args, clock, shard.Value());
    ghost var slot := SlotIn(shard.Value(), args[1]);
    var val := shard.Get(args[1], clock.first);
    if val.None? {
      assert c == TTL ==> CommandLaws.TtlAnswers(slot, clock, -2);
      return Some(Render(if c == GET then Nil else Int(-2)));
    }
    if c == GET { return Some(Render(if val.value.Str? then Bulk(val.value.str) else Err(WrongType))); }
    var expiry := shard.GetExpiry(args[1]);
    var seconds := if expiry == -1 then -1 else if expiry < clock.second then -2 else (expiry - clock.second) / 1000;
    assert CommandLaws.TtlAnswers(slot, clock, seconds);
    return Some(Render(Int(seconds)));
  }

  /** EXPIRE on a shard. */
  method ExecuteExpire(env: Env, shard: Shard, args: seq<Bytes>, clock: Clock) returns (r: Option<Bytes>)
    requires shard.Valid() && Early(env, EXPIRE, args) == None
    modifies shard, shard.table, shard.table.entries
    ensures shard.Valid() && Served(env, EXPIRE, args, clock, old(shard.Value()), shard.Value(), r)
  {
    hide Served, Render, Represents, AfterGet, Early, Stol, SlotIn;
    ServedLookup(env, EXPIRE, args, clock, shard.Value());
    var val := shard.Get(args[1], clock.first);
    if val.None? { return Some(Render(Int(0))); }
    shard.SetExpiry(args[1], clock.second + Stol(args[2]).value * 1000);
    return Some(Render(Int(1)));
  }
}
