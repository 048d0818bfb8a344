/** What is written is read back: laws of the replies in every history of commands, whatever cores
    executed them and whatever other keys were used in between. */
module ReadWriteTheorems {
  import opened Bytes
  import opened Values
  import opened Commands
  import opened CommandTheorems
  import opened CommandLaws
  import opened Protocol
  import ProtocolPipelines
  import opened ProtocolSafety
  import opened ProtocolTheorems
  import Router
  import opened Server

  // ---------------------------------------------------------------- histories

  /** Executed commands with their replies, on `n` cores, starting from the keys in `db`. */
  ghost predicate History(env: Env, n: nat, db: Db, log: seq<Exec>) {
    n > 0 && ServiceOk(RealService(env, n)) && Truthful(RealService(env, n), db, log)
  }

  /** What is stored under a key when execution `i` begins. */
  ghost function Stored(env: Env, n: nat, db: Db, log: seq<Exec>, i: nat, k: Bytes): Slot
    requires History(env, n, db, log) && i <= |log|
  {
    At(Replay(RealService(env, n), db, log[..i]), k)
  }

  /** No execution from `i` up to `j` names the key. */
  ghost predicate Untouched(log: seq<Exec>, i: nat, j: nat, k: Bytes)
    requires i <= j <= |log|
  {
    forall m :: i <= m < j ==> |log[m].args| < 2 || log[m].args[1] != k
  }

  /** Every run of the server leaves a history. */
  lemma RunIsHistory(env: Env, n: nat, db: Db, states: seq<Sys>, actions: seq<Action>, i: nat)
    requires n > 0 && ServiceOk(RealService(env, n)) && IsRun(RealService(env, n), states, actions)
    requires Init(RealService(env, n), db, states[0]) && i < |states|
    ensures History(env, n, db, states[i].log)
  {
    hide RealService, ServiceOk, Enabled, Next, Init, ProtocolPipelines.Traffic, Wakeful, Connected, Told, Truthful, Matches;
    Reachable(RealService(env, n), db, states, actions, i);
  }

  lemma ReplayNext(sv: Service, db: Db, log: seq<Exec>, i: nat)
    requires ServiceOk(sv) && i < |log|
    ensures Replay(sv, db, log[..i + 1]) == Serve(sv, Replay(sv, db, log[..i]), log[i].remote, log[i].args, log[i].clock).0
  {
    hide ServiceOk, Serve;
    assert log[..i + 1][..i] == log[..i];
  }

  lemma ServeNamed(env: Env, n: nat, db: Db, remote: bool, c: Command, args: seq<Bytes>, clock: Clock)
    requires n > 0 && ServiceOk(RealService(env, n))
    requires args != [] && args[0] == Ascii(Text(c)) && Early(env, c, args) == None
    ensures |args| >= 2
    ensures var (slot, reply) := Apply(env, c, args, clock, At(db, args[1]));
            Serve(RealService(env, n), db, remote, args, clock) == (db[args[1] := slot], Render(reply))
  {
    hide ServiceOk, Render, Find, Early, Apply, Upper, Router.ShardId, Text, Ascii;
    FindsRegistered(c);
    RegisteredIsUpper(args[0]);
  }

  /** An execution does to its key's slot what its command does, and replies as the command does. */
  lemma Executed(env: Env, n: nat, db: Db, log: seq<Exec>, i: nat, c: Command)
    requires History(env, n, db, log) && i < |log| && log[i].args != []
    requires log[i].args[0] == Ascii(Text(c)) && Early(env, c, log[i].args) == None
    ensures |log[i].args| >= 2
    ensures var e := log[i];
            var (slot, reply) := Apply(env, c, e.args, e.clock, Stored(env, n, db, log, i, e.args[1]));
            Stored(env, n, db, log, i + 1, e.args[1]) == slot && e.reply == Render(reply)
  {
    hide RealService, ServiceOk, Render, Early, Apply, Text, Ascii, Replay, Serve;
    ReplayNext(RealService(env, n), db, log, i);
    ServeNamed(env, n, Replay(RealService(env, n), db, log[..i]), log[i].remote, c, log[i].args, log[i].clock);
  }

  lemma ServeElsewhere(sv: Service, db: Db, remote: bool, args: seq<Bytes>, clock: Clock, k: Bytes)
    requires ServiceOk(sv) && (|args| < 2 || args[1] != k)
    ensures At(Serve(sv, db, remote, args, clock).0, k) == At(db, k)
  {
  }

  /** Commands on other keys leave a key's slot alone, expired or not. */
  lemma {:induction false} Kept(env: Env, n: nat, db: Db, log: seq<Exec>, i: nat, j: nat, k: Bytes)
    requires History(env, n, db, log) && i <= j <= |log| && Untouched(log, i, j, k)
    ensures Stored(env, n, db, log, j, k) == Stored(env, n, db, log, i, k)
    decreases j
  {
    hide RealService, ServiceOk, Truthful, Replay, Serve;
    if i < j {
      Kept(env, n, db, log, i, j - 1, k);
      var e := log[j - 1];
      ReplayNext(RealService(env, n), db, log, j - 1);
      ServeElsewhere(RealService(env, n), Replay(RealService(env, n), db, log[..j - 1]), e.remote, e.args, e.clock, k);
    }
  }

  // ---------------------------------------------------------------- strings and deadlines

  /** After SET, GET replies with the value, at any time. */
  lemma GetAfterSet(env: Env, n: nat, db: Db, log: seq<Exec>, i: nat, j: nat, k: Bytes, v: Bytes)
    requires History(env, n, db, log) && i < j < |log| && Untouched(log, i + 1, j, k)
    requires log[i].args == [Ascii("SET"), k, v] && log[j].args == [Ascii("GET"), k]
    ensures log[i].reply == Render(Ok) && log[j].reply == Render(Bulk(v))
  {
    hide History, Stored, Untouched, Render, Ascii, Apply, Early;
    SetWrites(env, k, v, log[i].clock, Stored(env, n, db, log, i, k));
    Executed(env, n, db, log, i, SET);
    Kept(env, n, db, log, i + 1, j, k);
    GetReads(env, k, log[j].clock, Stored(env, n, db, log, j, k));
    Executed(env, n, db, log, j, GET);
  }

  /** After DEL, GET replies nil. */
  lemma GetAfterDel(env: Env, n: nat, db: Db, log: seq<Exec>, i: nat, j: nat, k: Bytes)
    requires History(env, n, db, log) && i < j < |log| && Untouched(log, i + 1, j, k)
    requires log[i].args == [Ascii("DEL"), k] && log[j].args == [Ascii("GET"), k]
    ensures log[i].reply == Render(Int(if Stored(env, n, db, log, i, k).value.Some? then 1 else 0))
    ensures log[j].reply == Render(Nil)
  {
    hide History, Stored, Untouched, Render, Ascii, Apply, Early;
    DelWrites(env, k, log[i].clock, Stored(env, n, db, log, i, k));
    Executed(env, n, db, log, i, DEL);
    Kept(env, n, db, log, i + 1, j, k);
    GetReads(env, k, log[j].clock, Stored(env, n, db, log, j, k));
    Executed(env, n, db, log, j, GET);
  }

  /** After SET, EXPIRE replies 1 and gives the key a deadline, its second clock reading plus the
      seconds. */
  lemma ExpireAfterSet(env: Env, n: nat, db: Db, log: seq<Exec>, h: nat, i: nat, k: Bytes, v: Bytes, arg: Bytes, seconds: int)
    requires History(env, n, db, log) && h < i < |log| && Untouched(log, h + 1, i, k)
    requires log[h].args == [Ascii("SET"), k, v] && log[i].args == [Ascii("EXPIRE"), k, arg] && Stol(arg) == Some(seconds)
    ensures log[i].reply == Render(Int(1))
    ensures Stored(env, n, db, log, i + 1, k) == Slot(Some(Str(v)), Some(log[i].clock.second + 1000 * seconds))
  {
    hide History, Stored, Untouched, Render, Ascii, Apply, Early, Stol;
    SetWrites(env, k, v, log[h].clock, Stored(env, n, db, log, h, k));
    Executed(env, n, db, log, h, SET);
    Kept(env, n, db, log, h + 1, i, k);
    ExpireWrites(env, k, arg, seconds, log[i].clock, Stored(env, n, db, log, i, k));
    Executed(env, n, db, log, i, EXPIRE);
  }

  /** After SET and EXPIRE, GET finds the value exactly until the deadline, the deadline included. */
  lemma GetAfterExpire(env: Env, n: nat, db: Db, log: seq<Exec>, h: nat, i: nat, j: nat, k: Bytes, v: Bytes, arg: Bytes, seconds: int)
    requires History(env, n, db, log) && h < i < j < |log| && Untouched(log, h + 1, i, k) && Untouched(log, i + 1, j, k)
    requires log[h].args == [Ascii("SET"), k, v] && log[i].args == [Ascii("EXPIRE"), k, arg] && Stol(arg) == Some(seconds)
    requires log[j].args == [Ascii("GET"), k]
    ensures log[j].reply == Render(if log[j].clock.first <= log[i].clock.second + 1000 * seconds then Bulk(v) else Nil)
  {
    hide History, Stored, Untouched, Render, Ascii, Apply, Early, Stol;
    ExpireAfterSet(env, n, db, log, h, i, k, v, arg, seconds);
    Kept(env, n, db, log, i + 1, j, k);
    GetReads(env, k, log[j].clock, Stored(env, n, db, log, j, k));
    Executed(env, n, db, log, j, GET);
  }

  /** After SET and EXPIRE, TTL replies with the whole seconds left, or -2 once the deadline has
      passed at either of its clock readings. */
  lemma TtlAfterExpire(env: Env, n: nat, db: Db, log: seq<Exec>, h: nat, i: nat, j: nat, k: Bytes, v: Bytes, arg: Bytes, seconds: int)
    returns (r: int)
    requires History(env, n, db, log) && h < i < j < |log| && Untouched(log, h + 1, i, k) && Untouched(log, i + 1, j, k)
    requires log[h].args == [Ascii("SET"), k, v] && log[i].args == [Ascii("EXPIRE"), k, arg] && Stol(arg) == Some(seconds)
    requires log[j].args == [Ascii("TTL"), k]
    ensures log[j].reply == Render(Int(r))
    ensures var deadline, clock := log[i].clock.second + 1000 * seconds, log[j].clock;
            if clock.first > deadline then r == -2
            else if deadline == -1 then r == -1
            else if clock.second > deadline then r == -2
            else r >= 0 && 1000 * r <= deadline - clock.second < 1000 * (r + 1)
  {
    hide History, Stored, Untouched, Render, Ascii, Apply, Early, Stol;
    ExpireAfterSet(env, n, db, log, h, i, k, v, arg, seconds);
    Kept(env, n, db, log, i + 1, j, k);
    r := TtlReads(env, k, log[j].clock, Stored(env, n, db, log, j, k));
    Executed(env, n, db, log, j, TTL);
  }

  /** After SET, TTL replies -1: SET clears any deadline. */
  lemma TtlAfterSet(env: Env, n: nat, db: Db, log: seq<Exec>, i: nat, j: nat, k: Bytes, v: Bytes)
    requires History(env, n, db, log) && i < j < |log| && Untouched(log, i + 1, j, k)
    requires log[i].args == [Ascii("SET"), k, v] && log[j].args == [Ascii("TTL"), k]
    ensures log[j].reply == Render(Int(-1))
  {
    hide History, Stored, Untouched, Render, Ascii, Apply, Early;
    SetWrites(env, k, v, log[i].clock, Stored(env, n, db, log, i, k));
    Executed(env, n, db, log, i, SET);
    Kept(env, n, db, log, i + 1, j, k);
    var r := TtlReads(env, k, log[j].clock, Stored(env, n, db, log, j, k));
    Executed(env, n, db, log, j, TTL);
  }

  // ---------------------------------------------------------------- collections

  /** A deadline, if there is one, has not passed. */
  ghost predicate InTime(deadline: Option<int>, now: int) {
    deadline.Some? ==> now <= deadline.value
  }

  lemma Named(name: Bytes, k: Bytes, xs: seq<Bytes>, args: seq<Bytes>)
    requires args == [name, k] + xs
    ensures |args| == 2 + |xs| && args[0] == name && args[1] == k && args[2..] == xs
  {
  }

  /** After HSET, HGET replies with the value of the last pair naming the field; with what was there
      before, if no pair does. */
  lemma HgetAfterHset(env: Env, n: nat, db: Db, log: seq<Exec>, i: nat, j: nat, k: Bytes, pairs: seq<Bytes>, f: Bytes)
    requires History(env, n, db, log) && i < j < |log| && Untouched(log, i + 1, j, k)
    requires log[i].args == [Ascii("HSET"), k] + pairs && |pairs| >= 2 && |pairs| % 2 == 0
    requires log[j].args == [Ascii("HGET"), k, f]
    requires HashOrMissing(Stored(env, n, db, log, i, k), log[i].clock.first)
    ensures var slot, t := Stored(env, n, db, log, i, k), log[i].clock.first;
            var v := if LastValue(pairs, f).Some? then LastValue(pairs, f) else Lookup(FieldsAt(slot, t), f);
            log[j].reply == Render(if v.Some? && InTime(Deadline(slot, t), log[j].clock.first) then Bulk(v.value) else Nil)
  {
    hide History, Stored, Untouched, Render, Ascii, Apply, Early, SetFields, LastValue;
    Named(Ascii("HSET"), k, pairs, log[i].args);
    var slot, t := Stored(env, n, db, log, i, k), log[i].clock.first;
    FieldsWritten(env, log[i].args, log[i].clock, slot);
    Executed(env, n, db, log, i, HSET);
    Kept(env, n, db, log, i + 1, j, k);
    LastPairWins(FieldsAt(slot, t), pairs, f);
    FieldRead(env, k, f, log[j].clock, Stored(env, n, db, log, j, k));
    Executed(env, n, db, log, j, HGET);
  }

  /** After HSET, HGETALL lists every field once, in order, each followed by its last value. */
  lemma HgetallAfterHset(env: Env, n: nat, db: Db, log: seq<Exec>, i: nat, j: nat, k: Bytes, pairs: seq<Bytes>)
    returns (order: seq<Bytes>, items: seq<Bytes>)
    requires History(env, n, db, log) && i < j < |log| && Untouched(log, i + 1, j, k)
    requires log[i].args == [Ascii("HSET"), k] + pairs && |pairs| >= 2 && |pairs| % 2 == 0
    requires log[j].args == [Ascii("HGETALL"), k]
    requires HashOrMissing(Stored(env, n, db, log, i, k), log[i].clock.first)
    requires InTime(Deadline(Stored(env, n, db, log, i, k), log[i].clock.first), log[j].clock.first)
    ensures log[j].reply == Render(Array(items)) && |items| == 2 * |order|
    ensures forall a, b :: 0 <= a < b < |order| ==> Less(order[a], order[b])
    ensures var was := FieldsAt(Stored(env, n, db, log, i, k), log[i].clock.first);
            && (forall f :: f in order <==> LastValue(pairs, f).Some? || f in was)
            && forall a :: 0 <= a < |order| ==>
                 && items[2 * a] == order[a]
                 && Some(items[2 * a + 1]) == if LastValue(pairs, order[a]).Some? then LastValue(pairs, order[a]) else Lookup(was, order[a])
  {
    hide History, Stored, Untouched, Render, Ascii, Apply, Early, SetFields, LastValue, Less;
    Named(Ascii("HSET"), k, pairs, log[i].args);
    var slot, t := Stored(env, n, db, log, i, k), log[i].clock.first;
    FieldsWritten(env, log[i].args, log[i].clock, slot);
    Executed(env, n, db, log, i, HSET);
    Kept(env, n, db, log, i + 1, j, k);
    order, items := FieldsRead(env, k, log[j].clock, Stored(env, n, db, log, j, k));
    Executed(env, n, db, log, j, HGETALL);
    forall f ensures f in order <==> LastValue(pairs, f).Some? || f in FieldsAt(slot, t) {
      LastPairWins(FieldsAt(slot, t), pairs, f);
    }
    forall a | 0 <= a < |order|
      ensures Some(items[2 * a + 1]) == if LastValue(pairs, order[a]).Some? then LastValue(pairs, order[a]) else Lookup(FieldsAt(slot, t), order[a])
    {
      LastPairWins(FieldsAt(slot, t), pairs, order[a]);
    }
  }

  /** After ZADD, ZSCORE shows a score that compares equal to that of the last pair naming the member
      before the first bad score, and is that score unless it is a zero; with what was there before,
      if no such pair does. */
  lemma ZscoreAfterZadd(env: Env, n: nat, db: Db, log: seq<Exec>, i: nat, j: nat, k: Bytes, pairs: seq<Bytes>, m: Bytes)
    returns (score: Option<Score>)
    requires History(env, n, db, log) && i < j < |log| && Untouched(log, i + 1, j, k)
    requires log[i].args == [Ascii("ZADD"), k] + pairs && |pairs| >= 2 && |pairs| % 2 == 0
    requires log[j].args == [Ascii("ZSCORE"), k, m]
    requires SortedOrMissing(Stored(env, n, db, log, i, k), log[i].clock.first)
    ensures var slot, t, last := Stored(env, n, db, log, i, k), log[i].clock.first, LastScore(env, pairs, m);
            && (last.Some? ==> score.Some? && Rank(score.value) == Rank(last.value) && (Rank(last.value) != 0 ==> score == last))
            && (last.None? ==> score == Lookup(ZSetAt(slot, t).dict, m))
            && log[j].reply == Render(if score.Some? && InTime(Deadline(slot, t), log[j].clock.first) then Bulk(env.showScore(score.value)) else Nil)
  {
    hide History, Stored, Untouched, Render, Ascii, Apply, Early, AddScores, LastScore, Rank;
    Named(Ascii("ZADD"), k, pairs, log[i].args);
    var slot, t, last := Stored(env, n, db, log, i, k), log[i].clock.first, LastScore(env, pairs, m);
    ScoresWritten(env, log[i].args, log[i].clock, slot);
    Executed(env, n, db, log, i, ZADD);
    Kept(env, n, db, log, i + 1, j, k);
    LastScoreWins(env, ZSetAt(slot, t), pairs, m);
    score := Lookup(AddScores(env, ZSetAt(slot, t), pairs).0.dict, m);
    if last.Some? && Rank(last.value) != 0 { RankTells(score.value, last.value); }
    ScoreRead(env, k, m, log[j].clock, Stored(env, n, db, log, j, k));
    Executed(env, n, db, log, j, ZSCORE);
  }

  /** After HDEL, HGET finds the fields that were there and were not named. */
  lemma HgetAfterHdel(env: Env, n: nat, db: Db, log: seq<Exec>, i: nat, j: nat, k: Bytes, xs: seq<Bytes>, f: Bytes)
    requires History(env, n, db, log) && i < j < |log| && Untouched(log, i + 1, j, k)
    requires log[i].args == [Ascii("HDEL"), k] + xs && xs != [] && log[j].args == [Ascii("HGET"), k, f]
    requires HashOrMissing(Stored(env, n, db, log, i, k), log[i].clock.first)
    ensures var slot, t := Stored(env, n, db, log, i, k), log[i].clock.first;
            var v := if f in xs then None else Lookup(FieldsAt(slot, t), f);
            log[j].reply == Render(if v.Some? && InTime(Deadline(slot, t), log[j].clock.first) then Bulk(v.value) else Nil)
  {
    hide History, Stored, Untouched, Render, Ascii, Apply, Early;
    Named(Ascii("HDEL"), k, xs, log[i].args);
    FieldsErased(env, log[i].args, log[i].clock, Stored(env, n, db, log, i, k), f);
    Executed(env, n, db, log, i, HDEL);
    Kept(env, n, db, log, i + 1, j, k);
    FieldRead(env, k, f, log[j].clock, Stored(env, n, db, log, j, k));
    Executed(env, n, db, log, j, HGET);
  }

  /** After ZREM, ZSCORE finds the members that were there and were not named. */
  lemma ZscoreAfterZrem(env: Env, n: nat, db: Db, log: seq<Exec>, i: nat, j: nat, k: Bytes, xs: seq<Bytes>, m: Bytes)
    requires History(env, n, db, log) && i < j < |log| && Untouched(log, i + 1, j, k)
    requires log[i].args == [Ascii("ZREM"), k] + xs && xs != [] && log[j].args == [Ascii("ZSCORE"), k, m]
    requires SortedOrMissing(Stored(env, n, db, log, i, k), log[i].clock.first)
    ensures var slot, t := Stored(env, n, db, log, i, k), log[i].clock.first;
            var score := if m in xs then None else Lookup(ZSetAt(slot, t).dict, m);
            log[j].reply == Render(if score.Some? && InTime(Deadline(slot, t), log[j].clock.first) then Bulk(env.showScore(score.value)) else Nil)
  {
    hide History, Stored, Untouched, Render, Ascii, Apply, Early;
    Named(Ascii("ZREM"), k, xs, log[i].args);
    ScoresErased(env, log[i].args, log[i].clock, Stored(env, n, db, log, i, k), m);
    Executed(env, n, db, log, i, ZREM);
    Kept(env, n, db, log, i + 1, j, k);
    ScoreRead(env, k, m, log[j].clock, Stored(env, n, db, log, j, k));
    Executed(env, n, db, log, j, ZSCORE);
  }

  /** ZRANGE with two numbers, and possibly a further word; scores are asked for by WITHSCORES in any
      spelling. */
  ghost predicate AsksRange(args: seq<Bytes>, k: Bytes, start: int, stop: int, withScores: bool) {
    && -TWO_31 <= start < TWO_31 && -TWO_31 <= stop < TWO_31
    && |args| >= 4 && args[0] == Ascii("ZRANGE") && args[1] == k && args[2] == DecInt(start) && args[3] == DecInt(stop)
    && (withScores <==> |args| > 4 && Upper(args[4]) == Ascii("WITHSCORES"))
  }

  /** ZRANGE lists, in every history that started from indexed sorted sets, exactly the members whose
      number of entries below is selected, in that order, with their scores if asked for. */
  lemma ZrangeByRank(env: Env, n: nat, db: Db, log: seq<Exec>, j: nat, k: Bytes, start: int, stop: int, withScores: bool)
    returns (items: seq<Bytes>, lo: nat, count: nat)
    requires History(env, n, db, log) && AllOk(db) && j < |log| && AsksRange(log[j].args, k, start, stop, withScores)
    requires SortedOrMissing(Stored(env, n, db, log, j, k), log[j].clock.first)
    ensures log[j].reply == Render(Array(items))
    ensures ListsRanks(env, ZSetAt(Stored(env, n, db, log, j, k), log[j].clock.first), items, start, stop, withScores, lo, count)
  {
    hide History, Stored, Render, Ascii, Upper, Apply, Early, DecInt, Range, Indexed, ListsRanks;
    var args, slot := log[j].args, Stored(env, n, db, log, j, k);
    ParseDecInt(start, -TWO_31, TWO_31);
    ParseDecInt(stop, -TWO_31, TWO_31);
    RankedRead(env, args, start, stop, log[j].clock, slot);
    Executed(env, n, db, log, j, ZRANGE);
    StoredOk(env, n, db, log, j, k);
    EmptyIndexed();
    var z := ZSetAt(slot, log[j].clock.first);
    items := Range(env, z, start, stop, withScores);
    lo, count := RangeExact(env, z, start, stop, withScores);
  }

  lemma StoredOk(env: Env, n: nat, db: Db, log: seq<Exec>, i: nat, k: Bytes)
    requires History(env, n, db, log) && AllOk(db) && i <= |log|
    ensures SlotOk(Stored(env, n, db, log, i, k))
  {
    hide RealService, ServiceOk, Truthful, Replay, SlotOk;
    ReplayKeeps(env, n, db, log[..i]);
  }

  /** After SADD or SREM, SMEMBERS lists in order, each once, the members that were there and those
      added, or those that were there and not removed. */
  lemma SmembersAfter(env: Env, n: nat, db: Db, log: seq<Exec>, i: nat, j: nat, k: Bytes, adds: bool, xs: seq<Bytes>)
    returns (items: seq<Bytes>)
    requires History(env, n, db, log) && i < j < |log| && Untouched(log, i + 1, j, k)
    requires log[i].args == [Ascii(if adds then "SADD" else "SREM"), k] + xs && xs != []
    requires log[j].args == [Ascii("SMEMBERS"), k]
    requires SetOrMissing(Stored(env, n, db, log, i, k), log[i].clock.first)
    requires InTime(Deadline(Stored(env, n, db, log, i, k), log[i].clock.first), log[j].clock.first)
    ensures log[j].reply == Render(Array(items))
    ensures forall a, b :: 0 <= a < b < |items| ==> Less(items[a], items[b])
    ensures var was := MembersAt(Stored(env, n, db, log, i, k), log[i].clock.first);
            forall x :: x in items <==> if adds then x in was || x in xs else x in was && x !in xs
  {
    hide History, Stored, Untouched, Render, Ascii, Apply, Early, Less;
    Named(Ascii(if adds then "SADD" else "SREM"), k, xs, log[i].args);
    var members := MembersWritten(env, adds, log[i].args, log[i].clock, Stored(env, n, db, log, i, k));
    Executed(env, n, db, log, i, if adds then SADD else SREM);
    Kept(env, n, db, log, i + 1, j, k);
    items := MembersRead(env, k, log[j].clock, Stored(env, n, db, log, j, k));
    Executed(env, n, db, log, j, SMEMBERS);
  }

  // ---------------------------------------------------------------- lists

  /** The list after a push: RPUSH appends its arguments, LPUSH prepends them, the last one first. */
  ghost predicate Pushed(left: bool, items: seq<Bytes>, xs: seq<Bytes>, list: seq<Bytes>) {
    && |list| == |items| + |xs|
    && (left ==> list[|xs|..] == items && forall a :: 0 <= a < |xs| ==> list[a] == xs[|xs| - 1 - a])
    && (!left ==> list == items + xs)
  }

  lemma AfterPush(env: Env, n: nat, db: Db, log: seq<Exec>, i: nat, j: nat, k: Bytes, left: bool, xs: seq<Bytes>)
    returns (list: seq<Bytes>)
    requires History(env, n, db, log) && i < j <= |log| && Untouched(log, i + 1, j, k)
    requires log[i].args == [Ascii(if left then "LPUSH" else "RPUSH"), k] + xs && xs != []
    requires ListOrMissing(Stored(env, n, db, log, i, k), log[i].clock.first)
    ensures var slot, t := Stored(env, n, db, log, i, k), log[i].clock.first;
            && Pushed(left, ItemsAt(slot, t), xs, list) && log[i].reply == Render(Int(|list|))
            && Stored(env, n, db, log, j, k) == Slot(Some(List(list)), Deadline(slot, t))
  {
    hide History, Stored, Untouched, Render, Ascii, Apply, Early, Reverse, Pushed, ItemsAt, Deadline, ListOrMissing;
    Named(Ascii(if left then "LPUSH" else "RPUSH"), k, xs, log[i].args);
    var slot, t := Stored(env, n, db, log, i, k), log[i].clock.first;
    PushWrites(env, left, log[i].args, log[i].clock, slot);
    Executed(env, n, db, log, i, if left then LPUSH else RPUSH);
    Kept(env, n, db, log, i + 1, j, k);
    list := if left then Reverse(xs) + ItemsAt(slot, t) else ItemsAt(slot, t) + xs;
    PushedList(left, ItemsAt(slot, t), xs);
  }

  lemma PushedList(left: bool, items: seq<Bytes>, xs: seq<Bytes>)
    ensures var list := if left then Reverse(xs) + items else items + xs;
            Pushed(left, items, xs, list) && |list| == |items| + |xs|
  {
    hide Reverse;
    ReverseAt(xs, 0);
    forall a | 0 <= a < |xs| ensures Reverse(xs)[a] == xs[|xs| - 1 - a] { ReverseAt(xs, a); }
  }

  lemma FoundList(list: seq<Bytes>, deadline: Option<int>, now: int)
    requires InTime(deadline, now)
    ensures var slot := Slot(Some(List(list)), deadline); ListOrMissing(slot, now) && ItemsAt(slot, now) == list
  {
  }

  /** After a push, LRANGE lists the selected items of the list, in order. */
  lemma LrangeAfterPush(env: Env, n: nat, db: Db, log: seq<Exec>, i: nat, j: nat, k: Bytes, left: bool, xs: seq<Bytes>, start: int, stop: int)
    returns (list: seq<Bytes>, lo: nat, hi: nat)
    requires History(env, n, db, log) && i < j < |log| && Untouched(log, i + 1, j, k)
    requires log[i].args == [Ascii(if left then "LPUSH" else "RPUSH"), k] + xs && xs != []
    requires log[j].args == [Ascii("LRANGE"), k, DecInt(start), DecInt(stop)] && -TWO_31 <= start < TWO_31 && -TWO_31 <= stop < TWO_31
    requires ListOrMissing(Stored(env, n, db, log, i, k), log[i].clock.first)
    requires InTime(Deadline(Stored(env, n, db, log, i, k), log[i].clock.first), log[j].clock.first)
    ensures Pushed(left, ItemsAt(Stored(env, n, db, log, i, k), log[i].clock.first), xs, list)
    ensures lo <= hi <= |list| && log[j].reply == Render(Array(list[lo..hi]))
    ensures forall a :: 0 <= a < |list| ==> (lo <= a < hi <==> Selects(start, stop, |list|, a))
  {
    hide History, Stored, Untouched, Render, Ascii, Apply, Early, Pushed, Slice, DecInt, ItemsAt, ListOrMissing, Live, Deadline;
    list := AfterPush(env, n, db, log, i, j, k, left, xs);
    FoundList(list, Deadline(Stored(env, n, db, log, i, k), log[i].clock.first), log[j].clock.first);
    ParseDecInt(start, -TWO_31, TWO_31);
    ParseDecInt(stop, -TWO_31, TWO_31);
    RangeReads(env, k, DecInt(start), DecInt(stop), start, stop, log[j].clock, Stored(env, n, db, log, j, k));
    Executed(env, n, db, log, j, LRANGE);
    lo := SliceExact(list, start, stop);
    hi := lo + |Slice(list, start, stop)|;
  }

  /** After a push, LRANGE 0 -1 lists the whole list. */
  lemma WholeListAfterPush(env: Env, n: nat, db: Db, log: seq<Exec>, i: nat, j: nat, k: Bytes, left: bool, xs: seq<Bytes>)
    returns (list: seq<Bytes>)
    requires History(env, n, db, log) && i < j < |log| && Untouched(log, i + 1, j, k)
    requires log[i].args == [Ascii(if left then "LPUSH" else "RPUSH"), k] + xs && xs != []
    requires log[j].args == [Ascii("LRANGE"), k, Ascii("0"), Ascii("-1")]
    requires ListOrMissing(Stored(env, n, db, log, i, k), log[i].clock.first)
    requires InTime(Deadline(Stored(env, n, db, log, i, k), log[i].clock.first), log[j].clock.first)
    ensures Pushed(left, ItemsAt(Stored(env, n, db, log, i, k), log[i].clock.first), xs, list)
    ensures log[j].reply == Render(Array(list))
  {
    hide History, Stored, Untouched, Render, Ascii, DecInt, Pushed, Selects, ItemsAt, Deadline, Live;
    ZeroToLast();
    var lo, hi;
    list, lo, hi := LrangeAfterPush(env, n, db, log, i, j, k, left, xs, 0, -1);
    WholeRange(list, lo, hi);
  }

  lemma WholeRange(list: seq<Bytes>, lo: nat, hi: nat)
    requires lo <= hi <= |list| && forall a :: 0 <= a < |list| ==> (lo <= a < hi <==> Selects(0, -1, |list|, a))
    ensures list[lo..hi] == list
  {
    if list != [] {
      assert Selects(0, -1, |list|, 0) && Selects(0, -1, |list|, |list| - 1);
    }
  }

  lemma ZeroToLast()
    ensures DecInt(0) == Ascii("0") && DecInt(-1) == Ascii("-1")
  {
    assert Dec(1) == [49];
  }

  /** After a push, LLEN replies with the length the push replied with. */
  lemma LlenAfterPush(env: Env, n: nat, db: Db, log: seq<Exec>, i: nat, j: nat, k: Bytes, left: bool, xs: seq<Bytes>)
    requires History(env, n, db, log) && i < j < |log| && Untouched(log, i + 1, j, k)
    requires log[i].args == [Ascii(if left then "LPUSH" else "RPUSH"), k] + xs && xs != [] && log[j].args == [Ascii("LLEN"), k]
    requires ListOrMissing(Stored(env, n, db, log, i, k), log[i].clock.first)
    requires InTime(Deadline(Stored(env, n, db, log, i, k), log[i].clock.first), log[j].clock.first)
    ensures log[j].reply == Render(Int(|ItemsAt(Stored(env, n, db, log, i, k), log[i].clock.first)| + |xs|)) == log[i].reply
  {
    hide History, Stored, Untouched, Render, Ascii, Apply, Early, ItemsAt, ListOrMissing, Live, Deadline;
    var list := AfterPush(env, n, db, log, i, j, k, left, xs);
    FoundList(list, Deadline(Stored(env, n, db, log, i, k), log[i].clock.first), log[j].clock.first);
    LengthReads(env, k, log[j].clock, Stored(env, n, db, log, j, k));
    Executed(env, n, db, log, j, LLEN);
  }

  lemma PushedEnds(left: bool, items: seq<Bytes>, xs: seq<Bytes>, list: seq<Bytes>)
    requires Pushed(left, items, xs, list) && xs != []
    ensures list != []
    ensures list[0] == if left then xs[|xs| - 1] else if items == [] then xs[0] else items[0]
    ensures list[|list| - 1] == if !left then xs[|xs| - 1] else if items == [] then xs[0] else items[|items| - 1]
  {
    if left && items != [] { assert list[|list| - 1] == list[|xs|..][|items| - 1]; }
  }

  lemma PopReads(env: Env, k: Bytes, first: bool, clock: Clock, list: seq<Bytes>, deadline: Option<int>)
    requires list != []
    ensures var c, args := if first then LPOP else RPOP, [Ascii(if first then "LPOP" else "RPOP"), k];
            && Early(env, c, args) == None
            && Apply(env, c, args, clock, Slot(Some(List(list)), deadline)).1 ==
               if InTime(deadline, clock.first) then Bulk(list[if first then 0 else |list| - 1]) else Nil
  {
    hide Ascii, Apply, Early, Purge;
    PopWrites(env, k, first, clock, Slot(Some(List(list)), deadline));
  }

  /** After a push, LPOP replies with the first item of the list and RPOP with the last. */
  lemma PopAfterPush(env: Env, n: nat, db: Db, log: seq<Exec>, i: nat, j: nat, k: Bytes, left: bool, xs: seq<Bytes>, first: bool)
    requires History(env, n, db, log) && i < j < |log| && Untouched(log, i + 1, j, k)
    requires log[i].args == [Ascii(if left then "LPUSH" else "RPUSH"), k] + xs && xs != []
    requires log[j].args == [Ascii(if first then "LPOP" else "RPOP"), k]
    requires ListOrMissing(Stored(env, n, db, log, i, k), log[i].clock.first)
    ensures var slot, t := Stored(env, n, db, log, i, k), log[i].clock.first;
            var items := ItemsAt(slot, t);
            log[j].reply == Render(
              if !InTime(Deadline(slot, t), log[j].clock.first) then Nil
              else if left == first then Bulk(xs[|xs| - 1])
              else if items == [] then Bulk(xs[0])
              else if first then Bulk(items[0]) else Bulk(items[|items| - 1]))
  {
    hide History, Stored, Untouched, Render, Ascii, Apply, Early, Pushed, ItemsAt, Deadline, Live, InTime;
    var list := AfterPush(env, n, db, log, i, j, k, left, xs);
    var slot, t := Stored(env, n, db, log, i, k), log[i].clock.first;
    PushedEnds(left, ItemsAt(slot, t), xs, list);
    PopReads(env, k, first, log[j].clock, list, Deadline(slot, t));
    Executed(env, n, db, log, j, if first then LPOP else RPOP);
  }

  // ---------------------------------------------------------------- queues

  /** What goes in at one end comes out at the other: RPUSH and LPOP, or LPUSH and RPOP. */
  ghost predicate IsPush(args: seq<Bytes>, right: bool) {
    |args| >= 3 && args[0] == Ascii(if right then "RPUSH" else "LPUSH")
  }

  ghost predicate IsPop(args: seq<Bytes>, right: bool) {
    |args| == 2 && args[0] == Ascii(if right then "LPOP" else "RPOP")
  }

  ghost predicate OnKey(e: Exec, k: Bytes) {
    |e.args| >= 2 && e.args[1] == k
  }

  /** The executions on the key are pushes at one end and pops at the other. */
  ghost predicate OnlyQueued(log: seq<Exec>, k: Bytes, right: bool) {
    forall m :: 0 <= m < |log| && OnKey(log[m], k) ==> IsPush(log[m].args, right) || IsPop(log[m].args, right)
  }

  /** Everything pushed, in order. */
  ghost function In(log: seq<Exec>, k: Bytes, right: bool): seq<Bytes> {
    if log == [] then []
    else
      var e := log[|log| - 1];
      In(log[..|log| - 1], k, right) + if OnKey(e, k) && IsPush(e.args, right) then e.args[2..] else []
  }

  /** The replies to the pops that found something, in order. */
  ghost function Out(log: seq<Exec>, k: Bytes, right: bool): seq<Bytes> {
    if log == [] then []
    else
      var e := log[|log| - 1];
      Out(log[..|log| - 1], k, right) +
      if OnKey(e, k) && IsPop(e.args, right) && e.reply != Render(Nil) then [e.reply] else []
  }

  ghost function Bulks(xs: seq<Bytes>): seq<Bytes> {
    seq(|xs|, i requires 0 <= i < |xs| => Render(Bulk(xs[i])))
  }

  /** The list, from where it is popped to where it is pushed. */
  ghost function Waiting(slot: Slot, right: bool): seq<Bytes> {
    if right then ItemsAt(slot, 0) else Reverse(ItemsAt(slot, 0))
  }

  ghost predicate Lasting(slot: Slot) {
    slot.expiry == None && ListOrMissing(slot, 0)
  }

  lemma {:induction false} ReverseConcat(a: seq<Bytes>, b: seq<Bytes>)
    ensures Reverse(a + b) == Reverse(b) + Reverse(a)
  {
    if a == [] {
      assert a + b == b && Reverse(b) + [] == Reverse(b);
    } else {
      ReverseConcat(a[1..], b);
      assert (a + b)[1..] == a[1..] + b;
    }
  }

  lemma {:induction false} ReverseTwice(a: seq<Bytes>)
    ensures Reverse(Reverse(a)) == a
  {
    if a != [] {
      ReverseTwice(a[1..]);
      ReverseConcat(Reverse(a[1..]), [a[0]]);
      assert Reverse([a[0]]) == [a[0]];
    }
  }

  lemma BulkIsNotNil(x: Bytes)
    ensures Render(Bulk(x)) != Render(Nil)
  {
    var b := Render(Bulk(x));
    assert b[1] == Dec(|x|)[0] && IsDigit(b[1]);
    assert Render(Nil)[1] == Ascii("$-1")[1] == 45;
  }

  lemma Pushing(env: Env, n: nat, db: Db, log: seq<Exec>, i: nat, k: Bytes, right: bool)
    requires History(env, n, db, log) && i < |log| && OnKey(log[i], k) && IsPush(log[i].args, right)
    requires Lasting(Stored(env, n, db, log, i, k))
    ensures var after := Stored(env, n, db, log, i + 1, k);
            Lasting(after) && Waiting(after, right) == Waiting(Stored(env, n, db, log, i, k), right) + log[i].args[2..]
  {
    hide History, Stored, Render, Ascii, Apply, Early, Reverse;
    var slot := Stored(env, n, db, log, i, k);
    PushWrites(env, !right, log[i].args, log[i].clock, slot);
    Executed(env, n, db, log, i, if right then RPUSH else LPUSH);
    ReverseConcat(Reverse(log[i].args[2..]), ItemsAt(slot, 0));
    ReverseTwice(log[i].args[2..]);
  }

  lemma {:induction false} Popping(env: Env, n: nat, db: Db, log: seq<Exec>, i: nat, k: Bytes, right: bool)
    requires History(env, n, db, log) && i < |log| && OnKey(log[i], k) && IsPop(log[i].args, right)
    requires Lasting(Stored(env, n, db, log, i, k))
    ensures var waiting, after := Waiting(Stored(env, n, db, log, i, k), right), Stored(env, n, db, log, i + 1, k);
            && Lasting(after)
            && (waiting == [] ==> log[i].reply == Render(Nil) && Waiting(after, right) == [])
            && (waiting != [] ==> log[i].reply == Render(Bulk(waiting[0])) && Waiting(after, right) == waiting[1..])
  {
    hide History, Stored, Render, Ascii, Apply, Early, Reverse, Purge;
    var slot, clock := Stored(env, n, db, log, i, k), log[i].clock;
    var items := ItemsAt(slot, 0);
    assert log[i].args == [Ascii(if right then "LPOP" else "RPOP"), k];
    PopWrites(env, k, right, clock, slot);
    PurgedByDeadline(slot, clock.first);
    Executed(env, n, db, log, i, if right then LPOP else RPOP);
    ReverseAt(items, 0);
    if items != [] {
      var last := |items| - 1;
      ReverseConcat(items[..last], [items[last]]);
      assert items[..last] + [items[last]] == items;
      ReverseAt([items[last]], 0);
    }
  }

  lemma InOutNext(log: seq<Exec>, m: nat, k: Bytes, right: bool)
    requires m < |log|
    ensures var e := log[m];
            && In(log[..m + 1], k, right) ==
               In(log[..m], k, right) + (if OnKey(e, k) && IsPush(e.args, right) then e.args[2..] else [])
            && Out(log[..m + 1], k, right) ==
               Out(log[..m], k, right) + (if OnKey(e, k) && IsPop(e.args, right) && e.reply != Render(Nil) then [e.reply] else [])
  {
    hide Render, Ascii;
    assert log[..m + 1][..m] == log[..m];
  }

  lemma QueueStart(env: Env, n: nat, db: Db, log: seq<Exec>, k: Bytes, right: bool)
    requires History(env, n, db, log)
    ensures Stored(env, n, db, log, 0, k) == At(db, k) && In(log[..0], k, right) == [] && Out(log[..0], k, right) == []
  {
    hide RealService, ServiceOk, Truthful;
    assert log[..0] == [];
  }

  /** What was waiting, `was`, and what went in is what came out and what is waiting. */
  ghost predicate Conserved(was: seq<Bytes>, pushed: seq<Bytes>, popped: seq<Bytes>, waiting: seq<Bytes>, replies: seq<Bytes>) {
    was + pushed == popped + waiting && replies == Bulks(popped)
  }

  lemma PushConserves(was: seq<Bytes>, pushed: seq<Bytes>, popped: seq<Bytes>, waiting: seq<Bytes>, replies: seq<Bytes>, xs: seq<Bytes>)
    requires Conserved(was, pushed, popped, waiting, replies)
    ensures Conserved(was, pushed + xs, popped, waiting + xs, replies + [])
  {
    assert was + (pushed + xs) == (was + pushed) + xs && popped + (waiting + xs) == (popped + waiting) + xs;
    assert replies + [] == replies;
  }

  lemma PopConserves(was: seq<Bytes>, pushed: seq<Bytes>, popped: seq<Bytes>, waiting: seq<Bytes>, replies: seq<Bytes>)
    requires Conserved(was, pushed, popped, waiting, replies) && waiting != []
    ensures Conserved(was, pushed + [], popped + [waiting[0]], waiting[1..], replies + [Render(Bulk(waiting[0]))])
  {
    hide Render;
    assert popped + waiting == (popped + [waiting[0]]) + waiting[1..] && pushed + [] == pushed;
    assert Bulks(popped + [waiting[0]]) == Bulks(popped) + [Render(Bulk(waiting[0]))];
  }

  lemma StayConserves(was: seq<Bytes>, pushed: seq<Bytes>, popped: seq<Bytes>, waiting: seq<Bytes>, replies: seq<Bytes>)
    requires Conserved(was, pushed, popped, waiting, replies)
    ensures Conserved(was, pushed + [], popped, waiting, replies + [])
  {
    assert pushed + [] == pushed && replies + [] == replies;
  }

  /** First in, first out, over every history in which a key is only pushed to at one end and popped
      at the other: what was waiting and what was pushed is, in order, what the pops replied with and
      what is still waiting. */
  lemma {:induction false} QueueConserved(env: Env, n: nat, db: Db, log: seq<Exec>, m: nat, k: Bytes, right: bool)
    returns (popped: seq<Bytes>)
    requires History(env, n, db, log) && m <= |log| && OnlyQueued(log, k, right) && Lasting(At(db, k))
    ensures Lasting(Stored(env, n, db, log, m, k))
    ensures Conserved(Waiting(At(db, k), right), In(log[..m], k, right), popped,
                      Waiting(Stored(env, n, db, log, m, k), right), Out(log[..m], k, right))
    decreases m
  {
    hide History, Stored, Render, Ascii, Lasting, Waiting, In, Out, IsPush, IsPop, Conserved;
    if m == 0 {
      QueueStart(env, n, db, log, k, right);
      NothingYet(Waiting(At(db, k), right));
      return [];
    }
    popped := QueueConserved(env, n, db, log, m - 1, k, right);
    InOutNext(log, m - 1, k, right);
    var e, waiting := log[m - 1], Waiting(Stored(env, n, db, log, m - 1, k), right);
    var was, pushed, replies := Waiting(At(db, k), right), In(log[..m - 1], k, right), Out(log[..m - 1], k, right);
    PushNotPop(e.args, right);
    if !OnKey(e, k) {
      Kept(env, n, db, log, m - 1, m, k);
      StayConserves(was, pushed, popped, waiting, replies);
    } else if IsPush(e.args, right) {
      Pushing(env, n, db, log, m - 1, k, right);
      PushConserves(was, pushed, popped, waiting, replies, e.args[2..]);
    } else {
      Popping(env, n, db, log, m - 1, k, right);
      if waiting == [] {
        StayConserves(was, pushed, popped, waiting, replies);
      } else {
        BulkIsNotNil(waiting[0]);
        PopConserves(was, pushed, popped, waiting, replies);
        popped := popped + [waiting[0]];
      }
    }
  }

  lemma NothingYet(was: seq<Bytes>)
    ensures Conserved(was, [], [], was, [])
  {
    assert was + [] == [] + was;
  }

  lemma PushNotPop(args: seq<Bytes>, right: bool)
    ensures !(IsPush(args, right) && IsPop(args, right))
  {
  }

  // ---------------------------------------------------------------- dispatch

  /** PING, however it is spelled, is answered where it arrives, and changes nothing. */
  lemma PingAnswered(env: Env, n: nat, db: Db, log: seq<Exec>, i: nat, k: Bytes)
    requires History(env, n, db, log) && i < |log| && log[i].args != [] && Upper(log[i].args[0]) == Ascii("PING") && !log[i].remote
    ensures log[i].reply == Ascii("+PONG") + Ascii("\r\n")
    ensures Stored(env, n, db, log, i + 1, k) == Stored(env, n, db, log, i, k)
  {
    hide ServiceOk, Render, Find, Upper, Router.ShardId, Ascii, Replay, EarlyNamed, ApplyNamed;
    ReplayNext(RealService(env, n), db, log, i);
    PingNotRegistered();
    Wire(0, []);
  }

  lemma PingNotRegistered()
    ensures Find(Ascii("PING"), ALL).None?
  {
    hide Find, Ascii;
    var r := Find(Ascii("PING"), ALL);
    if r.Some? {
      TextChars(r.value);
      AsciiInjective(Text(r.value), "PING");
      NotPing(r.value);
    }
  }

  lemma NotPing(c: Command)
    ensures Text(c) != "PING"
  {
    assert "PING"[0] == 'P';
    assert Text(c)[0] != 'P';
  }

  /** How many words a command takes, its name included. */
  predicate Takes(c: Command, words: nat) {
    if c in {GET, DEL, LPOP, RPOP, LLEN, SMEMBERS, SCARD, HGETALL, HLEN, ZCARD, TTL} then words == 2
    else if c in {SET, HGET, ZSCORE, EXPIRE} then words == 3
    else if c == LRANGE then words == 4
    else if c in {HSET, ZADD} then words >= 4 && words % 2 == 0
    else if c == ZRANGE then words >= 4
    else words >= 3
  }

  /** A command with the wrong number of words is refused, and changes nothing. */
  lemma ArityRefused(env: Env, n: nat, db: Db, log: seq<Exec>, i: nat, c: Command, k: Bytes)
    requires History(env, n, db, log) && i < |log| && c != SAVE
    requires log[i].args != [] && log[i].args[0] == Ascii(Text(c)) && !Takes(c, |log[i].args|)
    ensures log[i].reply == Render(Err(WrongArgs(Lower(c))))
    ensures Stored(env, n, db, log, i + 1, k) == Stored(env, n, db, log, i, k)
  {
    hide ServiceOk, Render, Find, Upper, Router.ShardId, Ascii, Text, Lower, Replay, ApplyNamed, Stol;
    ReplayNext(RealService(env, n), db, log, i);
    FindsRegistered(c);
    RegisteredIsUpper(log[i].args[0]);
  }

  /** So SET with anything but a key and a value. */
  lemma SetRefused(env: Env, n: nat, db: Db, log: seq<Exec>, i: nat, k: Bytes)
    requires History(env, n, db, log) && i < |log| && log[i].args != [] && log[i].args[0] == Ascii("SET") && |log[i].args| != 3
    ensures log[i].reply == Render(Err(WrongArgs(Ascii("set"))))
    ensures Stored(env, n, db, log, i + 1, k) == Stored(env, n, db, log, i, k)
  {
    hide History, Stored, Render, Ascii, Lower;
    ArityRefused(env, n, db, log, i, SET, k);
    LowerSet();
  }

  /** EXPIRE of something that is not a number is refused, and changes nothing. */
  lemma ExpireRefused(env: Env, n: nat, db: Db, log: seq<Exec>, i: nat, k: Bytes, j: Bytes, arg: Bytes)
    requires History(env, n, db, log) && i < |log| && log[i].args == [Ascii("EXPIRE"), k, arg] && Stol(arg).None?
    ensures log[i].reply == Render(Err(NotInteger))
    ensures Stored(env, n, db, log, i + 1, j) == Stored(env, n, db, log, i, j)
  {
    hide ServiceOk, Render, Find, Upper, Router.ShardId, Ascii, Replay, ApplyNamed, Stol;
    ReplayNext(RealService(env, n), db, log, i);
    FindsRegistered(EXPIRE);
    RegisteredIsUpper(log[i].args[0]);
  }

  lemma LowerSet()
    ensures Lower(SET) == Ascii("set")
  {
    var s := seq(3, i requires 0 <= i < 3 => LowerByte("SET"[i]));
    assert s == "set";
  }

  /** A connection finds every command by its lower-case name too. */
  lemma FoundInLowerCase(c: Command)
    ensures Find(Upper(Lower(c)), ALL) == Some(c)
  {
    hide Find, Text;
    TextChars(c);
    assert Upper(Lower(c)) == Ascii(Text(c));
    FindsRegistered(c);
  }
}
