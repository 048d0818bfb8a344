/** The commands (`src/commands`) on the slot of their key, and the replies they give. */
module Commands {
  import opened Bytes
  import opened Values
  import opened Protocol
  import ParserTheorems

  // ---------------------------------------------------------------- replies

  datatype Error = WrongArgs(command: Bytes) | WrongType | NotInteger | NotFloat | SaveFailed | Unknown(name: Bytes) | Empty

  datatype Reply = Ok | Pong | Err(error: Error) | Int(n: int) | Nil | Bulk(bytes: Bytes) | Array(items: seq<Bytes>)

  function ErrorText(e: Error): Bytes {
    match e
    case WrongArgs(c) => Ascii("-ERR wrong number of arguments for '") + c + Ascii("'")
    case WrongType => Ascii("-ERR WRONGTYPE") + Ascii(" Operation against a key holding the wrong kind of value")
    case NotInteger => Ascii("-ERR value is not an integer or out of range")
    case NotFloat => Ascii("-ERR value is not a valid float")
    case SaveFailed => Ascii("-ERR failed to save")
    case Unknown(name) => Ascii("-ERR unknown command '") + name + Ascii("'")
    case Empty => Ascii("-ERR empty command")
  }

  /** The RESP form of a reply. */
  function Render(r: Reply): Bytes {
    match r
    case Ok => Ascii("+OK") + CRLF
    case Pong => Ascii("+PONG") + CRLF
    case Err(e) => ErrorText(e) + CRLF
    case Int(n) => [58] + DecInt(n) + CRLF
    case Nil => Ascii("$-1") + CRLF
    case Bulk(b) => ParserTheorems.Bulk(b)
    case Array(items) => ParserTheorems.Encode(items)
  }

  // ---------------------------------------------------------------- expiry

  /** What is outside the model: `std::stod`, the printing of scores, and whether a save succeeds. */
  datatype Env = Env(stod: Bytes -> Option<Score>, showScore: Score -> Bytes, saves: bool)

  predicate Expired(slot: Slot, now: int) {
    slot.expiry.Some? && now > slot.expiry.value
  }

  /** `Shard::get`: an expired key is removed on access. */
  function Purge(slot: Slot, now: int): Slot {
    if Expired(slot, now) then EMPTY_SLOT else slot
  }

  /** `Shard::set`: clears any expiry. */
  function Fresh(value: Value): Slot {
    Slot(Some(value), None)
  }

  // ---------------------------------------------------------------- collections

  function ToSet(xs: seq<Bytes>): set<Bytes> {
    set x | x in xs
  }

  function Reverse(xs: seq<Bytes>): seq<Bytes> {
    if xs == [] then [] else Reverse(xs[1..]) + [xs[0]]
  }

  /** HSET's assignments, in order. */
  function SetFields(fields: map<Bytes, Bytes>, pairs: seq<Bytes>): map<Bytes, Bytes>
    decreases |pairs|
  {
    if |pairs| < 2 then fields else SetFields(fields[pairs[0] := pairs[1]], pairs[2..])
  }

  /** ZADD's assignments, in order, up to the first score that is not a number; `ok` if there is none.
      A member whose score compares equal is left alone. */
  function AddScores(env: Env, z: ZSet, pairs: seq<Bytes>): (ZSet, bool)
    decreases |pairs|
  {
    if |pairs| < 2 then (z, true)
    else
      match env.stod(pairs[0])
      case None => (z, false)
      case Some(score) =>
        var m := pairs[1];
        var y := if m in z.dict && Rank(z.dict[m]) == Rank(score) then z else ZInsert(z, ZEntry(score, m));
        AddScores(env, y, pairs[2..])
  }

  function RemoveMembers(z: ZSet, ms: seq<Bytes>): ZSet
    decreases |ms|
  {
    if ms == [] then z else RemoveMembers(ZErase(z, ms[0]), ms[1..])
  }

  /** LRANGE's and ZRANGE's index arithmetic; `None` is an empty range. */
  function Clamp(start: int, stop: int, size: nat): (r: Option<(nat, nat)>)
    ensures r.Some? ==> r.value.0 <= r.value.1 < size
  {
    var a := if start < 0 then size + start else start;
    var b := if stop < 0 then size + stop else stop;
    var lo := if a < 0 then 0 else a;
    var hi := if b < 0 then 0 else b;
    if lo >= size then None
    else
      var top := if hi >= size then size - 1 else hi;
      if lo > top then None else Some((lo, top))
  }

  function Slice(items: seq<Bytes>, start: int, stop: int): seq<Bytes> {
    match Clamp(start, stop, |items|)
    case None => []
    case Some((lo, hi)) => items[lo..hi + 1]
  }

  /** What ZRANGE lists of one entry. */
  function Listed(env: Env, e: ZEntry, withScores: bool): seq<Bytes> {
    if withScores then [e.member, env.showScore(e.score)] else [e.member]
  }

  function ListAll(env: Env, es: seq<ZEntry>, withScores: bool): seq<Bytes> {
    if es == [] then [] else ListAll(env, es[..|es| - 1], withScores) + Listed(env, es[|es| - 1], withScores)
  }

  function UpperByte(b: uint8): uint8 {
    if 97 <= b <= 122 then b - 32 else b
  }

  function Upper(s: Bytes): (r: Bytes)
    ensures |r| == |s|
  {
    seq(|s|, i requires 0 <= i < |s| => UpperByte(s[i]))
  }

  /** The fields and values of a hash, in field order. */
  ghost function Flat(fields: map<Bytes, Bytes>, order: seq<Bytes>): seq<Bytes>
    requires forall f :: f in order ==> f in fields
  {
    if order == [] then []
    else
      assert order[0] in order;
      [order[0], fields[order[0]]] + Flat(fields, order[1..])
  }

  // ---------------------------------------------------------------- commands by type

  datatype Command =
    | SET | GET | DEL | LPUSH | LPOP | LRANGE | RPUSH | RPOP | LLEN
    | SADD | SMEMBERS | SCARD | SREM | HSET | HGET | HGETALL | HDEL | HLEN
    | ZADD | ZRANGE | ZREM | ZCARD | ZSCORE | EXPIRE | TTL | SAVE

  const ALL: seq<Command> := [
    SET, GET, DEL, LPUSH, LPOP, LRANGE, RPUSH, RPOP, LLEN,
    SADD, SMEMBERS, SCARD, SREM, HSET, HGET, HGETALL, HDEL, HLEN,
    ZADD, ZRANGE, ZREM, ZCARD, ZSCORE, EXPIRE, TTL, SAVE]

  /** The name a command is registered under. */
  function Text(c: Command): string {
    match c
    case SET => "SET" case GET => "GET" case DEL => "DEL"
    case LPUSH => "LPUSH" case LPOP => "LPOP" case LRANGE => "LRANGE"
    case RPUSH => "RPUSH" case RPOP => "RPOP" case LLEN => "LLEN"
    case SADD => "SADD" case SMEMBERS => "SMEMBERS" case SCARD => "SCARD" case SREM => "SREM"
    case HSET => "HSET" case HGET => "HGET" case HGETALL => "HGETALL" case HDEL => "HDEL" case HLEN => "HLEN"
    case ZADD => "ZADD" case ZRANGE => "ZRANGE" case ZREM => "ZREM" case ZCARD => "ZCARD" case ZSCORE => "ZSCORE"
    case EXPIRE => "EXPIRE" case TTL => "TTL" case SAVE => "SAVE"
  }

  /** `CommandRegistry::get_command`. */
  function Find(name: Bytes, among: seq<Command>): (r: Option<Command>)
    ensures r.Some? ==> Ascii(Text(r.value)) == name
    ensures r.None? ==> forall c :: c in among ==> Ascii(Text(c)) != name
  {
    if among == [] then None
    else if Ascii(Text(among[0])) == name then Some(among[0])
    else Find(name, among[1..])
  }

  predicate ArityOk(c: Command, n: nat) {
    match c
    case SET => n == 3
    case GET => n == 2
    case DEL => n == 2
    case LPUSH => n >= 3
    case LPOP => n == 2
    case LRANGE => n == 4
    case RPUSH => n >= 3
    case RPOP => n == 2
    case LLEN => n == 2
    case SADD => n >= 3
    case SMEMBERS => n == 2
    case SCARD => n == 2
    case SREM => n >= 3
    case HSET => n >= 4 && n % 2 == 0
    case HGET => n == 3
    case HGETALL => n == 2
    case HDEL => n >= 3
    case HLEN => n == 2
    case ZADD => n >= 4 && n % 2 == 0
    case ZRANGE => n >= 4
    case ZREM => n >= 3
    case ZCARD => n == 2
    case ZSCORE => n == 3
    case EXPIRE => n == 3
    case TTL => n == 2
    case SAVE => true
  }

  function LowerByte(c: char): char {
    if 'A' <= c <= 'Z' then c + 32 as char else c
  }

  /** The command name as error messages spell it. */
  function Lower(c: Command): Bytes {
    Ascii(seq(|Text(c)|, i requires 0 <= i < |Text(c)| => LowerByte(Text(c)[i])))
  }

  /** What a command answers before it looks at its key. */
  function Early(env: Env, c: Command, args: seq<Bytes>): (r: Option<Reply>)
    ensures r == None ==> c != SAVE && ArityOk(c, |args|) && |args| >= 2
    ensures r == None && c == EXPIRE ==> Stol(args[2]).Some?
  {
    if c == SAVE then Some(if env.saves then Ok else Err(SaveFailed))
    else if !ArityOk(c, |args|) then Some(Err(WrongArgs(Lower(c))))
    else if c == EXPIRE && Stol(args[2]).None? then Some(Err(NotInteger))
    else None
  }

  predicate OnStrings(c: Command) {
    c in {SET, GET, DEL, EXPIRE, TTL}
  }

  /** What GET and TTL answer for a slot that has not expired. */
  function Report(c: Command, p: Slot, now: int): Reply {
    if p.value.None? then (if c == GET then Nil else Int(-2))
    else if c == GET then (if p.value.value.Str? then Bulk(p.value.value.str) else Err(WrongType))
    else if p.expiry.None? || p.expiry.value == -1 then Int(-1)
    else if p.expiry.value < now then Int(-2)
    else Int((p.expiry.value - now) / 1000)
  }

  function ApplyString(c: Command, args: seq<Bytes>, clock: Clock, slot: Slot): (Slot, Reply)
    requires OnStrings(c) && ArityOk(c, |args|)
    requires c == EXPIRE ==> Stol(args[2]).Some?
  {
    var p := Purge(slot, clock.first);
    if c == SET then (Fresh(Str(args[2])), Ok)
    else if c == DEL then (EMPTY_SLOT, Int(if slot.value.Some? then 1 else 0))
    else if c == EXPIRE then
      if p.value.None? then (p, Int(0))
      else (p.(expiry := Some(clock.second + Stol(args[2]).value * 1000)), Int(1))
    else (p, Report(c, p, clock.second))
  }

  function ApplyList(c: Command, args: seq<Bytes>, p: Slot): (Slot, Reply)
    requires c in {LPUSH, LPOP, LRANGE, RPUSH, RPOP, LLEN} && ArityOk(c, |args|)
  {
    if p.value.None? then
      if c == LPUSH then (Fresh(List(Reverse(args[2..]))), Int(|args| - 2))
      else if c == RPUSH then (Fresh(List(args[2..])), Int(|args| - 2))
      else if c == LLEN then (p, Int(0))
      else if c == LRANGE then (p, Array([]))
      else (p, Nil)
    else if p.value.value.List? then
      var items := p.value.value.items;
      if c == LPUSH then (p.(value := Some(List(Reverse(args[2..]) + items))), Int(|items| + |args| - 2))
      else if c == RPUSH then (p.(value := Some(List(items + args[2..]))), Int(|items| + |args| - 2))
      else if c == LLEN then (p, Int(|items|))
      else if c == LRANGE then (p,
        if Stoi(args[2]).None? || Stoi(args[3]).None? then Err(NotInteger)
        else Array(Slice(items, Stoi(args[2]).value, Stoi(args[3]).value)))
      else if items == [] then (p, Nil)
      else if c == LPOP then (p.(value := Some(List(items[1..]))), Bulk(items[0]))
      else (p.(value := Some(List(items[..|items| - 1]))), Bulk(items[|items| - 1]))
    else (p, Err(WrongType))
  }

  ghost function ApplySet(c: Command, args: seq<Bytes>, p: Slot): (Slot, Reply)
    requires c in {SADD, SMEMBERS, SCARD, SREM} && ArityOk(c, |args|)
  {
    if p.value.None? then
      if c == SADD then (Fresh(Set(ToSet(args[2..]))), Int(|ToSet(args[2..])|))
      else if c == SMEMBERS then (p, Array([]))
      else (p, Int(0))
    else if p.value.value.Set? then
      var ms := p.value.value.members;
      if c == SADD then (p.(value := Some(Set(ms + ToSet(args[2..])))), Int(|ms + ToSet(args[2..])| - |ms|))
      else if c == SREM then (p.(value := Some(Set(ms - ToSet(args[2..])))), Int(|ms| - |ms - ToSet(args[2..])|))
      else if c == SCARD then (p, Int(|ms|))
      else (p, Array(InOrder(ms)))
    else (p, Err(WrongType))
  }

  ghost function ApplyHash(c: Command, args: seq<Bytes>, p: Slot): (Slot, Reply)
    requires c in {HSET, HGET, HGETALL, HDEL, HLEN} && ArityOk(c, |args|)
  {
    if p.value.None? then
      if c == HSET then (Fresh(Hash(SetFields(map[], args[2..]))), Int(|SetFields(map[], args[2..])|))
      else if c == HGET then (p, Nil)
      else if c == HGETALL then (p, Array([]))
      else (p, Int(0))
    else if p.value.value.Hash? then
      var fs := p.value.value.fields;
      if c == HSET then (p.(value := Some(Hash(SetFields(fs, args[2..])))), Int(|SetFields(fs, args[2..])| - |fs|))
      else if c == HDEL then (p.(value := Some(Hash(fs - ToSet(args[2..])))), Int(|fs| - |fs - ToSet(args[2..])|))
      else if c == HLEN then (p, Int(|fs|))
      else if c == HGET then (p, if args[2] in fs then Bulk(fs[args[2]]) else Nil)
      else (p, Array(Flat(fs, InOrder(fs.Keys))))
    else (p, Err(WrongType))
  }

  function ApplySorted(env: Env, c: Command, args: seq<Bytes>, p: Slot): (Slot, Reply)
    requires c in {ZADD, ZRANGE, ZREM, ZCARD, ZSCORE} && ArityOk(c, |args|)
  {
    if p.value.None? then
      if c == ZADD then
        var (z, ok) := AddScores(env, EMPTY_ZSET, args[2..]);
        (Fresh(Sorted(z)), if ok then Int(|z.dict|) else Err(NotFloat))
      else if c == ZRANGE then (p, Array([]))
      else if c == ZSCORE then (p, Nil)
      else (p, Int(0))
    else if p.value.value.Sorted? then
      var z := p.value.value.zset;
      if c == ZADD then
        var (y, ok) := AddScores(env, z, args[2..]);
        (p.(value := Some(Sorted(y))), if ok then Int(|y.dict| - |z.dict|) else Err(NotFloat))
      else if c == ZREM then
        var y := RemoveMembers(z, args[2..]);
        (p.(value := Some(Sorted(y))), Int(|z.dict| - |y.dict|))
      else if c == ZCARD then (p, Int(|z.tree|))
      else if c == ZSCORE then (p, if args[2] in z.dict then Bulk(env.showScore(z.dict[args[2]])) else Nil)
      else (p,
        if Stoi(args[2]).None? || Stoi(args[3]).None? then Err(NotInteger)
        else Array(Range(env, z, Stoi(args[2]).value, Stoi(args[3]).value,
                         |args| > 4 && Upper(args[4]) == Ascii("WITHSCORES"))))
    else (p, Err(WrongType))
  }

  function Range(env: Env, z: ZSet, start: int, stop: int, withScores: bool): seq<Bytes> {
    match Clamp(start, stop, |z.tree|)
    case None => []
    case Some((lo, hi)) => ListAll(env, z.tree[lo..hi + 1], withScores)
  }

  /** A collection command on a slot that has not expired. */
  ghost function ApplyTyped(env: Env, c: Command, args: seq<Bytes>, p: Slot): (Slot, Reply)
    requires !OnStrings(c) && Early(env, c, args) == None
  {
    if c in {LPUSH, LPOP, LRANGE, RPUSH, RPOP, LLEN} then ApplyList(c, args, p)
    else if c in {SADD, SMEMBERS, SCARD, SREM} then ApplySet(c, args, p)
    else if c in {HSET, HGET, HGETALL, HDEL, HLEN} then ApplyHash(c, args, p)
    else ApplySorted(env, c, args, p)
  }

  /** A command on the slot of its key: the new slot and the reply. */
  ghost function Apply(env: Env, c: Command, args: seq<Bytes>, clock: Clock, slot: Slot): (Slot, Reply)
    requires Early(env, c, args) == None
  {
    if OnStrings(c) then ApplyString(c, args, clock, slot)
    else ApplyTyped(env, c, args, Purge(slot, clock.first))
  }
}
