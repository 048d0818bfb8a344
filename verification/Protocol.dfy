/** The inter-core request protocol (`src/main.cpp`, `src/core/itc_channel.hpp`,
    `src/core/topology.hpp`, `src/core/io_context.cpp`, and the local/forward split of the commands)
    as a transition system.

    One action is one step of one core's thread, or of the kernel. A mutex section is one step; the
    push to a channel and the notification that follows it are separate steps. `issued`, `log` and
    `done` are histories: they record the run and no step reads them. */
module Protocol {
  import opened Bytes
  import opened Values

  type Db = map<Bytes, Slot>

  function At(db: Db, key: Bytes): Slot {
    if key in db then db[key] else EMPTY_SLOT
  }

  /** The two clock readings a command may take. */
  datatype Clock = Clock(first: int, second: int)

  /** What the protocol is run with: the router and the command registry.
      - `early` is the reply a command gives before it looks at its key (arity, argument parsing);
      - `apply` is the command on its key's slot;
      - `fallback` is a connection's reply to a name that is not registered, `unknown` the reply of
        the inter-core handler. */
  datatype Service = Service(
    cores: nat,
    owner: Bytes -> nat,
    upper: Bytes -> Bytes,
    registered: Bytes -> bool,
    early: (Bytes, seq<Bytes>) -> Option<Bytes>,
    apply: (Bytes, seq<Bytes>, Clock, Slot) -> (Slot, Bytes),
    fallback: Bytes -> Bytes,
    unknown: Bytes -> Bytes,
    empty: Bytes)

  ghost predicate ServiceOk(sv: Service) {
    && sv.cores > 0
    && (forall k :: sv.owner(k) < sv.cores)
    && (forall name, args :: sv.early(name, args) == None ==> |args| >= 2)
    && (forall name, args :: sv.early(name, args) != Some([]))
    && (forall name, args, clock, slot :: sv.apply(name, args, clock, slot).1 != [])
    && (forall name :: sv.unknown(name) != [])
  }

  // ---------------------------------------------------------------- state

  /** `tag` numbers the command the message belongs to. */
  datatype Message =
    | Request(tag: nat, origin: nat, conn: nat, args: seq<Bytes>)
    | Response(tag: nat, origin: nat, conn: nat, payload: Bytes)

  datatype Pc =
    | Boot                                                        // before the notify fd is stored
    | Registered                                                  // stored, not yet counted
    | Barrier                                                     // in wait_for_all_cores
    | Idle                                                        // in the event loop
    | Woken                                                       // in the handler, before the swap
    | Batch(rest: seq<Message>)                                   // between two messages of a batch
    | Pushing(to: nat, msg: Message, rest: seq<Message>, inBatch: bool)
    | Notifying(to: nat, rest: seq<Message>, inBatch: bool)       // pushed, event not yet written

  /** The pending read of the core's event counter. */
  datatype Read = Absent | Submitted | Completed

  datatype Core = Core(
    pc: Pc,
    fd: bool,
    events: nat,
    read: Read,
    inbox: seq<Message>,
    conns: set<nat>,
    shard: Db)

  datatype Issue = Issue(core: nat, conn: nat, args: seq<Bytes>, dest: nat)

  /** An execution of command `tag`; `remote` when the inter-core handler ran it. */
  datatype Exec = Exec(tag: nat, origin: nat, conn: nat, core: nat, args: seq<Bytes>, remote: bool, clock: Clock, reply: Bytes)

  /** A reply handed to `submit_write`, or dropped because the connection is gone. */
  datatype Done = Done(tag: nat, core: nat, from: nat, conn: nat, payload: Bytes, delivered: bool)

  datatype Sys = Sys(
    cores: seq<Core>,
    registered: nat,
    nextConn: nat,
    createdOn: map<nat, nat>,
    issued: seq<Issue>,
    log: seq<Exec>,
    done: seq<Done>)

  // ---------------------------------------------------------------- commands

  datatype Decision = Answer(payload: Bytes) | Keyed(name: Bytes, key: Bytes)

  /** How a command is dispatched: a connection looks up the upper-cased name, the inter-core
      handler the name as it was sent. */
  ghost function Decide(sv: Service, remote: bool, args: seq<Bytes>): (d: Decision)
    requires ServiceOk(sv)
    ensures d.Keyed? ==> |args| >= 2 && d.key == args[1]
  {
    if args == [] then Answer(sv.empty)
    else
      var name := if remote then args[0] else sv.upper(args[0]);
      if !sv.registered(name) then Answer(if remote then sv.unknown(name) else sv.fallback(name))
      else
        match sv.early(name, args)
        case Some(reply) => Answer(reply)
        case None => Keyed(name, args[1])
  }

  /** The command on a single map: the specification. */
  ghost function Serve(sv: Service, db: Db, remote: bool, args: seq<Bytes>, clock: Clock): (Db, Bytes)
    requires ServiceOk(sv)
  {
    match Decide(sv, remote, args)
    case Answer(payload) => (db, payload)
    case Keyed(name, key) =>
      var (slot, reply) := sv.apply(name, args, clock, At(db, key));
      (db[key := slot], reply)
  }

  // ---------------------------------------------------------------- actions

  datatype Action =
    | SetFd(core: nat)
    | CountIn(core: nat)
    | PassBarrier(core: nat)
    | Connect(core: nat)
    | Disconnect(core: nat, conn: nat)
    | Receive(core: nat, conn: nat, args: seq<Bytes>, clock: Clock)
    | Push(core: nat)
    | Notify(core: nat)
    | ReadEvent(core: nat)
    | Wake(core: nat)
    | Swap(core: nat)
    | Handle(core: nat, clock: Clock)
    | Finish(core: nat)

  /** A read may also complete with no event pending: the fd is non-blocking, and the handler runs
      on an error completion too. */
  ghost predicate Enabled(s: Sys, a: Action) {
    a.core < |s.cores| &&
    var me := s.cores[a.core];
    match a
    case SetFd(_) => me.pc == Boot
    case CountIn(_) => me.pc == Registered
    case PassBarrier(_) => me.pc == Barrier && s.registered >= |s.cores|
    case Connect(_) => me.pc == Idle
    case Disconnect(_, conn) => me.pc == Idle && conn in me.conns
    case Receive(_, conn, _, _) => me.pc == Idle && conn in me.conns
    case Push(_) => me.pc.Pushing? && me.pc.to < |s.cores|
    case Notify(_) => me.pc.Notifying? && me.pc.to < |s.cores|
    case ReadEvent(_) => me.read == Submitted
    case Wake(_) => me.pc == Idle && me.read == Completed
    case Swap(_) => me.pc == Woken
    case Handle(_, _) => me.pc.Batch? && me.pc.rest != []
    case Finish(_) => me.pc == Batch([])
  }

  function Resume(rest: seq<Message>, inBatch: bool): Pc {
    if inBatch then Batch(rest) else Idle
  }

  ghost function WithCore(s: Sys, c: nat, core: Core): Sys
    requires c < |s.cores|
  {
    s.(cores := s.cores[c := core])
  }

  /** A command answered where it arrived. */
  ghost function AnsweredHere(s: Sys, c: nat, conn: nat, args: seq<Bytes>, clock: Clock, shard: Db, reply: Bytes): Sys
    requires c < |s.cores|
  {
    WithCore(s, c, s.cores[c].(shard := shard)).(
      issued := s.issued + [Issue(c, conn, args, c)],
      log := s.log + [Exec(|s.issued|, c, conn, c, args, false, clock, reply)],
      done := s.done + [Done(|s.issued|, c, c, conn, reply, true)])
  }

  /** A command on its way to its owner. */
  ghost function Forwarded(s: Sys, c: nat, conn: nat, args: seq<Bytes>, to: nat): Sys
    requires c < |s.cores|
  {
    WithCore(s, c, s.cores[c].(pc := Pushing(to, Request(|s.issued|, c, conn, args), [], false)))
      .(issued := s.issued + [Issue(c, conn, args, to)])
  }

  /** A command read from a connection: answered here, or forwarded to its owner. */
  ghost function Received(sv: Service, s: Sys, c: nat, conn: nat, args: seq<Bytes>, clock: Clock): Sys
    requires ServiceOk(sv) && c < |s.cores|
  {
    var d := Decide(sv, false, args);
    if d.Keyed? && sv.owner(d.key) != c then Forwarded(s, c, conn, args, sv.owner(d.key))
    else
      var (shard, reply) := Serve(sv, s.cores[c].shard, false, args, clock);
      AnsweredHere(s, c, conn, args, clock, shard, reply)
  }

  /** A push: the message goes to the end of the target's inbox. */
  ghost function Pushed(s: Sys, c: nat): Sys
    requires c < |s.cores| && s.cores[c].pc.Pushing? && s.cores[c].pc.to < |s.cores|
  {
    var me := s.cores[c];
    var t := WithCore(s, c, me.(pc := Notifying(me.pc.to, me.pc.rest, me.pc.inBatch)));
    WithCore(t, me.pc.to, t.cores[me.pc.to].(inbox := t.cores[me.pc.to].inbox + [me.pc.msg]))
  }

  /** The batch swap: the whole inbox becomes the batch. */
  ghost function Swapped(s: Sys, c: nat): Sys
    requires c < |s.cores|
  {
    WithCore(s, c, s.cores[c].(pc := Batch(s.cores[c].inbox), inbox := []))
  }

  /** The first message of a batch, a request, run here; its reply is to be pushed if it is not empty. */
  ghost function Executing(s: Sys, c: nat, clock: Clock, shard: Db, reply: Bytes): Sys
    requires c < |s.cores| && s.cores[c].pc.Batch? && s.cores[c].pc.rest != [] && s.cores[c].pc.rest[0].Request?
  {
    var me := s.cores[c];
    var m, rest := me.pc.rest[0], me.pc.rest[1..];
    var next := if reply == [] then Batch(rest) else Pushing(m.origin, Response(m.tag, c, m.conn, reply), rest, true);
    WithCore(s, c, me.(pc := next, shard := shard)).(
      log := s.log + [Exec(m.tag, m.origin, m.conn, c, m.args, true, clock, reply)])
  }

  /** The first message of a batch, a response, handed to its connection if that is still there. */
  ghost function Delivering(s: Sys, c: nat): Sys
    requires c < |s.cores| && s.cores[c].pc.Batch? && s.cores[c].pc.rest != [] && s.cores[c].pc.rest[0].Response?
  {
    var me := s.cores[c];
    var m, rest := me.pc.rest[0], me.pc.rest[1..];
    WithCore(s, c, me.(pc := Batch(rest))).(
      done := s.done + [Done(m.tag, c, m.origin, m.conn, m.payload, m.conn in me.conns)])
  }

  /** The handler on the first message of its batch. A keyed request that is not this core's would be
      forwarded again and leave no reply; `NeverForwardedAgain` shows it does not happen. */
  ghost function Handled(sv: Service, s: Sys, c: nat, clock: Clock): Sys
    requires ServiceOk(sv) && c < |s.cores| && s.cores[c].pc.Batch? && s.cores[c].pc.rest != []
  {
    var me := s.cores[c];
    var m, rest := me.pc.rest[0], me.pc.rest[1..];
    if m.Response? then Delivering(s, c)
    else
      var d := Decide(sv, true, m.args);
      if d.Keyed? && sv.owner(d.key) != c then
        WithCore(s, c, me.(pc := Pushing(sv.owner(d.key), Request(m.tag, c, m.conn, m.args), rest, true)))
      else
        var (shard, reply) := Serve(sv, me.shard, true, m.args, clock);
        Executing(s, c, clock, shard, reply)
  }

  ghost function Next(sv: Service, s: Sys, a: Action): Sys
    requires ServiceOk(sv) && Enabled(s, a)
  {
    var c := a.core;
    var me := s.cores[c];
    match a
    case SetFd(_) => WithCore(s, c, me.(pc := Registered, fd := true))
    case CountIn(_) => WithCore(s, c, me.(pc := Barrier)).(registered := s.registered + 1)
    case PassBarrier(_) => WithCore(s, c, me.(pc := Idle, read := Submitted))
    case Connect(_) =>
      WithCore(s, c, me.(conns := me.conns + {s.nextConn})).(
        nextConn := s.nextConn + 1, createdOn := s.createdOn[s.nextConn := c])
    case Disconnect(_, conn) => WithCore(s, c, me.(conns := me.conns - {conn}))
    case Receive(_, conn, args, clock) => Received(sv, s, c, conn, args, clock)
    case Push(_) => Pushed(s, c)
    case Notify(_) =>
      var t := WithCore(s, c, me.(pc := Resume(me.pc.rest, me.pc.inBatch)));
      var peer := t.cores[me.pc.to];
      if peer.fd then WithCore(t, me.pc.to, peer.(events := peer.events + 1)) else t
    case ReadEvent(_) => WithCore(s, c, me.(read := Completed, events := 0))
    case Wake(_) => WithCore(s, c, me.(pc := Woken, read := Absent))
    case Swap(_) => Swapped(s, c)
    case Handle(_, clock) => Handled(sv, s, c, clock)
    case Finish(_) => WithCore(s, c, me.(pc := Idle, read := Submitted))
  }

  // ---------------------------------------------------------------- runs

  /** Start-up, after the snapshot was loaded: `db` is the database as one map. */
  ghost predicate Init(sv: Service, db: Db, s: Sys) {
    && |s.cores| == sv.cores
    && (forall c :: 0 <= c < |s.cores| ==>
          s.cores[c] == Core(Boot, false, 0, Absent, [], {}, s.cores[c].shard))
    && (forall c, k :: 0 <= c < |s.cores| && k in s.cores[c].shard ==> sv.owner(k) == c)
    && (forall k :: sv.owner(k) < |s.cores| ==> At(s.cores[sv.owner(k)].shard, k) == At(db, k))
    && s.registered == 0 && s.nextConn == 1 && s.createdOn == map[]
    && s.issued == [] && s.log == [] && s.done == []
  }

  /** `states` is what the actions, in this order, go through. */
  ghost predicate IsRun(sv: Service, states: seq<Sys>, actions: seq<Action>)
    requires ServiceOk(sv)
  {
    && |states| == |actions| + 1
    && forall i :: 0 <= i < |actions| ==>
         Enabled(states[i], actions[i]) && states[i + 1] == Next(sv, states[i], actions[i])
  }
}
