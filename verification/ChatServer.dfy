/** The threads of the chat server (A5/server.c): an acceptor and one handler per client, every
    loop iteration of a critical section being a step of its own. */
module ChatServer {
  import opened ClientTable

  /** The three functions that take the mutex. */
  datatype Op = AddOp(client: Client) | RemoveOp(cid: int) | SendOp(cid: int, text: string)

  /** What a finished critical section amounts to; reach is the number of slots a broadcast got
      through before a write failed (all of them if none did). */
  datatype Event = AddedEvent(client: Client) | RemovedEvent(cid: int) | SentEvent(cid: int, text: string, reach: nat)

  datatype Thread = Acceptor | Handler(client: Client)

  /** Where a thread is. A critical section goes through Locking, Scanning and Unlocking, and then
      continues at `ret`. */
  datatype Loc =
    | Accepting
    | Spawning(client: Client)
    | Greeting
    | Serving(name: string, leave: bool)
    | Closing
    | Freeing
    | Finished
    | Locking(op: Op, ret: Loc)
    | Scanning(op: Op, i: nat, ret: Loc)
    | Unlocking(event: Event, ret: Loc)

  datatype Lock = Unlocked | HeldBy(thread: Thread)

  datatype State = State(
    slots: seq<Slot>,
    out: Output,
    lock: Lock,
    locs: map<Thread, Loc>,
    created: set<Client>,
    freed: set<Client>,
    nextId: nat,
    fault: bool,           // a freed record was dereferenced
    history: seq<Event>)   // the finished critical sections, in the order of the unlocks

  const EMPTY: seq<Slot> := [Null, Null, Null, Null, Null]

  const INITIAL := State(EMPTY, map[], Unlocked, map[Acceptor := Accepting], {}, {}, 0, false, [])

  /** Outcomes of the receive in the handler's loop; the data is a C string and may be empty. */
  datatype Input = Data(buff: string) | Eof | Error

  datatype Action =
    | Accept(cid: int)
    | Spawn
    | Hello(client: Client, name: string)
    | Receive(client: Client, input: Input)
    | Leave(client: Client)
    | CallRemove(client: Client)
    | Free(client: Client)
    | TakeLock(thread: Thread)
    | Scan(thread: Thread, writeOk: bool)
    | Release(thread: Thread)

  predicate Enabled(s: State, a: Action) {
    match a
    case Accept(_) => Acceptor in s.locs && s.locs[Acceptor].Accepting?
    case Spawn => Acceptor in s.locs && s.locs[Acceptor].Spawning?
    case Hello(c, _) => Handler(c) in s.locs && s.locs[Handler(c)].Greeting?
    case Receive(c, _) => Handler(c) in s.locs && s.locs[Handler(c)].Serving? && !s.locs[Handler(c)].leave
    case Leave(c) => Handler(c) in s.locs && s.locs[Handler(c)].Serving? && s.locs[Handler(c)].leave
    case CallRemove(c) => Handler(c) in s.locs && s.locs[Handler(c)].Closing?
    case Free(c) => Handler(c) in s.locs && s.locs[Handler(c)].Freeing?
    case TakeLock(t) => t in s.locs && s.locs[t].Locking? && s.lock.Unlocked?
    case Scan(t, _) => t in s.locs && s.locs[t].Scanning?
    case Release(t) => t in s.locs && s.locs[t].Unlocking?
  }

  function Goto(s: State, t: Thread, l: Loc): State {
    s.(locs := s.locs[t := l])
  }

  /** The handler's reaction to a receive (lines 151-186). */
  function AfterReceive(c: Client, name: string, input: Input): Loc {
    match input
    case Data(buff) =>
      if buff != "" then Locking(SendOp(c.cid, buff), Serving(name, false)) else Serving(name, false)
    case Eof => Locking(SendOp(c.cid, name + " has left"), Serving(name, true))
    case Error => Serving(name, true)
  }

  /** The event of a critical section whose loop has run to the end of the table. */
  function Completed(op: Op): Event {
    match op
    case AddOp(c) => AddedEvent(c)
    case RemoveOp(cid) => RemovedEvent(cid)
    case SendOp(cid, text) => SentEvent(cid, text, MAX_CONNECTIONS)
  }

  /** One iteration of the loop of `add_client` at slot i. */
  function ScannedAdd(s: State, t: Thread, c: Client, i: nat, ret: Loc): State
    requires i < |s.slots|
  {
    if s.slots[i].Null?
    then Goto(s, t, Unlocking(AddedEvent(c), ret)).(slots := s.slots[i := Ptr(c)])
    else Goto(s, t, Scanning(AddOp(c), i + 1, ret))
  }

  /** The record in slot i is dereferenced. */
  predicate Faults(s: State, i: nat)
    requires i < |s.slots|
  {
    s.fault || (s.slots[i].Ptr? && s.slots[i].client in s.freed)
  }

  /** One iteration of the loop of `remove_client`. */
  function ScannedRemove(s: State, t: Thread, cid: int, i: nat, ret: Loc): State
    requires i < |s.slots|
  {
    if Holds(s.slots[i], cid)
    then Goto(s, t, Unlocking(RemovedEvent(cid), ret)).(slots := s.slots[i := Null], fault := Faults(s, i))
    else Goto(s, t, Scanning(RemoveOp(cid), i + 1, ret)).(fault := Faults(s, i))
  }

  /** One iteration of the loop of `send_msg`, whose write may fail. */
  function ScannedSend(s: State, t: Thread, cid: int, text: string, i: nat, ret: Loc, writeOk: bool): State
    requires i < |s.slots|
  {
    var next := Goto(s, t, Scanning(SendOp(cid, text), i + 1, ret)).(fault := Faults(s, i));
    if !Receives(s.slots[i], cid) then next
    else if writeOk
    then next.(out := s.out[s.slots[i].client := Log(s.out, s.slots[i].client) + [text]])
    else Goto(s, t, Unlocking(SentEvent(cid, text, i), ret)).(fault := Faults(s, i))
  }

  function Scanned(s: State, t: Thread, op: Op, i: nat, ret: Loc, writeOk: bool): State {
    if i >= |s.slots| then Goto(s, t, Unlocking(Completed(op), ret))
    else match op
         case AddOp(c) => ScannedAdd(s, t, c, i, ret)
         case RemoveOp(cid) => ScannedRemove(s, t, cid, i, ret)
         case SendOp(cid, text) => ScannedSend(s, t, cid, text, i, ret, writeOk)
  }

  function Step(s: State, a: Action): State
    requires Enabled(s, a)
  {
    match a
    case Accept(cid) =>
      var c := Client(s.nextId, cid);
      Goto(s, Acceptor, Locking(AddOp(c), Spawning(c))).(created := s.created + {c}, nextId := s.nextId + 1)
    case Spawn =>
      var c := s.locs[Acceptor].client;
      Goto(Goto(s, Acceptor, Accepting), Handler(c), Greeting)
    case Hello(c, name) =>
      Goto(s, Handler(c), Locking(SendOp(c.cid, name + " has joined\n"), Serving(name, false)))
    case Receive(c, input) => Goto(s, Handler(c), AfterReceive(c, s.locs[Handler(c)].name, input))
    case Leave(c) => Goto(s, Handler(c), Closing)
    case CallRemove(c) => Goto(s, Handler(c), Locking(RemoveOp(c.cid), Freeing))
    case Free(c) => Goto(s, Handler(c), Finished).(freed := s.freed + {c})
    case TakeLock(t) => Goto(s, t, Scanning(s.locs[t].op, 0, s.locs[t].ret)).(lock := HeldBy(t))
    case Scan(t, writeOk) => Scanned(s, t, s.locs[t].op, s.locs[t].i, s.locs[t].ret, writeOk)
    case Release(t) => Goto(s, t, s.locs[t].ret).(lock := Unlocked, history := s.history + [s.locs[t].event])
  }

  /** The event that a critical section for op may end with. */
  predicate EndsAs(op: Op, e: Event) {
    match op
    case AddOp(c) => e == AddedEvent(c)
    case RemoveOp(cid) => e == RemovedEvent(cid)
    case SendOp(cid, text) => e.SentEvent? && e.cid == cid && e.text == text
  }

  /** A scan step moves its own thread only, within its critical section. */
  ghost predicate ScanMoves(s: State, t: Thread, op: Op, i: nat, ret: Loc, s': State) {
    && t in s'.locs && s'.locs == s.locs[t := s'.locs[t]]
    && (s'.locs[t] == Scanning(op, i + 1, ret) ||
        (s'.locs[t].Unlocking? && s'.locs[t].ret == ret && EndsAs(op, s'.locs[t].event)))
    && s'.created == s.created && s'.freed == s.freed && s'.nextId == s.nextId
    && s'.lock == s.lock && s'.history == s.history
  }

  lemma AddFrame(s: State, t: Thread, c: Client, i: nat, ret: Loc)
    requires i < |s.slots|
    ensures ScanMoves(s, t, AddOp(c), i, ret, ScannedAdd(s, t, c, i, ret))
  {
  }

  lemma RemoveFrame(s: State, t: Thread, cid: int, i: nat, ret: Loc)
    requires i < |s.slots|
    ensures ScanMoves(s, t, RemoveOp(cid), i, ret, ScannedRemove(s, t, cid, i, ret))
  {
  }

  lemma SendFrame(s: State, t: Thread, cid: int, text: string, i: nat, ret: Loc, ok: bool)
    requires i < |s.slots|
    ensures ScanMoves(s, t, SendOp(cid, text), i, ret, ScannedSend(s, t, cid, text, i, ret, ok))
  {
  }

  lemma ScanFrame(s: State, t: Thread, ok: bool)
    requires Enabled(s, Scan(t, ok))
    ensures ScanMoves(s, t, s.locs[t].op, s.locs[t].i, s.locs[t].ret, Step(s, Scan(t, ok)))
  {
    var i, ret := s.locs[t].i, s.locs[t].ret;
    if i < |s.slots| {
      match s.locs[t].op
      case AddOp(c) => AddFrame(s, t, c, i, ret);
      case RemoveOp(cid) => RemoveFrame(s, t, cid, i, ret);
      case SendOp(cid, text) => SendFrame(s, t, cid, text, i, ret, ok);
    }
  }

  /** s' is reached from s by the given interleaving. */
  ghost predicate IsRun(s: State, actions: seq<Action>, s': State)
    decreases actions
  {
    if actions == [] then s == s'
    else Enabled(s, actions[0]) && IsRun(Step(s, actions[0]), actions[1..], s')
  }

  lemma {:induction false} RunThenRun(s: State, a: seq<Action>, m: State, b: seq<Action>, s': State)
    requires IsRun(s, a, m) && IsRun(m, b, s')
    ensures IsRun(s, a + b, s')
    decreases a
  {
    if a == [] {
      assert a + b == b;
    } else {
      assert (a + b)[1..] == a[1..] + b;
      RunThenRun(Step(s, a[0]), a[1..], m, b, s');
    }
  }

  // ---------- the atomic server that the threads are to simulate ----------

  datatype Room = Room(slots: seq<Slot>, out: Output)

  function Effect(r: Room, e: Event): Room {
    match e
    case AddedEvent(c) => r.(slots := Added(r.slots, c))
    case RemovedEvent(cid) => r.(slots := Removed(r.slots, cid))
    case SentEvent(cid, text, reach) =>
      r.(out := Broadcast(if reach <= |r.slots| then r.slots[..reach] else r.slots, cid, text, r.out))
  }

  function Replay(h: seq<Event>): (r: Room)
    ensures |r.slots| == MAX_CONNECTIONS
  {
    if h == [] then Room(EMPTY, map[]) else Effect(Replay(h[..|h| - 1]), h[|h| - 1])
  }
}
