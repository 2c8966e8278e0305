/** Who runs what in the chat server: every record is added once, by the acceptor, before its
    handler exists, and handlers act under their own client's cid. */
module ChatIdentity {
  import opened ClientTable
  import opened ChatServer

  /** Locations of the acceptor, while it handles client c or none. */
  predicate AcceptorLoc(l: Loc) {
    || l.Accepting?
    || l.Spawning?
    || ((l.Locking? || l.Scanning?) && l.op.AddOp? && l.ret == Spawning(l.op.client))
    || (l.Unlocking? && l.event.AddedEvent? && l.ret == Spawning(l.event.client))
  }

  predicate HasPending(l: Loc) {
    AcceptorLoc(l) && !l.Accepting?
  }

  /** The client that the acceptor has accepted and not yet given a handler. */
  function Pending(l: Loc): Client
    requires HasPending(l)
  {
    if l.Spawning? then l.client else if l.Unlocking? then l.event.client else l.op.client
  }

  predicate HandlerOp(c: Client, op: Op, ret: Loc) {
    match op
    case AddOp(_) => false
    case RemoveOp(cid) => cid == c.cid && ret == Freeing
    case SendOp(cid, _) => cid == c.cid && ret.Serving?
  }

  predicate HandlerEvent(c: Client, e: Event, ret: Loc) {
    match e
    case AddedEvent(_) => false
    case RemovedEvent(cid) => cid == c.cid && ret == Freeing
    case SentEvent(cid, _, _) => cid == c.cid && ret.Serving?
  }

  predicate HandlerLoc(c: Client, l: Loc) {
    match l
    case Locking(op, ret) => HandlerOp(c, op, ret)
    case Scanning(op, _, ret) => HandlerOp(c, op, ret)
    case Unlocking(e, ret) => HandlerEvent(c, e, ret)
    case Accepting => false
    case Spawning(_) => false
    case _ => true
  }

  ghost predicate Identity(s: State) {
    && Acceptor in s.locs && AcceptorLoc(s.locs[Acceptor])
    && (HasPending(s.locs[Acceptor]) ==>
          Pending(s.locs[Acceptor]) in s.created && Handler(Pending(s.locs[Acceptor])) !in s.locs)
    && (forall c :: Handler(c) in s.locs ==> c in s.created && HandlerLoc(c, s.locs[Handler(c)]))
    && (forall c :: c in s.created ==> c.id < s.nextId)
    && (forall c :: c in s.freed <==> Handler(c) in s.locs && s.locs[Handler(c)].Finished?)
  }

  /** The records in the table. */
  ghost predicate TableIdentity(s: State)
    requires Identity(s)
  {
    && Injective(s.slots)
    && (forall c :: Ptr(c) in s.slots ==> c in s.created)
    && (s.locs[Acceptor].Locking? || s.locs[Acceptor].Scanning? ==> Ptr(Pending(s.locs[Acceptor])) !in s.slots)
  }

  lemma HandlerStep(s: State, c: Client, l: Loc, s': State)
    requires Identity(s) && Handler(c) in s.locs && HandlerLoc(c, l)
    requires s'.locs == s.locs[Handler(c) := l] && s'.created == s.created && s'.nextId == s.nextId
    requires s'.freed == if l.Finished? then s.freed + {c} else s.freed
    requires !s.locs[Handler(c)].Finished?
    ensures Identity(s')
  {
    forall d ensures d in s'.freed <==> Handler(d) in s'.locs && s'.locs[Handler(d)].Finished? {
      assert d in s.freed <==> Handler(d) in s.locs && s.locs[Handler(d)].Finished?;
    }
  }

  lemma AcceptorStep(s: State, l: Loc, s': State)
    requires Identity(s) && AcceptorLoc(l)
    requires HasPending(l) ==> HasPending(s.locs[Acceptor]) && Pending(l) == Pending(s.locs[Acceptor])
    requires s'.locs == s.locs[Acceptor := l] && s'.created == s.created && s'.nextId == s.nextId && s'.freed == s.freed
    ensures Identity(s')
  {
  }

  lemma AcceptStep(s: State, cid: int)
    requires Identity(s) && Enabled(s, Accept(cid))
    ensures Identity(Step(s, Accept(cid)))
  {
    var c := Client(s.nextId, cid);
    assert c !in s.created;
  }

  lemma SpawnStep(s: State)
    requires Identity(s) && Enabled(s, Spawn)
    ensures Identity(Step(s, Spawn))
  {
  }

  lemma ThreadStep(s: State, t: Thread, l: Loc, s': State)
    requires Identity(s) && t in s.locs
    requires match t
             case Acceptor =>
               AcceptorLoc(l) && (HasPending(l) ==> HasPending(s.locs[t]) && Pending(l) == Pending(s.locs[t]))
             case Handler(c) => HandlerLoc(c, l) && !l.Finished? && !s.locs[t].Finished?
    requires s'.locs == s.locs[t := l] && s'.created == s.created && s'.nextId == s.nextId && s'.freed == s.freed
    ensures Identity(s')
  {
    match t
    case Acceptor => AcceptorStep(s, l, s');
    case Handler(c) => HandlerStep(s, c, l, s');
  }

  lemma TakeLockIdentity(s: State, t: Thread)
    requires Identity(s) && Enabled(s, TakeLock(t))
    ensures Identity(Step(s, TakeLock(t)))
  {
    ThreadStep(s, t, Step(s, TakeLock(t)).locs[t], Step(s, TakeLock(t)));
  }

  lemma ScanMoveIdentity(s: State, t: Thread, s': State)
    requires Identity(s) && t in s.locs && s.locs[t].Scanning?
    requires ScanMoves(s, t, s.locs[t].op, s.locs[t].i, s.locs[t].ret, s')
    ensures Identity(s')
  {
    ThreadStep(s, t, s'.locs[t], s');
  }

  lemma ScanIdentity(s: State, t: Thread, writeOk: bool)
    requires Identity(s) && Enabled(s, Scan(t, writeOk))
    ensures Identity(Step(s, Scan(t, writeOk)))
  {
    ScanFrame(s, t, writeOk);
    ScanMoveIdentity(s, t, Step(s, Scan(t, writeOk)));
  }

  lemma ReleaseIdentity(s: State, t: Thread)
    requires Identity(s) && Enabled(s, Release(t))
    ensures Identity(Step(s, Release(t)))
  {
    ThreadStep(s, t, s.locs[t].ret, Step(s, Release(t)));
  }

  predicate ByHandler(a: Action) {
    a.Hello? || a.Receive? || a.Leave? || a.CallRemove? || a.Free?
  }

  lemma HandlerActionIdentity(s: State, a: Action)
    requires Identity(s) && Enabled(s, a) && ByHandler(a)
    ensures Identity(Step(s, a))
  {
    HandlerStep(s, a.client, Step(s, a).locs[Handler(a.client)], Step(s, a));
  }

  lemma StepKeepsIdentity(s: State, a: Action)
    requires Identity(s) && Enabled(s, a)
    ensures Identity(Step(s, a))
  {
    match a
    case Accept(cid) => AcceptStep(s, cid);
    case Spawn => SpawnStep(s);
    case TakeLock(t) => TakeLockIdentity(s, t);
    case Scan(t, writeOk) => ScanIdentity(s, t, writeOk);
    case Release(t) => ReleaseIdentity(s, t);
    case _ => HandlerActionIdentity(s, a);
  }

  // ---------- the table's part ----------

  lemma InjectiveUpdate(slots: seq<Slot>, i: nat, slot: Slot)
    requires Injective(slots) && i < |slots| && (slot.Ptr? ==> slot !in slots)
    ensures Injective(slots[i := slot])
    ensures forall c :: Ptr(c) in slots[i := slot] ==> Ptr(c) in slots || Ptr(c) == slot
  {
    var r := slots[i := slot];
    forall c | Ptr(c) in r ensures Ptr(c) in slots || Ptr(c) == slot {
      var k :| 0 <= k < |r| && r[k] == Ptr(c);
    }
  }

  /** A scan step leaves the table alone, clears a slot, or puts the added client in. */
  predicate TableMoves(slots: seq<Slot>, op: Op, i: nat, slots': seq<Slot>) {
    || slots' == slots
    || (i < |slots| && slots' == slots[i := Null])
    || (i < |slots| && op.AddOp? && slots' == slots[i := Ptr(op.client)])
  }

  lemma ScanTable(s: State, t: Thread, writeOk: bool)
    requires Enabled(s, Scan(t, writeOk))
    ensures TableMoves(s.slots, s.locs[t].op, s.locs[t].i, Step(s, Scan(t, writeOk)).slots)
    ensures s.locs[t].op.AddOp? && Step(s, Scan(t, writeOk)).locs[t].Scanning? ==>
      Step(s, Scan(t, writeOk)).slots == s.slots
  {
  }

  lemma ScanMoveTableIdentity(s: State, t: Thread, s': State)
    requires Identity(s) && TableIdentity(s) && t in s.locs && s.locs[t].Scanning? && Identity(s')
    requires ScanMoves(s, t, s.locs[t].op, s.locs[t].i, s.locs[t].ret, s')
    requires TableMoves(s.slots, s.locs[t].op, s.locs[t].i, s'.slots)
    requires s.locs[t].op.AddOp? && s'.locs[t].Scanning? ==> s'.slots == s.slots
    ensures TableIdentity(s')
  {
    var i, op := s.locs[t].i, s.locs[t].op;
    assert op.AddOp? ==> t == Acceptor;
    if i < |s.slots| {
      InjectiveUpdate(s.slots, i, Null);
      if op.AddOp? {
        InjectiveUpdate(s.slots, i, Ptr(op.client));
      }
    }
  }

  lemma ScanTableIdentity(s: State, t: Thread, writeOk: bool)
    requires Identity(s) && TableIdentity(s) && Enabled(s, Scan(t, writeOk)) && Identity(Step(s, Scan(t, writeOk)))
    ensures TableIdentity(Step(s, Scan(t, writeOk)))
  {
    ScanFrame(s, t, writeOk);
    ScanTable(s, t, writeOk);
    ScanMoveTableIdentity(s, t, Step(s, Scan(t, writeOk)));
  }

  lemma AcceptTableIdentity(s: State, cid: int)
    requires Identity(s) && TableIdentity(s) && Enabled(s, Accept(cid)) && Identity(Step(s, Accept(cid)))
    ensures TableIdentity(Step(s, Accept(cid)))
  {
    assert Client(s.nextId, cid) !in s.created;
  }

  lemma SameTable(s: State, s': State)
    requires Identity(s) && TableIdentity(s) && Identity(s')
    requires s'.slots == s.slots && s'.created == s.created
    requires s'.locs[Acceptor].Locking? || s'.locs[Acceptor].Scanning? ==>
      && (s.locs[Acceptor].Locking? || s.locs[Acceptor].Scanning?)
      && Pending(s'.locs[Acceptor]) == Pending(s.locs[Acceptor])
    ensures TableIdentity(s')
  {
  }

  lemma StepKeepsTableIdentity(s: State, a: Action)
    requires Identity(s) && TableIdentity(s) && Enabled(s, a)
    ensures Identity(Step(s, a)) && TableIdentity(Step(s, a))
  {
    StepKeepsIdentity(s, a);
    match a
    case Accept(cid) => AcceptTableIdentity(s, cid);
    case Scan(t, writeOk) => ScanTableIdentity(s, t, writeOk);
    case _ => SameTable(s, Step(s, a));
  }
}
