/** The mutex makes the interleaved critical sections atomic: in every run, whenever the lock is
    free, table and output are what the finished sections give one after the other. */
module ChatAtomicity {
  import opened ClientTable
  import opened ChatServer
  import opened ChatIdentity

  predicate InCritical(l: Loc) {
    l.Scanning? || l.Unlocking?
  }

  predicate ReturnsOutside(l: Loc) {
    l.Locking? || InCritical(l) ==> !l.ret.Locking? && !InCritical(l.ret)
  }

  /** Exactly the holder of the lock is in a critical section. */
  predicate MutualExclusion(s: State) {
    && (forall t :: t in s.locs ==> ReturnsOutside(s.locs[t]))
    && (forall t :: t in s.locs && InCritical(s.locs[t]) ==> s.lock == HeldBy(t))
    && (s.lock.HeldBy? ==> s.lock.thread in s.locs && InCritical(s.locs[s.lock.thread]))
  }

  /** How far the critical section at location l has changed room r. */
  predicate PartWay(r: Room, l: Loc, now: Room) {
    match l
    case Scanning(op, i, _) =>
      && i <= |r.slots|
      && (match op
          case AddOp(_) => now == r && i <= FirstFree(r.slots)
          case RemoveOp(cid) => now == r && i <= FirstHolding(r.slots, cid)
          case SendOp(cid, text) => now == r.(out := Broadcast(r.slots[..i], cid, text, r.out)))
    case Unlocking(event, _) => now == Effect(r, event) && (event.SentEvent? ==> event.reach <= |r.slots|)
    case _ => now == r
  }

  /** The simulation relation. */
  predicate Simulates(s: State) {
    && |s.slots| == MAX_CONNECTIONS
    && PartWay(Replay(s.history),
               if s.lock.HeldBy? && s.lock.thread in s.locs then s.locs[s.lock.thread] else Accepting,
               Room(s.slots, s.out))
  }

  predicate Atomic(s: State) {
    MutualExclusion(s) && Simulates(s)
  }

  /** A step of one thread outside the critical sections. */
  lemma OutsideStep(s: State, t: Thread, l: Loc, s': State)
    requires Atomic(s) && (t in s.locs ==> !InCritical(s.locs[t])) && !InCritical(l) && ReturnsOutside(l)
    requires s'.locs == s.locs[t := l]
    requires s'.slots == s.slots && s'.out == s.out && s'.lock == s.lock && s'.history == s.history
    ensures Atomic(s')
  {
    assert s.lock.HeldBy? ==> s.lock.thread != t;
  }

  lemma TakeLockStep(s: State, t: Thread)
    requires Atomic(s) && Enabled(s, TakeLock(t))
    ensures Atomic(Step(s, TakeLock(t)))
  {
    var r := Replay(s.history);
    assert r.slots[..0] == [];
  }

  lemma ReplayMore(h: seq<Event>, e: Event)
    ensures Replay(h + [e]) == Effect(Replay(h), e)
  {
    assert (h + [e])[..|h|] == h;
  }

  lemma ReleaseExclusion(s: State, t: Thread, s': State)
    requires MutualExclusion(s) && Enabled(s, Release(t))
    requires s'.locs == s.locs[t := s.locs[t].ret] && s'.lock == Unlocked
    ensures MutualExclusion(s')
    ensures s.lock == HeldBy(t)
  {
    assert ReturnsOutside(s.locs[t]);
    forall u | u in s'.locs ensures ReturnsOutside(s'.locs[u]) && !InCritical(s'.locs[u]) {
      assert ReturnsOutside(s.locs[u]);
    }
  }

  lemma ReleaseStep(s: State, t: Thread)
    requires Atomic(s) && Enabled(s, Release(t))
    ensures Atomic(Step(s, Release(t)))
  {
    ReleaseExclusion(s, t, Step(s, Release(t)));
    ReplayMore(s.history, s.locs[t].event);
  }

  /** What a scan step from `Scanning(op, i, ret)` keeps: progress on the same room r. */
  predicate Progresses(s: State, t: Thread, ret: Loc, r: Room, s': State) {
    && t in s'.locs && InCritical(s'.locs[t]) && s'.locs[t].ret == ret
    && PartWay(r, s'.locs[t], Room(s'.slots, s'.out)) && |s'.slots| == |s.slots|
    && s'.locs == s.locs[t := s'.locs[t]] && s'.lock == s.lock && s'.history == s.history
  }

  lemma ScanToEnd(s: State, t: Thread, op: Op, i: nat, ret: Loc, ok: bool, r: Room)
    requires PartWay(r, Scanning(op, i, ret), Room(s.slots, s.out)) && |r.slots| == |s.slots| == MAX_CONNECTIONS
    requires i >= |s.slots|
    ensures Progresses(s, t, ret, r, Scanned(s, t, op, i, ret, ok))
  {
    assert r.slots[..i] == r.slots;
  }

  lemma AddedHere(slots: seq<Slot>, i: nat, c: Client)
    requires i < |slots| && i <= FirstFree(slots)
    ensures if slots[i].Null? then Added(slots, c) == slots[i := Ptr(c)] else i + 1 <= FirstFree(slots)
  {
  }

  lemma ScanToAdd(s: State, t: Thread, c: Client, i: nat, ret: Loc, r: Room)
    requires PartWay(r, Scanning(AddOp(c), i, ret), Room(s.slots, s.out)) && i < |s.slots|
    ensures Progresses(s, t, ret, r, ScannedAdd(s, t, c, i, ret))
  {
    AddedHere(r.slots, i, c);
  }

  lemma RemovedHere(slots: seq<Slot>, i: nat, cid: int)
    requires i < |slots| && i <= FirstHolding(slots, cid)
    ensures if Holds(slots[i], cid) then Removed(slots, cid) == slots[i := Null] else i + 1 <= FirstHolding(slots, cid)
  {
  }

  lemma ScanToRemove(s: State, t: Thread, cid: int, i: nat, ret: Loc, r: Room)
    requires PartWay(r, Scanning(RemoveOp(cid), i, ret), Room(s.slots, s.out)) && i < |s.slots|
    ensures Progresses(s, t, ret, r, ScannedRemove(s, t, cid, i, ret))
  {
    RemovedHere(r.slots, i, cid);
  }

  lemma BroadcastOneMore(slots: seq<Slot>, i: nat, cid: int, text: string, out: Output)
    requires i < |slots|
    ensures Broadcast(slots[..i + 1], cid, text, out) ==
      var before := Broadcast(slots[..i], cid, text, out);
      if Receives(slots[i], cid) then before[slots[i].client := Log(before, slots[i].client) + [text]] else before
  {
    assert slots[..i + 1][..i] == slots[..i];
  }

  lemma ScanToSend(s: State, t: Thread, cid: int, text: string, i: nat, ret: Loc, ok: bool, r: Room)
    requires PartWay(r, Scanning(SendOp(cid, text), i, ret), Room(s.slots, s.out)) && i < |s.slots|
    ensures Progresses(s, t, ret, r, ScannedSend(s, t, cid, text, i, ret, ok))
  {
    BroadcastOneMore(r.slots, i, cid, text, r.out);
  }

  lemma ScanRoom(s: State, t: Thread, ok: bool)
    requires Atomic(s) && Enabled(s, Scan(t, ok))
    ensures s.lock == HeldBy(t) && Progresses(s, t, s.locs[t].ret, Replay(s.history), Step(s, Scan(t, ok)))
    ensures |Step(s, Scan(t, ok)).slots| == MAX_CONNECTIONS
  {
    var r, op, i, ret := Replay(s.history), s.locs[t].op, s.locs[t].i, s.locs[t].ret;
    assert InCritical(s.locs[t]) && s.lock == HeldBy(t);
    if i >= |s.slots| {
      ScanToEnd(s, t, op, i, ret, ok, r);
    } else {
      match op
      case AddOp(c) => ScanToAdd(s, t, c, i, ret, r);
      case RemoveOp(cid) => ScanToRemove(s, t, cid, i, ret, r);
      case SendOp(cid, text) => ScanToSend(s, t, cid, text, i, ret, ok, r);
    }
  }

  lemma ScanStep(s: State, t: Thread, writeOk: bool)
    requires Atomic(s) && Enabled(s, Scan(t, writeOk))
    ensures Atomic(Step(s, Scan(t, writeOk)))
  {
    ScanRoom(s, t, writeOk);
    var s' := Step(s, Scan(t, writeOk));
    assert s.lock == HeldBy(t);
    forall u | u in s'.locs ensures ReturnsOutside(s'.locs[u]) && (InCritical(s'.locs[u]) ==> s'.lock == HeldBy(u)) {
      assert ReturnsOutside(s.locs[u]);
    }
  }

  lemma SpawnStepAtomic(s: State)
    requires Identity(s) && Atomic(s) && Enabled(s, Spawn)
    ensures Atomic(Step(s, Spawn))
  {
    var m := Goto(s, Acceptor, Accepting);
    OutsideStep(s, Acceptor, Accepting, m);
    OutsideStep(m, Handler(s.locs[Acceptor].client), Greeting, Step(s, Spawn));
  }

  lemma HandlerActionAtomic(s: State, a: Action)
    requires Atomic(s) && Enabled(s, a) && ByHandler(a)
    ensures Atomic(Step(s, a))
  {
    OutsideStep(s, Handler(a.client), Step(s, a).locs[Handler(a.client)], Step(s, a));
  }

  lemma AcceptStepAtomic(s: State, cid: int)
    requires Atomic(s) && Enabled(s, Accept(cid))
    ensures Atomic(Step(s, Accept(cid)))
  {
    OutsideStep(s, Acceptor, Step(s, Accept(cid)).locs[Acceptor], Step(s, Accept(cid)));
  }

  lemma StepKeepsAtomic(s: State, a: Action)
    requires Identity(s) && Atomic(s) && Enabled(s, a)
    ensures Atomic(Step(s, a))
  {
    match a
    case Accept(cid) => AcceptStepAtomic(s, cid);
    case Spawn => SpawnStepAtomic(s);
    case TakeLock(t) => TakeLockStep(s, t);
    case Scan(t, writeOk) => ScanStep(s, t, writeOk);
    case Release(t) => ReleaseStep(s, t);
    case _ => HandlerActionAtomic(s, a);
  }
}
