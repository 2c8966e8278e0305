/** When the chat server keeps freed records out of its table: exactly in the runs in which every
    client that starts its removal stands before all others with its cid. */
module ChatGuards {
  import opened ClientTable
  import opened ChatServer
  import opened ChatIdentity
  import opened ChatAtomicity
  import opened ChatDelivery

  /** The handler's removal is through, so its record is about to be freed, or is freed. */
  predicate PastRemoval(l: Loc) {
    l.Freeing? || l.Finished? || (l.Unlocking? && l.event.RemovedEvent?)
  }

  /** No record in the table has its removal behind it. */
  ghost predicate InTableAlive(s: State) {
    forall c :: Ptr(c) in s.slots && Handler(c) in s.locs ==> !PastRemoval(s.locs[Handler(c)])
  }

  predicate RunsRemoval(l: Loc) {
    (l.Locking? || l.Scanning?) && l.op.RemoveOp?
  }

  /** The guard: whoever takes the lock to remove itself is not in the table, or stands there
      before all others with its cid. */
  predicate Guarded(s: State, a: Action) {
    (a.TakeLock? && a.thread.Handler? && a.thread in s.locs && RunsRemoval(s.locs[a.thread])) ==>
      RemovesOwn(s.slots, a.thread.client)
  }

  ghost predicate RemovalsOwn(s: State) {
    forall c :: Handler(c) in s.locs && s.locs[Handler(c)].Scanning? && RunsRemoval(s.locs[Handler(c)])
      ==> RemovesOwn(s.slots, c)
  }

  ghost predicate Safe(s: State) {
    InTableAlive(s) && RemovalsOwn(s) && !s.fault
  }

  // ---------- guarded steps keep it ----------

  lemma TableIsNotFreed(s: State)
    requires Base(s) && InTableAlive(s)
    ensures forall c :: Ptr(c) in s.slots ==> c in s.created && c !in s.freed
  {
    forall c | Ptr(c) in s.slots ensures c !in s.freed {
      assert c in s.freed <==> Handler(c) in s.locs && s.locs[Handler(c)].Finished?;
    }
  }

  /** A step of one thread that leaves the table alone. */
  lemma LocStepKeepsSafe(s: State, t: Thread, l: Loc, s': State)
    requires Safe(s) && s'.locs == s.locs[t := l] && s'.slots == s.slots && s'.fault == s.fault
    requires t.Handler? && PastRemoval(l) ==> t in s.locs && PastRemoval(s.locs[t])
    requires t.Handler? && l.Scanning? && RunsRemoval(l) ==> RemovesOwn(s.slots, t.client)
    ensures Safe(s')
  {
  }

  lemma NoFaultAt(s: State, i: nat)
    requires Base(s) && Safe(s) && i < |s.slots|
    ensures !Faults(s, i)
  {
    TableIsNotFreed(s);
    assert s.slots[i].Ptr? ==> Ptr(s.slots[i].client) in s.slots;
  }

  /** While one thread scans, no other one does. */
  lemma OnlyScanner(s: State, t: Thread, u: Thread)
    requires Base(s) && t in s.locs && u in s.locs && s.locs[t].Scanning? && s.locs[u].Scanning?
    ensures t == u && s.lock == HeldBy(t)
  {
    assert InCritical(s.locs[t]) && InCritical(s.locs[u]);
  }

  /** How far a removal has come: the first holder of the cid is not behind it. */
  lemma RemovalProgress(s: State, c: Client)
    requires Base(s) && Handler(c) in s.locs && s.locs[Handler(c)].Scanning? && RunsRemoval(s.locs[Handler(c)])
    ensures s.lock == HeldBy(Handler(c)) && s.locs[Handler(c)].op.cid == c.cid
    ensures s.locs[Handler(c)].i <= FirstHolding(s.slots, c.cid)
  {
    OnlyScanner(s, Handler(c), Handler(c));
    assert HandlerLoc(c, s.locs[Handler(c)]);
  }

  lemma RemovalAt(s: State, t: Thread, cid: int, i: nat, ret: Loc, s': State)
    requires i <= FirstHolding(s.slots, cid)
    requires s' == Scanned(s, t, RemoveOp(cid), i, ret, true)
    ensures t in s'.locs && s'.locs == s.locs[t := s'.locs[t]] && s'.lock == s.lock
    ensures if s'.locs[t].Scanning?
            then RunsRemoval(s'.locs[t]) && s'.slots == s.slots
            else PastRemoval(s'.locs[t]) && s'.slots == Removed(s.slots, cid)
  {
    if i < |s.slots| {
      RemovedHere(s.slots, i, cid);
      assert s' == ScannedRemove(s, t, cid, i, ret);
    }
  }

  /** The removal loop's next iteration: it goes on, or has done what `Removed` says. */
  lemma RemovalIteration(s: State, c: Client, ok: bool, s': State)
    requires Base(s) && Enabled(s, Scan(Handler(c), ok)) && s' == Step(s, Scan(Handler(c), ok))
    requires RunsRemoval(s.locs[Handler(c)])
    ensures Handler(c) in s'.locs && s'.locs == s.locs[Handler(c) := s'.locs[Handler(c)]] && s'.lock == s.lock
    ensures if s'.locs[Handler(c)].Scanning?
            then RunsRemoval(s'.locs[Handler(c)]) && s'.slots == s.slots
            else PastRemoval(s'.locs[Handler(c)]) && s'.slots == Removed(s.slots, c.cid)
  {
    RemovalProgress(s, c);
    var l := s.locs[Handler(c)];
    RemovalAt(s, Handler(c), c.cid, l.i, l.ret, s');
  }

  lemma RemovalKeepsSafe(s: State, c: Client, ok: bool, s': State)
    requires Base(s) && Safe(s) && Enabled(s, Scan(Handler(c), ok)) && s' == Step(s, Scan(Handler(c), ok))
    requires RunsRemoval(s.locs[Handler(c)])
    ensures Safe(s')
  {
    var i := s.locs[Handler(c)].i;
    RemovalIteration(s, c, ok, s');
    if i < |s.slots| {
      NoFaultAt(s, i);
    }
    if s'.locs[Handler(c)].Scanning? {
      LocStepKeepsSafe(s, Handler(c), s'.locs[Handler(c)], s');
    } else {
      RemovalEndsSafe(s, c, s');
    }
  }

  lemma RemovalEndsSafe(s: State, c: Client, s': State)
    requires Base(s) && Safe(s)
    requires Handler(c) in s.locs && s.locs[Handler(c)].Scanning? && RunsRemoval(s.locs[Handler(c)])
    requires Handler(c) in s'.locs && s'.locs == s.locs[Handler(c) := s'.locs[Handler(c)]]
    requires !s'.locs[Handler(c)].Scanning? && s'.slots == Removed(s.slots, c.cid) && !s'.fault
    ensures Safe(s')
  {
    RemovesOwnIff(s.slots, c);
    forall d | Handler(d) in s'.locs && s'.locs[Handler(d)].Scanning? ensures false {
      OnlyScanner(s, Handler(c), Handler(d));
    }
    forall d | Ptr(d) in s'.slots && Handler(d) in s'.locs ensures !PastRemoval(s'.locs[Handler(d)]) {
      InRemoved(s.slots, c.cid, d);
    }
  }

  lemma SendScanKeepsSafe(s: State, t: Thread, ok: bool, s': State)
    requires Base(s) && Safe(s) && Enabled(s, Scan(t, ok)) && s' == Step(s, Scan(t, ok)) && s.locs[t].op.SendOp?
    ensures Safe(s')
  {
    if s.locs[t].i < |s.slots| {
      NoFaultAt(s, s.locs[t].i);
    }
    LocStepKeepsSafe(s, t, s'.locs[t], s');
  }

  lemma AddScanKeepsSafe(s: State, t: Thread, ok: bool, s': State)
    requires Base(s) && Safe(s) && Enabled(s, Scan(t, ok)) && s' == Step(s, Scan(t, ok)) && s.locs[t].op.AddOp?
    ensures Safe(s')
  {
    assert t == Acceptor;
    var i := s.locs[t].i;
    if i < |s.slots| && s.slots[i].Null? {
      InjectiveUpdate(s.slots, i, Ptr(Pending(s.locs[t])));
      forall d | Handler(d) in s'.locs && s'.locs[Handler(d)].Scanning? ensures false {
        OnlyScanner(s, t, Handler(d));
      }
    }
  }

  lemma ScanKeepsSafe(s: State, t: Thread, ok: bool)
    requires Base(s) && Safe(s) && Enabled(s, Scan(t, ok))
    ensures Safe(Step(s, Scan(t, ok)))
  {
    match s.locs[t].op
    case AddOp(_) => AddScanKeepsSafe(s, t, ok, Step(s, Scan(t, ok)));
    case SendOp(_, _) => SendScanKeepsSafe(s, t, ok, Step(s, Scan(t, ok)));
    case RemoveOp(_) =>
      assert t.Handler?;
      RemovalKeepsSafe(s, t.client, ok, Step(s, Scan(t, ok)));
  }

  lemma ReleaseKeepsSafe(s: State, t: Thread)
    requires Base(s) && Safe(s) && Enabled(s, Release(t))
    ensures Safe(Step(s, Release(t)))
  {
    if t.Handler? {
      assert HandlerLoc(t.client, s.locs[t]);
    }
    LocStepKeepsSafe(s, t, s.locs[t].ret, Step(s, Release(t)));
  }

  lemma TakeLockKeepsSafe(s: State, t: Thread)
    requires Base(s) && Safe(s) && Enabled(s, TakeLock(t)) && Guarded(s, TakeLock(t))
    ensures Safe(Step(s, TakeLock(t)))
  {
    LocStepKeepsSafe(s, t, Step(s, TakeLock(t)).locs[t], Step(s, TakeLock(t)));
  }

  lemma SpawnKeepsSafe(s: State)
    requires Base(s) && Safe(s) && Enabled(s, Spawn)
    ensures Safe(Step(s, Spawn))
  {
    var m := Goto(s, Acceptor, Accepting);
    LocStepKeepsSafe(s, Acceptor, Accepting, m);
    LocStepKeepsSafe(m, Handler(s.locs[Acceptor].client), Greeting, Step(s, Spawn));
  }

  lemma AcceptKeepsSafe(s: State, cid: int)
    requires Safe(s) && Enabled(s, Accept(cid))
    ensures Safe(Step(s, Accept(cid)))
  {
    LocStepKeepsSafe(s, Acceptor, Step(s, Accept(cid)).locs[Acceptor], Step(s, Accept(cid)));
  }

  lemma HandlerActionKeepsSafe(s: State, a: Action)
    requires Safe(s) && Enabled(s, a) && ByHandler(a)
    ensures Safe(Step(s, a))
  {
    LocStepKeepsSafe(s, Handler(a.client), Step(s, a).locs[Handler(a.client)], Step(s, a));
  }

  lemma StepKeepsSafe(s: State, a: Action)
    requires Base(s) && Safe(s) && Enabled(s, a) && Guarded(s, a)
    ensures Safe(Step(s, a))
  {
    match a
    case Accept(cid) => AcceptKeepsSafe(s, cid);
    case Spawn => SpawnKeepsSafe(s);
    case TakeLock(t) => TakeLockKeepsSafe(s, t);
    case Scan(t, ok) => ScanKeepsSafe(s, t, ok);
    case Release(t) => ReleaseKeepsSafe(s, t);
    case _ => HandlerActionKeepsSafe(s, a);
  }

  // ---------- an unguarded removal goes wrong ----------

  /** c is removing itself, but another client with its cid stands before it. */
  ghost predicate Misdirected(s: State, c: Client) {
    && Handler(c) in s.locs && s.locs[Handler(c)].Scanning? && RunsRemoval(s.locs[Handler(c)])
    && !RemovesOwn(s.slots, c)
  }

  lemma MisdirectedScan(s: State, c: Client, ok: bool)
    requires Base(s) && Misdirected(s, c) && Enabled(s, Scan(Handler(c), ok))
    ensures Misdirected(Step(s, Scan(Handler(c), ok)), c) || !InTableAlive(Step(s, Scan(Handler(c), ok)))
  {
    RemovalIteration(s, c, ok, Step(s, Scan(Handler(c), ok)));
    RemovesOwnIff(s.slots, c);
  }

  /** The other threads can neither help nor interfere. */
  lemma OtherStepWhileScanning(s: State, t: Thread, a: Action)
    requires Base(s) && Enabled(s, a) && t in s.locs && s.locs[t].Scanning? && !(a.Scan? && a.thread == t)
    ensures var s' := Step(s, a); s'.slots == s.slots && t in s'.locs && s'.locs[t] == s.locs[t] && s'.lock == s.lock
  {
    assert InCritical(s.locs[t]) && s.lock == HeldBy(t);
    assert a.Scan? || a.Release? ==> InCritical(s.locs[a.thread]);
  }

  lemma {:induction false} MisdirectedRun(s: State, c: Client, actions: seq<Action>, s': State)
    requires Good(s) && Misdirected(s, c) && IsRun(s, actions, s') && s'.lock.Unlocked?
    ensures !AliveThroughout(s, actions, s')
    decreases actions
  {
    RemovalProgress(s, c);
    var a, rest := actions[0], actions[1..];
    StepKeepsGood(s, a);
    if a.Scan? && a.thread == Handler(c) {
      MisdirectedScan(s, c, a.writeOk);
    } else {
      OtherStepWhileScanning(s, Handler(c), a);
    }
    if Misdirected(Step(s, a), c) {
      MisdirectedRun(Step(s, a), c, rest, s');
    } else if rest != [] {
      assert !InTableAlive(Step(s, a));
    }
  }

  // ---------- runs ----------

  ghost predicate GuardsHold(s: State, actions: seq<Action>, s': State)
    requires IsRun(s, actions, s')
    decreases actions
  {
    actions == [] || (Guarded(s, actions[0]) && GuardsHold(Step(s, actions[0]), actions[1..], s'))
  }

  /** In no state of the run is a client in the table that has its removal behind it. */
  ghost predicate AliveThroughout(s: State, actions: seq<Action>, s': State)
    requires IsRun(s, actions, s')
    decreases actions
  {
    InTableAlive(s) && (actions == [] || AliveThroughout(Step(s, actions[0]), actions[1..], s'))
  }

  lemma {:induction false} GuardedRunIsSafe(s: State, actions: seq<Action>, s': State)
    requires Good(s) && Safe(s) && IsRun(s, actions, s') && GuardsHold(s, actions, s')
    ensures AliveThroughout(s, actions, s') && Good(s') && Safe(s')
    decreases actions
  {
    if actions == [] {
    } else {
      StepKeepsGood(s, actions[0]);
      StepKeepsSafe(s, actions[0]);
      GuardedRunIsSafe(Step(s, actions[0]), actions[1..], s');
    }
  }

  lemma UnguardedStep(s: State, a: Action)
    requires Enabled(s, a) && !Guarded(s, a)
    ensures Misdirected(Step(s, a), a.thread.client)
  {
  }

  lemma {:induction false} UnguardedRunGoesWrong(s: State, actions: seq<Action>, s': State)
    requires Good(s) && IsRun(s, actions, s') && s'.lock.Unlocked? && !GuardsHold(s, actions, s')
    ensures !AliveThroughout(s, actions, s')
    decreases actions
  {
    var a, rest := actions[0], actions[1..];
    StepKeepsGood(s, a);
    if Guarded(s, a) {
      UnguardedRunGoesWrong(Step(s, a), rest, s');
    } else {
      UnguardedStep(s, a);
      MisdirectedRun(Step(s, a), a.thread.client, rest, s');
    }
  }

  /** The exact condition, whatever cids are drawn: a run that ends with the mutex free keeps every
      client that is past its removal out of the table throughout if and only if each removal
      was guarded. */
  lemma LifetimeIffGuarded(actions: seq<Action>, s: State)
    requires IsRun(INITIAL, actions, s) && s.lock.Unlocked?
    ensures AliveThroughout(INITIAL, actions, s) <==> GuardsHold(INITIAL, actions, s)
  {
    InitialIsGood();
    if GuardsHold(INITIAL, actions, s) {
      GuardedRunIsSafe(INITIAL, actions, s);
    } else {
      UnguardedRunGoesWrong(INITIAL, actions, s);
    }
  }

  /** In a guarded run no slot refers to a freed record, and none is ever dereferenced. */
  lemma GuardedRunHasNoFault(actions: seq<Action>, s: State)
    requires IsRun(INITIAL, actions, s) && GuardsHold(INITIAL, actions, s)
    ensures !s.fault && forall c :: Ptr(c) in s.slots ==> c in s.created && c !in s.freed
  {
    InitialIsGood();
    GuardedRunIsSafe(INITIAL, actions, s);
    TableIsNotFreed(s);
  }
}
