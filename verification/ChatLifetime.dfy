/** Lifetime of client records and the table as a bounded set, for runs in which a new client never
    draws the cid of a live one. */
module ChatLifetime {
  import opened ClientTable
  import opened ChatServer
  import opened ChatIdentity
  import opened ChatAtomicity
  import opened ChatDelivery
  import opened ChatGuards
  import opened ChatRemovals

  /** Assumption on the drawn ids: nobody who is still alive has the new one. */
  predicate FreshCid(s: State, a: Action) {
    a.Accept? ==> forall c :: c in s.created && c !in s.freed ==> c.cid != a.cid
  }

  ghost predicate IsDistinctRun(s: State, actions: seq<Action>, s': State)
    decreases actions
  {
    if actions == [] then s == s'
    else Enabled(s, actions[0]) && FreshCid(s, actions[0]) && IsDistinctRun(Step(s, actions[0]), actions[1..], s')
  }

  ghost predicate LiveDistinct(s: State) {
    forall c, d :: c in s.created && d in s.created && c !in s.freed && d !in s.freed && c.cid == d.cid ==> c == d
  }

  ghost predicate Lifetime(s: State) {
    LiveDistinct(s) && Safe(s)
  }

  // ---------- every step keeps it ----------

  lemma TableIsLive(s: State)
    requires Base(s) && Lifetime(s)
    ensures forall c :: Ptr(c) in s.slots ==> c in s.created && c !in s.freed
    ensures DistinctCids(s.slots)
  {
    TableIsNotFreed(s);
    forall i, j | 0 <= i < |s.slots| && 0 <= j < |s.slots| && s.slots[i].Ptr? && s.slots[j].Ptr?
        && s.slots[i].client.cid == s.slots[j].client.cid
      ensures s.slots[i].client == s.slots[j].client {
      assert Ptr(s.slots[i].client) in s.slots && Ptr(s.slots[j].client) in s.slots;
    }
  }

  /** With distinct live cids nobody else in the table has the cid of a handler still running. */
  lemma FirstHolderIsOwn(s: State, c: Client)
    requires Base(s) && Lifetime(s) && Handler(c) in s.locs && !s.locs[Handler(c)].Finished?
    ensures FirstHolding(s.slots, c.cid) < |s.slots| ==> s.slots[FirstHolding(s.slots, c.cid)] == Ptr(c)
  {
    TableIsLive(s);
    var k := FirstHolding(s.slots, c.cid);
    assert c !in s.freed;
    if k < |s.slots| {
      assert Ptr(s.slots[k].client) in s.slots;
    }
  }

  /** Distinct live cids make every removal meet both guards. */
  lemma DistinctIsGuarded(s: State, a: Action)
    requires Base(s) && Lifetime(s) && Enabled(s, a)
    ensures Guarded(s, a) && Unpreceded(s, a)
  {
    if a.TakeLock? && a.thread.Handler? {
      var c := a.thread.client;
      FirstHolderIsOwn(s, c);
      if Ptr(c) in s.slots {
        var i :| 0 <= i < |s.slots| && s.slots[i] == Ptr(c);
        assert Holds(s.slots[i], c.cid);
      }
    }
  }

  lemma StepKeepsLiveDistinct(s: State, a: Action)
    requires Base(s) && LiveDistinct(s) && Enabled(s, a) && FreshCid(s, a)
    ensures LiveDistinct(Step(s, a))
  {
    if a.Scan? {
      ScanFrame(s, a.thread, a.writeOk);
    } else if a.Accept? {
      assert Client(s.nextId, a.cid) !in s.created;
    }
  }

  lemma StepKeepsLifetime(s: State, a: Action)
    requires Base(s) && Lifetime(s) && Enabled(s, a) && FreshCid(s, a)
    ensures Lifetime(Step(s, a))
  {
    DistinctIsGuarded(s, a);
    StepKeepsSafe(s, a);
    StepKeepsLiveDistinct(s, a);
  }

  /** Each iteration of a handler's removal clears the handler's own slot or nothing, and keeps the
      lifetime invariant. */
  lemma RemovalKeepsLifetime(s: State, c: Client, ok: bool, s': State)
    requires Base(s) && Lifetime(s) && Enabled(s, Scan(Handler(c), ok)) && s' == Step(s, Scan(Handler(c), ok))
    requires RunsRemoval(s.locs[Handler(c)])
    ensures Lifetime(s')
    ensures var i := s.locs[Handler(c)].i;
      s'.slots == s.slots || (i < |s.slots| && s.slots[i] == Ptr(c) && s'.slots == s.slots[i := Null])
    ensures Handler(c) in s'.locs && (!s'.locs[Handler(c)].Scanning? ==> Ptr(c) !in s'.slots)
  {
    StepKeepsLifetime(s, Scan(Handler(c), ok));
    RemovalIteration(s, c, ok, s');
    RemovalProgress(s, c);
    FirstHolderIsOwn(s, c);
  }

  // ---------- the table as a bounded set ----------

  /** The abstract server: a set that takes a new member unless it has five already. */
  function MembersAfter(h: seq<Event>): set<Client> {
    if h == [] then {}
    else
      var before := MembersAfter(h[..|h| - 1]);
      match h[|h| - 1]
      case AddedEvent(c) => if |before| < MAX_CONNECTIONS then before + {c} else before
      case RemovedEvent(cid) => set c | c in before && c.cid != cid
      case SentEvent(_, _, _) => before
  }

  /** The table never held two clients with one cid when a critical section ended. */
  ghost predicate DistinctHistory(h: seq<Event>) {
    DistinctCids(Replay(h).slots) && (h == [] || DistinctHistory(h[..|h| - 1]))
  }

  lemma {:induction false} TableRefinesSet(h: seq<Event>)
    requires WellFormed(h) && DistinctHistory(h)
    ensures Members(Replay(h).slots) == MembersAfter(h)
    ensures |MembersAfter(h)| <= MAX_CONNECTIONS
    decreases |h|
  {
    if h == [] {
    } else {
      var before, e := h[..|h| - 1], h[|h| - 1];
      TableRefinesSet(before);
      InjectiveReplay(before);
      match e
      case AddedEvent(c) => MembersOfAdded(Replay(before).slots, c);
      case RemovedEvent(cid) => MembersOfRemoved(Replay(before).slots, cid);
      case SentEvent(_, _, _) =>
    }
    InjectiveReplay(h);
    MembersBound(Replay(h).slots);
  }

  predicate NoFailedWrite(h: seq<Event>) {
    forall i :: 0 <= i < |h| && h[i].SentEvent? ==> h[i].reach == MAX_CONNECTIONS
  }

  /** The broadcasts by other cids made while c was a member. */
  function MemberDeliveries(h: seq<Event>, c: Client): seq<string> {
    if h == [] then []
    else
      var before, e := h[..|h| - 1], h[|h| - 1];
      MemberDeliveries(before, c) + if e.SentEvent? && e.cid != c.cid && c in MembersAfter(before) then [e.text] else []
  }

  lemma {:induction false} DeliveriesToMembers(h: seq<Event>, c: Client)
    requires WellFormed(h) && DistinctHistory(h) && NoFailedWrite(h)
    ensures Deliveries(h, c) == MemberDeliveries(h, c)
    decreases |h|
  {
    if h == [] {
    } else {
      var before, e := h[..|h| - 1], h[|h| - 1];
      DeliveriesToMembers(before, c);
      if e.SentEvent? {
        TableRefinesSet(before);
        var slots := Replay(before).slots;
        assert slots[..MAX_CONNECTIONS] == slots;
        MemberIffInSlot(slots, c);
      }
    }
  }

  // ---------- runs ----------

  lemma ReleasedTable(s: State, t: Thread)
    requires Base(s) && Enabled(s, Release(t))
    ensures Replay(Step(s, Release(t)).history).slots == s.slots
  {
    assert InCritical(s.locs[t]) && s.lock == HeldBy(t);
    ReplayMore(s.history, s.locs[t].event);
  }

  lemma DistinctHistoryMore(h: seq<Event>, e: Event)
    requires DistinctHistory(h) && DistinctCids(Replay(h + [e]).slots)
    ensures DistinctHistory(h + [e])
  {
    assert (h + [e])[..|h|] == h;
  }

  lemma ReleaseKeepsDistinctHistory(s: State, t: Thread)
    requires Base(s) && Enabled(s, Release(t)) && DistinctHistory(s.history) && DistinctCids(s.slots)
    ensures DistinctHistory(Step(s, Release(t)).history)
  {
    ReleasedTable(s, t);
    DistinctHistoryMore(s.history, s.locs[t].event);
  }

  lemma StepKeepsDistinctHistory(s: State, a: Action)
    requires Base(s) && Lifetime(s) && Enabled(s, a) && DistinctHistory(s.history)
    ensures DistinctHistory(Step(s, a).history)
  {
    if a.Release? {
      TableIsLive(s);
      ReleaseKeepsDistinctHistory(s, a.thread);
    } else {
      HistoryGrowsOnRelease(s, a);
    }
  }

  lemma {:induction false} DistinctRunKeepsAll(s: State, actions: seq<Action>, s': State)
    requires Good(s) && Lifetime(s) && DistinctHistory(s.history) && IsDistinctRun(s, actions, s')
    ensures Good(s') && Lifetime(s') && DistinctHistory(s'.history)
    decreases actions
  {
    if actions == [] {
    } else {
      StepKeepsGood(s, actions[0]);
      StepKeepsLifetime(s, actions[0]);
      StepKeepsDistinctHistory(s, actions[0]);
      DistinctRunKeepsAll(Step(s, actions[0]), actions[1..], s');
    }
  }

  lemma ReachableState(actions: seq<Action>, s: State)
    requires IsDistinctRun(INITIAL, actions, s)
    ensures Good(s) && Lifetime(s) && DistinctHistory(s.history)
  {
    InitialIsGood();
    DistinctRunKeepsAll(INITIAL, actions, s);
  }

  /** Lifetime: as long as live cids are distinct, no slot ever refers to a freed record, no
      critical section ever dereferences one, and no client occupies two slots. */
  lemma NoUseAfterFree(actions: seq<Action>, s: State)
    requires IsDistinctRun(INITIAL, actions, s)
    ensures !s.fault && Injective(s.slots)
    ensures forall c :: Ptr(c) in s.slots ==> c in s.created && c !in s.freed
  {
    ReachableState(actions, s);
    TableIsLive(s);
  }

  lemma {:induction false} DistinctRunIsUnpreceded(s: State, actions: seq<Action>, s': State)
    requires Good(s) && Lifetime(s) && IsDistinctRun(s, actions, s')
    ensures IsRun(s, actions, s') && UnprecededThroughout(s, actions, s')
    decreases actions
  {
    if actions == [] {
    } else {
      StepKeepsGood(s, actions[0]);
      StepKeepsLifetime(s, actions[0]);
      DistinctIsGuarded(s, actions[0]);
      DistinctRunIsUnpreceded(Step(s, actions[0]), actions[1..], s');
    }
  }

  /** As long as live cids are distinct, nobody is taken out of the table by another one. */
  lemma NobodyRemovedByAnother(actions: seq<Action>, s: State)
    requires IsDistinctRun(INITIAL, actions, s)
    ensures IsRun(INITIAL, actions, s) && LeaveByThemselves(INITIAL, actions, s)
  {
    InitialIsGood();
    DistinctRunIsUnpreceded(INITIAL, actions, s);
    UnprecededRun(INITIAL, actions, s);
  }

  /** Delivery under the two assumptions: with distinct live cids and no failed write, whenever the
      mutex is free each client has been sent exactly the broadcasts by others made while it was a
      member, and the table is the bounded set of members. */
  lemma DeliveredToMembers(actions: seq<Action>, s: State, c: Client)
    requires IsDistinctRun(INITIAL, actions, s) && s.lock.Unlocked? && NoFailedWrite(s.history)
    ensures Log(s.out, c) == MemberDeliveries(s.history, c)
    ensures Members(s.slots) == MembersAfter(s.history) && |Members(s.slots)| <= MAX_CONNECTIONS
  {
    ReachableState(actions, s);
    LogIsDeliveries(s.history, c);
    DeliveriesToMembers(s.history, c);
    TableRefinesSet(s.history);
  }
}
