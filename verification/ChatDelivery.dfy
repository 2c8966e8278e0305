/** What each client has been sent, in every interleaving: the lock-ordered broadcasts, filtered. */
module ChatDelivery {
  import opened ClientTable
  import opened ChatServer
  import opened ChatIdentity
  import opened ChatAtomicity

  // ---------- histories ----------

  /** Nobody is added while in the table, and no broadcast goes beyond the table. */
  ghost predicate WellFormed(h: seq<Event>) {
    h == [] ||
    var before, e := h[..|h| - 1], h[|h| - 1];
    && WellFormed(before)
    && (e.AddedEvent? ==> Ptr(e.client) !in Replay(before).slots)
    && (e.SentEvent? ==> e.reach <= MAX_CONNECTIONS)
  }

  lemma {:induction false} InjectiveReplay(h: seq<Event>)
    requires WellFormed(h)
    ensures Injective(Replay(h).slots)
    decreases |h|
  {
    if h == [] {
    } else {
      var before, e := h[..|h| - 1], h[|h| - 1];
      InjectiveReplay(before);
      match e
      case AddedEvent(c) => MembersOfAdded(Replay(before).slots, c);
      case RemovedEvent(cid) => InjectiveRemoved(Replay(before).slots, cid);
      case SentEvent(_, _, _) =>
    }
  }

  /** The next event e of history h delivers its text to c: a broadcast by another cid, made while
      c was in one of the slots that the broadcast reached. */
  predicate Delivers(h: seq<Event>, e: Event, c: Client) {
    e.SentEvent? && e.reach <= MAX_CONNECTIONS && c.cid != e.cid && Ptr(c) in Replay(h).slots[..e.reach]
  }

  /** The positions in the history of what c has been sent. */
  function Stamps(h: seq<Event>, c: Client): seq<nat> {
    if h == [] then []
    else
      var before, e := h[..|h| - 1], h[|h| - 1];
      Stamps(before, c) + if Delivers(before, e, c) then [|h| - 1] else []
  }

  /** The broadcast log filtered for c. */
  function Deliveries(h: seq<Event>, c: Client): seq<string> {
    if h == [] then []
    else
      var before, e := h[..|h| - 1], h[|h| - 1];
      Deliveries(before, c) + if Delivers(before, e, c) then [e.text] else []
  }

  lemma InjectivePrefix(slots: seq<Slot>, k: nat)
    requires Injective(slots) && k <= |slots|
    ensures Injective(slots[..k])
  {
  }

  lemma {:induction false} LogIsDeliveries(h: seq<Event>, c: Client)
    requires WellFormed(h)
    ensures Log(Replay(h).out, c) == Deliveries(h, c)
    decreases |h|
  {
    if h == [] {
    } else {
      var before, e := h[..|h| - 1], h[|h| - 1];
      LogIsDeliveries(before, c);
      if e.SentEvent? {
        var r := Replay(before);
        InjectiveReplay(before);
        InjectivePrefix(r.slots, e.reach);
        LogAfterBroadcast(r.slots[..e.reach], e.cid, e.text, r.out, c);
      } else {
        assert Deliveries(before, c) + [] == Deliveries(before, c);
      }
    }
  }

  // ---------- the order of deliveries ----------

  lemma {:induction false} StampsIncrease(h: seq<Event>, c: Client)
    ensures |Stamps(h, c)| == |Deliveries(h, c)|
    ensures forall i :: 0 <= i < |Stamps(h, c)| ==> Stamps(h, c)[i] < |h|
    ensures forall i :: 0 <= i < |Stamps(h, c)| ==>
      h[Stamps(h, c)[i]].SentEvent? && Deliveries(h, c)[i] == h[Stamps(h, c)[i]].text
    ensures forall i, j :: 0 <= i < j < |Stamps(h, c)| ==> Stamps(h, c)[i] < Stamps(h, c)[j]
    decreases |h|
  {
    if h == [] {
    } else {
      StampsIncrease(h[..|h| - 1], c);
    }
  }

  /** Any two clients see the broadcasts that both receive in the same order. */
  lemma SameOrder(h: seq<Event>, c: Client, d: Client, i: nat, j: nat, k: nat, l: nat)
    requires i < |Stamps(h, c)| && j < |Stamps(h, c)| && k < |Stamps(h, d)| && l < |Stamps(h, d)|
    requires Stamps(h, c)[i] == Stamps(h, d)[k] && Stamps(h, c)[j] == Stamps(h, d)[l]
    ensures i < |Deliveries(h, c)| && k < |Deliveries(h, d)| && Deliveries(h, c)[i] == Deliveries(h, d)[k]
    ensures i < j <==> k < l
  {
    StampsIncrease(h, c);
    StampsIncrease(h, d);
  }

  // ---------- runs ----------

  ghost predicate Base(s: State) {
    Identity(s) && TableIdentity(s) && Atomic(s)
  }

  /** The history is well-formed, also with the addition that the acceptor may be finishing. */
  ghost predicate HistoryOk(s: State)
    requires Identity(s)
  {
    && WellFormed(s.history)
    && (s.locs[Acceptor].Unlocking? ==> Ptr(Pending(s.locs[Acceptor])) !in Replay(s.history).slots)
  }

  ghost predicate Good(s: State) {
    Base(s) && HistoryOk(s)
  }

  lemma InitialIsGood()
    ensures Good(INITIAL)
  {
  }

  lemma StepKeepsBase(s: State, a: Action)
    requires Base(s) && Enabled(s, a)
    ensures Base(Step(s, a))
  {
    StepKeepsTableIdentity(s, a);
    StepKeepsAtomic(s, a);
  }

  lemma ReleaseKeepsHistory(s: State, t: Thread)
    requires Good(s) && Enabled(s, Release(t)) && Identity(Step(s, Release(t)))
    ensures HistoryOk(Step(s, Release(t)))
  {
    var h, e := s.history, s.locs[t].event;
    assert InCritical(s.locs[t]) && s.lock == HeldBy(t);
    assert (h + [e])[..|h|] == h;
    if t.Handler? {
      assert HandlerLoc(t.client, s.locs[t]);
      assert !InCritical(s.locs[Acceptor]);
    }
  }

  /** The client that the acceptor is adding is not in the table yet. */
  lemma AcceptorAddsNewcomer(s: State)
    requires Good(s) && s.locs[Acceptor].Scanning?
    ensures Ptr(Pending(s.locs[Acceptor])) !in Replay(s.history).slots
  {
    assert InCritical(s.locs[Acceptor]) && s.lock == HeldBy(Acceptor);
    assert s.slots == Replay(s.history).slots;
  }

  lemma AcceptorScanKeepsHistory(s: State, ok: bool)
    requires Good(s) && Enabled(s, Scan(Acceptor, ok)) && Identity(Step(s, Scan(Acceptor, ok)))
    ensures HistoryOk(Step(s, Scan(Acceptor, ok)))
  {
    AcceptorAddsNewcomer(s);
    ScanFrame(s, Acceptor, ok);
  }

  lemma OtherStepKeepsHistory(s: State, s': State)
    requires Good(s) && Identity(s') && s'.history == s.history
    requires s'.locs[Acceptor].Unlocking? ==> s'.locs[Acceptor] == s.locs[Acceptor]
    ensures HistoryOk(s')
  {
  }

  lemma HistoryGrowsOnRelease(s: State, a: Action)
    requires Enabled(s, a) && !a.Release?
    ensures Step(s, a).history == s.history
  {
    if a.Scan? {
      ScanFrame(s, a.thread, a.writeOk);
    }
  }

  /** Steps that neither end a critical section nor run one of the acceptor's. */
  lemma BystanderKeepsHistory(s: State, a: Action)
    requires Good(s) && Enabled(s, a) && !a.Release? && !(a.Scan? && a.thread == Acceptor) && Identity(Step(s, a))
    ensures HistoryOk(Step(s, a))
  {
    HistoryGrowsOnRelease(s, a);
    if a.Scan? {
      ScanFrame(s, a.thread, a.writeOk);
    }
    OtherStepKeepsHistory(s, Step(s, a));
  }

  lemma StepKeepsHistory(s: State, a: Action)
    requires Good(s) && Enabled(s, a) && Identity(Step(s, a))
    ensures HistoryOk(Step(s, a))
  {
    if a.Release? {
      ReleaseKeepsHistory(s, a.thread);
    } else if a.Scan? && a.thread == Acceptor {
      AcceptorScanKeepsHistory(s, a.writeOk);
    } else {
      BystanderKeepsHistory(s, a);
    }
  }

  lemma StepKeepsGood(s: State, a: Action)
    requires Good(s) && Enabled(s, a)
    ensures Good(Step(s, a))
  {
    StepKeepsBase(s, a);
    StepKeepsHistory(s, a);
  }

  lemma {:induction false} RunKeepsGood(s: State, actions: seq<Action>, s': State)
    requires Good(s) && IsRun(s, actions, s')
    ensures Good(s')
    decreases actions
  {
    if actions == [] {
    } else {
      StepKeepsGood(s, actions[0]);
      RunKeepsGood(Step(s, actions[0]), actions[1..], s');
    }
  }

  /** Linearizability: in every interleaving, whenever the mutex is free, the table and the sockets
      are in the state that the finished critical sections produce one after the other. */
  lemma Linearizable(actions: seq<Action>, s: State)
    requires IsRun(INITIAL, actions, s) && s.lock.Unlocked?
    ensures Room(s.slots, s.out) == Replay(s.history)
  {
    InitialIsGood();
    RunKeepsGood(INITIAL, actions, s);
  }

  /** During a critical section a client has been sent at most one text more than before it. */
  lemma LogPartWay(r: Room, l: Loc, now: Room, c: Client)
    requires PartWay(r, l, now) && Injective(r.slots)
    ensures Log(r.out, c) <= Log(now.out, c) && |Log(now.out, c)| <= |Log(r.out, c)| + 1
  {
    match l
    case Scanning(SendOp(cid, text), i, _) =>
      InjectivePrefix(r.slots, i);
      LogAfterBroadcast(r.slots[..i], cid, text, r.out, c);
    case Unlocking(SentEvent(cid, text, reach), _) =>
      InjectivePrefix(r.slots, reach);
      LogAfterBroadcast(r.slots[..reach], cid, text, r.out, c);
    case _ =>
  }

  lemma RoomOfGoodState(s: State)
    requires Good(s)
    ensures s.lock.Unlocked? ==> Room(s.slots, s.out) == Replay(s.history)
    ensures s.lock.HeldBy? ==>
      s.lock.thread in s.locs && PartWay(Replay(s.history), s.locs[s.lock.thread], Room(s.slots, s.out))
  {
  }

  /** Total-order broadcast: in every interleaving, with or without failing writes, what a client
      has been sent is the lock-ordered log filtered for it; while a broadcast is going on, one
      text more may have arrived. */
  lemma TotalOrderBroadcast(actions: seq<Action>, s: State, c: Client)
    requires IsRun(INITIAL, actions, s)
    ensures s.lock.Unlocked? ==> Log(s.out, c) == Deliveries(s.history, c)
    ensures Deliveries(s.history, c) <= Log(s.out, c)
    ensures |Log(s.out, c)| <= |Deliveries(s.history, c)| + 1
  {
    InitialIsGood();
    RunKeepsGood(INITIAL, actions, s);
    RoomOfGoodState(s);
    LogIsDeliveries(s.history, c);
    InjectiveReplay(s.history);
    if s.lock.HeldBy? {
      LogPartWay(Replay(s.history), s.locs[s.lock.thread], Room(s.slots, s.out), c);
    }
  }

  // ---------- the mutex is always given back ----------

  /** Iterations of a critical section, with the given outcomes of their writes, and its end. */
  function OwnSteps(t: Thread, writes: seq<bool>): seq<Action> {
    if writes == [] then [Release(t)] else [Scan(t, writes[0])] + OwnSteps(t, writes[1..])
  }

  /** How many iterations the thread may still need. */
  function IterationsLeft(l: Loc): nat {
    if l.Scanning? && l.i <= MAX_CONNECTIONS then MAX_CONNECTIONS + 1 - l.i else 0
  }

  /** The thread is in a critical section on a table of full size. */
  predicate Midway(s: State, t: Thread) {
    && |s.slots| == MAX_CONNECTIONS
    && t in s.locs && InCritical(s.locs[t])
    && (s.locs[t].Scanning? ==> s.locs[t].i <= MAX_CONNECTIONS)
  }

  lemma HolderIsMidway(s: State)
    requires Good(s) && s.lock.HeldBy?
    ensures Midway(s, s.lock.thread)
  {
  }

  lemma ScanMakesProgress(s: State, t: Thread, ok: bool, s1: State)
    requires Midway(s, t) && Enabled(s, Scan(t, ok)) && s1 == Step(s, Scan(t, ok))
    ensures Midway(s1, t) && IterationsLeft(s1.locs[t]) < IterationsLeft(s.locs[t])
  {
    ScanFrame(s, t, ok);
    ScanTable(s, t, ok);
  }

  /** The section at location l can end with this event. */
  predicate SectionEvent(l: Loc, e: Event) {
    (l.Scanning? && EndsAs(l.op, e)) || (l.Unlocking? && l.event == e)
  }

  /** l' is a later location of the same section. */
  ghost predicate SameSection(l: Loc, l': Loc) {
    && (l.Scanning? || l.Unlocking?) && (l'.Scanning? || l'.Unlocking?) && l'.ret == l.ret
    && forall e :: SectionEvent(l', e) ==> SectionEvent(l, e)
  }

  /** The thread's section has been finished between the two states, and nothing else. */
  ghost predicate SectionDone(s: State, t: Thread, s': State)
    requires Midway(s, t)
  {
    && s'.lock.Unlocked? && s'.locs == s.locs[t := s.locs[t].ret]
    && |s'.history| == |s.history| + 1 && s.history <= s'.history
    && SectionEvent(s.locs[t], s'.history[|s.history|])
  }

  lemma ScanStaysInSection(s: State, t: Thread, ok: bool, s1: State)
    requires Midway(s, t) && Enabled(s, Scan(t, ok)) && s1 == Step(s, Scan(t, ok))
    ensures t in s1.locs && s1.locs == s.locs[t := s1.locs[t]] && s1.history == s.history
    ensures SameSection(s.locs[t], s1.locs[t])
  {
    ScanFrame(s, t, ok);
  }

  lemma DoneFromNext(s: State, t: Thread, s1: State, s': State)
    requires Midway(s, t) && Midway(s1, t) && SectionDone(s1, t, s')
    requires s1.locs == s.locs[t := s1.locs[t]] && SameSection(s.locs[t], s1.locs[t]) && s1.history == s.history
    ensures SectionDone(s, t, s')
  {
    assert s.locs[t := s1.locs[t]][t := s.locs[t].ret] == s.locs[t := s.locs[t].ret];
  }

  lemma ScanRun(s: State, t: Thread, ok: bool)
    requires Enabled(s, Scan(t, ok))
    ensures IsRun(s, [Scan(t, ok)], Step(s, Scan(t, ok)))
  {
    assert [Scan(t, ok)][1..] == [];
    assert IsRun(Step(s, Scan(t, ok)), [], Step(s, Scan(t, ok)));
  }

  lemma LastStep(s: State, t: Thread, s': State)
    requires Midway(s, t) && s.locs[t].Unlocking? && s' == Step(s, Release(t))
    ensures IsRun(s, [Release(t)], s') && SectionDone(s, t, s')
  {
    assert [Release(t)][1..] == [];
    assert IsRun(s', [], s');
  }

  lemma {:induction false} HolderFinishes(s: State, t: Thread, writes: seq<bool>) returns (n: nat, s': State)
    requires Midway(s, t) && IterationsLeft(s.locs[t]) <= |writes|
    ensures n <= |writes| && IsRun(s, OwnSteps(t, writes[..n]), s') && SectionDone(s, t, s')
    decreases writes
  {
    if s.locs[t].Unlocking? {
      n, s' := 0, Step(s, Release(t));
      LastStep(s, t, s');
    } else {
      var s1 := Step(s, Scan(t, writes[0]));
      ScanMakesProgress(s, t, writes[0], s1);
      ScanStaysInSection(s, t, writes[0], s1);
      var m: nat;
      m, s' := HolderFinishes(s1, t, writes[1..]);
      DoneFromNext(s, t, s1, s');
      n := m + 1;
      assert writes[..n] == [writes[0]] + writes[1..][..m];
      ScanRun(s, t, writes[0]);
      RunThenRun(s, [Scan(t, writes[0])], s1, OwnSteps(t, writes[1..][..m]), s');
    }
  }

  /** In every reachable state with the mutex held, the holder's own steps alone give it back,
      after at most six iterations and with one event more, whatever becomes of its writes. */
  lemma HolderReleases(actions: seq<Action>, s: State, writes: seq<bool>)
    requires IsRun(INITIAL, actions, s) && s.lock.HeldBy? && |writes| == MAX_CONNECTIONS + 1
    ensures exists n: nat, s' ::
      && n <= |writes| && IsRun(s, OwnSteps(s.lock.thread, writes[..n]), s') && s'.lock.Unlocked?
      && |s'.history| == |s.history| + 1 && s.history <= s'.history
  {
    InitialIsGood();
    RunKeepsGood(INITIAL, actions, s);
    HolderIsMidway(s);
    var n, s' := HolderFinishes(s, s.lock.thread, writes);
  }
}
