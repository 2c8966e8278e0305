/** What becomes of the chat server's writes: a write that fails delivers nothing and ends the
    broadcast; all writes before it deliver the text once. */
module ChatWrites {
  import opened ClientTable
  import opened ChatServer
  import opened ChatIdentity
  import opened ChatAtomicity
  import opened ChatDelivery

  // ---------- one iteration of `send_msg` ----------

  /** Thread t is about to look at slot i in a broadcast of the text under the cid. */
  predicate AtSlot(s: State, t: Thread, cid: int, text: string, i: nat, ret: Loc) {
    t in s.locs && s.locs[t] == Scanning(SendOp(cid, text), i, ret)
  }

  /** Slot i holds a client with another cid. */
  predicate IsRecipient(s: State, i: nat, cid: int) {
    i < |s.slots| && s.slots[i] != Null && s.slots[i].client.cid != cid
  }

  /** A failed write: nothing is delivered to anybody and the loop is left at this slot. */
  lemma FailedWrite(s: State, t: Thread, cid: int, text: string, i: nat, ret: Loc)
    requires AtSlot(s, t, cid, text, i, ret) && IsRecipient(s, i, cid)
    ensures Enabled(s, Scan(t, false))
    ensures var s' := Step(s, Scan(t, false));
      s'.out == s.out && s'.slots == s.slots && s'.locs == s.locs[t := Unlocking(SentEvent(cid, text, i), ret)]
  {
  }

  /** A write that succeeds adds the text to this client's log only, and the loop goes on. */
  lemma SuccessfulWrite(s: State, t: Thread, cid: int, text: string, i: nat, ret: Loc, d: Client)
    requires AtSlot(s, t, cid, text, i, ret) && IsRecipient(s, i, cid)
    ensures Enabled(s, Scan(t, true))
    ensures var s' := Step(s, Scan(t, true));
      && Log(s'.out, d) == Log(s.out, d) + (if s.slots[i] == Ptr(d) then [text] else [])
      && s'.slots == s.slots && s'.locs == s.locs[t := Scanning(SendOp(cid, text), i + 1, ret)]
  {
  }

  /** Empty slots and clients with the sender's cid are passed over; behind the last slot the loop
      ends. */
  lemma NoWrite(s: State, t: Thread, cid: int, text: string, i: nat, ret: Loc, ok: bool)
    requires AtSlot(s, t, cid, text, i, ret) && !IsRecipient(s, i, cid)
    ensures Enabled(s, Scan(t, ok))
    ensures var s' := Step(s, Scan(t, ok));
      && s'.out == s.out && s'.slots == s.slots
      && s'.locs == s.locs[t := if i < |s.slots| then Scanning(SendOp(cid, text), i + 1, ret)
                                else Unlocking(SentEvent(cid, text, MAX_CONNECTIONS), ret)]
  {
  }

  /** Looking at a freed record is a fault, in both loops that dereference the slots. */
  lemma FreedRecordFaults(s: State, t: Thread, ok: bool)
    requires Enabled(s, Scan(t, ok)) && !s.locs[t].op.AddOp? && s.locs[t].i < |s.slots|
    ensures Step(s, Scan(t, ok)).fault <==>
      s.fault || exists c :: c in s.freed && s.slots[s.locs[t].i] == Ptr(c)
  {
    var slot := s.slots[s.locs[t].i];
    if slot.Ptr? && slot.client in s.freed {
      assert slot == Ptr(slot.client);
    }
  }

  // ---------- one whole broadcast ----------

  /** The iterations from slot i on, when writing fails exactly for the broken clients. */
  function Iterations(t: Thread, slots: seq<Slot>, i: nat, broken: set<Client>): seq<Action>
    requires i <= |slots|
    decreases |slots| - i
  {
    if i == |slots| then [Scan(t, true)]
    else [Scan(t, slots[i].Null? || slots[i].client !in broken)] + Iterations(t, slots, i + 1, broken)
  }

  /** d stands in one of the slots from lo to hi and has another cid. */
  predicate Among(slots: seq<Slot>, lo: nat, hi: nat, cid: int, d: Client)
    requires lo <= hi <= |slots|
  {
    d.cid != cid && Ptr(d) in slots[lo..hi]
  }

  lemma AmongNext(slots: seq<Slot>, lo: nat, hi: nat, cid: int, d: Client)
    requires lo < hi <= |slots|
    ensures Among(slots, lo, hi, cid, d) <==> (d.cid != cid && slots[lo] == Ptr(d)) || Among(slots, lo + 1, hi, cid, d)
  {
    assert slots[lo..hi] == [slots[lo]] + slots[lo + 1..hi];
  }

  lemma NotAgain(slots: seq<Slot>, lo: nat, hi: nat, d: Client)
    requires Injective(slots) && lo < hi <= |slots| && slots[lo] == Ptr(d)
    ensures Ptr(d) !in slots[lo + 1..hi]
  {
  }

  /** How a broadcast from slot i on has to end. */
  ghost predicate BroadcastEnds(s: State, t: Thread, cid: int, text: string, i: nat, ret: Loc,
                                broken: set<Client>, reach: nat, s': State) {
    && i <= reach <= |s.slots|
    && (reach < |s.slots| ==> IsRecipient(s, reach, cid) && s.slots[reach].client in broken)
    && (forall k :: i <= k < reach && IsRecipient(s, k, cid) ==> s.slots[k].client !in broken)
    && s'.locs == s.locs[t := Unlocking(SentEvent(cid, text, reach), ret)] && s'.slots == s.slots
    && forall d :: Log(s'.out, d) == Log(s.out, d) + if Among(s.slots, i, reach, cid, d) then [text] else []
  }

  lemma EndsHere(s: State, t: Thread, cid: int, text: string, i: nat, ret: Loc, broken: set<Client>, s': State)
    requires i <= |s.slots| && s'.out == s.out && s'.slots == s.slots
    requires i < |s.slots| ==> IsRecipient(s, i, cid) && s.slots[i].client in broken
    requires s'.locs == s.locs[t := Unlocking(SentEvent(cid, text, i), ret)]
    ensures BroadcastEnds(s, t, cid, text, i, ret, broken, i, s')
  {
    forall d ensures Log(s'.out, d) == Log(s.out, d) + if Among(s.slots, i, i, cid, d) then [text] else [] {
      assert s.slots[i..i] == [];
    }
  }

  /** Slot i has been passed over, or its client has been written to. */
  ghost predicate Passed(s: State, t: Thread, cid: int, text: string, i: nat, ret: Loc, s1: State) {
    && i < |s.slots| && s1.slots == s.slots && s1.locs == s.locs[t := Scanning(SendOp(cid, text), i + 1, ret)]
    && forall d :: Log(s1.out, d) ==
                   Log(s.out, d) + if IsRecipient(s, i, cid) && s.slots[i] == Ptr(d) then [text] else []
  }

  lemma EndsLater(s: State, t: Thread, cid: int, text: string, i: nat, ret: Loc, broken: set<Client>,
                  s1: State, reach: nat, s': State)
    requires Passed(s, t, cid, text, i, ret, s1)
    requires Injective(s.slots) && (IsRecipient(s, i, cid) ==> s.slots[i].client !in broken)
    requires BroadcastEnds(s1, t, cid, text, i + 1, ret, broken, reach, s')
    ensures BroadcastEnds(s, t, cid, text, i, ret, broken, reach, s')
  {
    forall k | i <= k < reach && IsRecipient(s, k, cid) ensures s.slots[k].client !in broken {
      assert k > i ==> IsRecipient(s1, k, cid);
    }
    forall d ensures Log(s'.out, d) == Log(s.out, d) + if Among(s.slots, i, reach, cid, d) then [text] else [] {
      AmongNext(s.slots, i, reach, cid, d);
      if s.slots[i] == Ptr(d) {
        NotAgain(s.slots, i, reach, d);
      }
    }
  }

  lemma PassedSlot(s: State, t: Thread, cid: int, text: string, i: nat, ret: Loc, a: Action)
    requires AtSlot(s, t, cid, text, i, ret) && i < |s.slots| && a.Scan? && a.thread == t
    requires IsRecipient(s, i, cid) ==> a.writeOk
    ensures Enabled(s, a) && Passed(s, t, cid, text, i, ret, Step(s, a))
  {
    if IsRecipient(s, i, cid) {
      forall d ensures Log(Step(s, a).out, d) == Log(s.out, d) + if s.slots[i] == Ptr(d) then [text] else [] {
        SuccessfulWrite(s, t, cid, text, i, ret, d);
      }
      SuccessfulWrite(s, t, cid, text, i, ret, s.slots[i].client);
    } else {
      NoWrite(s, t, cid, text, i, ret, a.writeOk);
    }
  }

  /** The broadcast ends here: a write fails, or the table is at its end. */
  lemma StopsHere(s: State, t: Thread, cid: int, text: string, i: nat, ret: Loc, broken: set<Client>, a: Action)
    requires AtSlot(s, t, cid, text, i, ret) && i <= |s.slots| == MAX_CONNECTIONS && a.Scan? && a.thread == t
    requires i < |s.slots| ==> IsRecipient(s, i, cid) && s.slots[i].client in broken && !a.writeOk
    ensures Enabled(s, a) && BroadcastEnds(s, t, cid, text, i, ret, broken, i, Step(s, a))
  {
    if i < |s.slots| {
      FailedWrite(s, t, cid, text, i, ret);
    } else {
      NoWrite(s, t, cid, text, i, ret, a.writeOk);
    }
    EndsHere(s, t, cid, text, i, ret, broken, Step(s, a));
  }

  /** The first of the iterations, and the others. */
  lemma IterationsSplit(t: Thread, slots: seq<Slot>, i: nat, broken: set<Client>) returns (a: Action)
    requires i <= |slots|
    ensures a.Scan? && a.thread == t && (i < |slots| && slots[i].Ptr? ==> (a.writeOk <==> slots[i].client !in broken))
    ensures Iterations(t, slots, i, broken) == if i == |slots| then [a] else [a] + Iterations(t, slots, i + 1, broken)
  {
    a := Iterations(t, slots, i, broken)[0];
  }

  /** One iteration of the broadcast: its end, or on to the next slot. */
  lemma BroadcastMoves(s: State, t: Thread, cid: int, text: string, i: nat, ret: Loc, broken: set<Client>, a: Action)
    returns (s1: State)
    requires AtSlot(s, t, cid, text, i, ret) && i <= |s.slots| == MAX_CONNECTIONS && a.Scan? && a.thread == t
    requires i < |s.slots| && s.slots[i].Ptr? ==> (a.writeOk <==> s.slots[i].client !in broken)
    ensures Enabled(s, a) && s1 == Step(s, a)
    ensures if i == |s.slots| || (IsRecipient(s, i, cid) && s.slots[i].client in broken)
            then BroadcastEnds(s, t, cid, text, i, ret, broken, i, s1)
            else Passed(s, t, cid, text, i, ret, s1)
  {
    if i == |s.slots| || (IsRecipient(s, i, cid) && s.slots[i].client in broken) {
      StopsHere(s, t, cid, text, i, ret, broken, a);
    } else {
      PassedSlot(s, t, cid, text, i, ret, a);
    }
    s1 := Step(s, a);
  }

  lemma {:induction false} BroadcastFrom(s: State, t: Thread, cid: int, text: string, i: nat, ret: Loc,
                                         broken: set<Client>) returns (n: nat, reach: nat, s': State)
    requires AtSlot(s, t, cid, text, i, ret) && i <= |s.slots| == MAX_CONNECTIONS && Injective(s.slots)
    ensures n <= |Iterations(t, s.slots, i, broken)| && IsRun(s, Iterations(t, s.slots, i, broken)[..n], s')
    ensures BroadcastEnds(s, t, cid, text, i, ret, broken, reach, s')
    decreases |s.slots| - i
  {
    var a := IterationsSplit(t, s.slots, i, broken);
    var s1 := BroadcastMoves(s, t, cid, text, i, ret, broken, a);
    if i == |s.slots| || (IsRecipient(s, i, cid) && s.slots[i].client in broken) {
      n, reach, s' := 1, i, s1;
      FirstIteration(s, a, Iterations(t, s.slots, i, broken));
    } else {
      var m: nat;
      m, reach, s' := BroadcastFrom(s1, t, cid, text, i + 1, ret, broken);
      n := m + 1;
      NextIterations(s, a, Iterations(t, s.slots, i + 1, broken), m, s');
      EndsLater(s, t, cid, text, i, ret, broken, s1, reach, s');
    }
  }

  lemma FirstIteration(s: State, a: Action, all: seq<Action>)
    requires all != [] && all[0] == a && Enabled(s, a)
    ensures IsRun(s, all[..1], Step(s, a))
  {
    assert all[..1] == [a] && [a][1..] == [];
    assert IsRun(Step(s, a), [], Step(s, a));
  }

  lemma NextIterations(s: State, a: Action, rest: seq<Action>, m: nat, s': State)
    requires m <= |rest| && Enabled(s, a) && IsRun(Step(s, a), rest[..m], s')
    ensures IsRun(s, ([a] + rest)[..m + 1], s')
  {
    assert ([a] + rest)[..m + 1] == [a] + rest[..m];
    assert ([a] + rest[..m])[1..] == rest[..m];
  }

  /** A whole broadcast whose writes fail exactly for the broken clients: it reaches the slots before
      the first broken recipient, or all five; nobody from there on gets anything, and everybody of
      another cid before gets the text once. */
  lemma WholeBroadcast(s: State, t: Thread, cid: int, text: string, ret: Loc, broken: set<Client>)
    requires AtSlot(s, t, cid, text, 0, ret) && |s.slots| == MAX_CONNECTIONS && Injective(s.slots)
    ensures exists n: nat, reach: nat, s' ::
      && n <= |Iterations(t, s.slots, 0, broken)| && IsRun(s, Iterations(t, s.slots, 0, broken)[..n], s')
      && BroadcastEnds(s, t, cid, text, 0, ret, broken, reach, s')
  {
    var n, reach, s' := BroadcastFrom(s, t, cid, text, 0, ret, broken);
  }

  // ---------- whole runs ----------

  /** Every write of the step fails exactly if its receiver is broken. */
  predicate FailsFor(s: State, a: Action, broken: set<Client>)
    requires Enabled(s, a)
  {
    a.Scan? && s.locs[a.thread].op.SendOp? && IsRecipient(s, s.locs[a.thread].i, s.locs[a.thread].op.cid) ==>
      (a.writeOk <==> s.slots[s.locs[a.thread].i].client !in broken)
  }

  ghost predicate FailsThroughout(s: State, actions: seq<Action>, s': State, broken: set<Client>)
    requires IsRun(s, actions, s')
    decreases actions
  {
    actions == [] ||
    (FailsFor(s, actions[0], broken) && FailsThroughout(Step(s, actions[0]), actions[1..], s', broken))
  }

  /** The broadcast in progress, if any, has not passed a broken recipient. */
  predicate OnTheWay(slots: seq<Slot>, l: Loc, broken: set<Client>) {
    match l
    case Scanning(SendOp(cid, _), i, _) => i <= Reach(slots, cid, broken)
    case Unlocking(SentEvent(cid, _, reach), _) => reach == Reach(slots, cid, broken)
    case _ => true
  }

  /** Every broadcast of the history got as far as the code on the array does. */
  ghost predicate ReachesKept(h: seq<Event>, broken: set<Client>) {
    forall k :: 0 <= k < |h| && h[k].SentEvent? ==> h[k].reach == Reach(Replay(h[..k]).slots, h[k].cid, broken)
  }

  ghost predicate WritesKept(s: State, broken: set<Client>) {
    && (s.lock.HeldBy? && s.lock.thread in s.locs ==> OnTheWay(s.slots, s.locs[s.lock.thread], broken))
    && ReachesKept(s.history, broken)
    && forall d :: d in broken ==> Log(s.out, d) == []
  }

  lemma NextReach(slots: seq<Slot>, cid: int, broken: set<Client>, i: nat)
    requires i <= Reach(slots, cid, broken) && i < |slots|
    ensures if Receives(slots[i], cid) && slots[i].client in broken then Reach(slots, cid, broken) == i
            else i + 1 <= Reach(slots, cid, broken)
  {
  }

  lemma SendScanKeepsWrites(s: State, t: Thread, ok: bool, broken: set<Client>)
    requires Base(s) && WritesKept(s, broken) && Enabled(s, Scan(t, ok)) && s.locs[t].op.SendOp?
    requires FailsFor(s, Scan(t, ok), broken)
    ensures WritesKept(Step(s, Scan(t, ok)), broken)
  {
    var cid, text, i, ret := s.locs[t].op.cid, s.locs[t].op.text, s.locs[t].i, s.locs[t].ret;
    assert InCritical(s.locs[t]) && s.lock == HeldBy(t) && |s.slots| == MAX_CONNECTIONS;
    ScanFrame(s, t, ok);
    if i < |s.slots| {
      NextReach(s.slots, cid, broken, i);
    }
    if !IsRecipient(s, i, cid) {
      NoWrite(s, t, cid, text, i, ret, ok);
    } else if ok {
      forall d | d in broken ensures Log(Step(s, Scan(t, ok)).out, d) == [] {
        SuccessfulWrite(s, t, cid, text, i, ret, d);
      }
    }
  }

  lemma OtherScanKeepsWrites(s: State, t: Thread, ok: bool, broken: set<Client>)
    requires Base(s) && WritesKept(s, broken) && Enabled(s, Scan(t, ok)) && !s.locs[t].op.SendOp?
    ensures WritesKept(Step(s, Scan(t, ok)), broken)
  {
    assert InCritical(s.locs[t]) && s.lock == HeldBy(t);
    ScanFrame(s, t, ok);
    OnlySendWrites(s, t, ok);
    NoBroadcast(s.slots, s.locs[t].op, Step(s, Scan(t, ok)).locs[t], broken);
    NoBroadcast(Step(s, Scan(t, ok)).slots, s.locs[t].op, Step(s, Scan(t, ok)).locs[t], broken);
  }

  lemma OnlySendWrites(s: State, t: Thread, ok: bool)
    requires Enabled(s, Scan(t, ok)) && !s.locs[t].op.SendOp?
    ensures Step(s, Scan(t, ok)).out == s.out
  {
  }

  lemma NoBroadcast(slots: seq<Slot>, op: Op, l: Loc, broken: set<Client>)
    requires !op.SendOp? && ((l.Scanning? && l.op == op) || (l.Unlocking? && EndsAs(op, l.event)))
    ensures OnTheWay(slots, l, broken)
  {
  }

  lemma ReachesMore(h: seq<Event>, e: Event, broken: set<Client>)
    requires ReachesKept(h, broken)
    requires e.SentEvent? ==> e.reach == Reach(Replay(h).slots, e.cid, broken)
    ensures ReachesKept(h + [e], broken)
  {
    var more := h + [e];
    forall k | 0 <= k < |more| && more[k].SentEvent?
      ensures more[k].reach == Reach(Replay(more[..k]).slots, more[k].cid, broken) {
      assert more[..k] == h[..k];
      assert h[..|h|] == h;
    }
  }

  lemma ReleaseKeepsWrites(s: State, t: Thread, broken: set<Client>)
    requires Base(s) && WritesKept(s, broken) && Enabled(s, Release(t))
    ensures WritesKept(Step(s, Release(t)), broken)
  {
    assert InCritical(s.locs[t]) && s.lock == HeldBy(t);
    ReachesMore(s.history, s.locs[t].event, broken);
  }

  /** Steps that neither scan nor release leave the sockets and the holder alone. */
  lemma OtherStepKeepsWrites(s: State, a: Action, broken: set<Client>)
    requires Base(s) && WritesKept(s, broken) && Enabled(s, a) && !a.Scan? && !a.Release?
    ensures WritesKept(Step(s, a), broken)
  {
    if s.lock.HeldBy? {
      var u := s.lock.thread;
      assert u in s.locs && InCritical(s.locs[u]);
      if a.Spawn? {
        assert Handler(s.locs[Acceptor].client) !in s.locs;
      }
      assert Step(s, a).locs[u] == s.locs[u];
    }
  }

  lemma StepKeepsWrites(s: State, a: Action, broken: set<Client>)
    requires Base(s) && WritesKept(s, broken) && Enabled(s, a) && FailsFor(s, a, broken)
    ensures WritesKept(Step(s, a), broken)
  {
    if a.Release? {
      ReleaseKeepsWrites(s, a.thread, broken);
    } else if !a.Scan? {
      OtherStepKeepsWrites(s, a, broken);
    } else if s.locs[a.thread].op.SendOp? {
      SendScanKeepsWrites(s, a.thread, a.writeOk, broken);
    } else {
      OtherScanKeepsWrites(s, a.thread, a.writeOk, broken);
    }
  }

  lemma {:induction false} RunKeepsWrites(s: State, actions: seq<Action>, s': State, broken: set<Client>)
    requires Good(s) && WritesKept(s, broken) && IsRun(s, actions, s') && FailsThroughout(s, actions, s', broken)
    ensures WritesKept(s', broken)
    decreases actions
  {
    if actions == [] {
    } else {
      StepKeepsGood(s, actions[0]);
      StepKeepsWrites(s, actions[0], broken);
      RunKeepsWrites(Step(s, actions[0]), actions[1..], s', broken);
    }
  }

  lemma InitialKeepsWrites(broken: set<Client>)
    ensures WritesKept(INITIAL, broken)
  {
    assert INITIAL.lock.Unlocked? && INITIAL.history == [] && INITIAL.out == map[];
  }

  lemma NobodyStopsIt(slots: seq<Slot>, cid: int)
    ensures Reach(slots, cid, {}) == |slots|
  {
  }

  lemma NoneBroken(h: seq<Event>)
    requires ReachesKept(h, {})
    ensures forall k :: 0 <= k < |h| && h[k].SentEvent? ==> h[k].reach == 5
  {
    forall k | 0 <= k < |h| && h[k].SentEvent? ensures h[k].reach == 5 {
      NobodyStopsIt(Replay(h[..k]).slots, h[k].cid);
    }
  }

  /** In every interleaving in which writing fails exactly for the broken clients, a broken client is
      never sent anything, and every broadcast reaches the slots before its first broken recipient
      and no others; without broken clients each one goes through the whole table. */
  lemma BrokenSockets(actions: seq<Action>, s: State, broken: set<Client>)
    requires IsRun(INITIAL, actions, s) && FailsThroughout(INITIAL, actions, s, broken)
    ensures forall d :: d in broken ==> Log(s.out, d) == []
    ensures ReachesKept(s.history, broken)
    ensures broken == {} ==> forall k :: 0 <= k < |s.history| && s.history[k].SentEvent? ==> s.history[k].reach == 5
  {
    InitialIsGood();
    InitialKeepsWrites(broken);
    RunKeepsWrites(INITIAL, actions, s, broken);
    if broken == {} {
      NoneBroken(s.history);
    }
  }
}
