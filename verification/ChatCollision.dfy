/** The assumption of distinct live cids is needed: an interleaving in which two live clients drew
    the same cid leaves a freed record in the table. */
module ChatCollision {
  import opened ClientTable
  import opened ChatServer

  ghost predicate Reaches(s: State, s': State) {
    exists actions: seq<Action> :: IsRun(s, actions, s')
  }

  lemma Then(s: State, m: State, s': State)
    requires Reaches(s, m) && Reaches(m, s')
    ensures Reaches(s, s')
  {
    var a :| IsRun(s, a, m);
    var b :| IsRun(m, b, s');
    RunThenRun(s, a, m, b, s');
  }

  lemma OneStep(s: State, a: Action)
    requires Enabled(s, a)
    ensures Reaches(s, Step(s, a))
  {
    var s' := Step(s, a);
    assert [a][1..] == [];
    assert IsRun(s', [], s');
    assert IsRun(s, [a], s');
  }

  /** s at its k-th successor: one step, then whatever is reached from there. */
  lemma StepThen(s: State, a: Action, s': State)
    requires Enabled(s, a) && Reaches(Step(s, a), s')
    ensures Reaches(s, s')
  {
    OneStep(s, a);
    Then(s, Step(s, a), s');
  }

  lemma Here(s: State)
    ensures Reaches(s, s)
  {
    assert IsRun(s, [], s);
  }

  lemma GotoTwice(s: State, t: Thread, l1: Loc, l2: Loc)
    ensures Goto(Goto(s, t, l1), t, l2) == Goto(s, t, l2)
  {
    assert s.locs[t := l1][t := l2] == s.locs[t := l2];
  }

  // ---------- critical sections run to their end without interruption ----------

  lemma {:induction false} ScanAdd(s: State, t: Thread, c: Client, i: nat, ret: Loc)
    requires t in s.locs && s.locs[t] == Scanning(AddOp(c), i, ret) && i <= FirstFree(s.slots) < |s.slots|
    ensures Reaches(s, Goto(s, t, Unlocking(AddedEvent(c), ret)).(slots := Added(s.slots, c)))
    decreases FirstFree(s.slots) - i
  {
    var end := Goto(s, t, Unlocking(AddedEvent(c), ret)).(slots := Added(s.slots, c));
    var s1 := Step(s, Scan(t, true));
    if i == FirstFree(s.slots) {
      Here(end);
    } else {
      ScanAdd(s1, t, c, i + 1, ret);
      GotoTwice(s, t, Scanning(AddOp(c), i + 1, ret), Unlocking(AddedEvent(c), ret));
    }
    StepThen(s, Scan(t, true), end);
  }

  lemma {:induction false} ScanRemove(s: State, t: Thread, cid: int, i: nat, ret: Loc)
    requires t in s.locs && s.locs[t] == Scanning(RemoveOp(cid), i, ret) && i <= FirstHolding(s.slots, cid) < |s.slots|
    requires s.freed == {}
    ensures Reaches(s, Goto(s, t, Unlocking(RemovedEvent(cid), ret)).(slots := Removed(s.slots, cid)))
    decreases FirstHolding(s.slots, cid) - i
  {
    var end := Goto(s, t, Unlocking(RemovedEvent(cid), ret)).(slots := Removed(s.slots, cid));
    var s1 := Step(s, Scan(t, true));
    if i == FirstHolding(s.slots, cid) {
      Here(end);
    } else {
      ScanRemove(s1, t, cid, i + 1, ret);
      GotoTwice(s, t, Scanning(RemoveOp(cid), i + 1, ret), Unlocking(RemovedEvent(cid), ret));
    }
    StepThen(s, Scan(t, true), end);
  }

  /** A broadcast among clients that all have the sender's cid writes nothing. */
  lemma {:induction false} ScanSendToNobody(s: State, t: Thread, cid: int, text: string, i: nat, ret: Loc)
    requires t in s.locs && s.locs[t] == Scanning(SendOp(cid, text), i, ret) && i <= |s.slots| == MAX_CONNECTIONS
    requires s.freed == {} && forall k :: 0 <= k < |s.slots| ==> !Receives(s.slots[k], cid)
    ensures Reaches(s, Goto(s, t, Unlocking(SentEvent(cid, text, MAX_CONNECTIONS), ret)))
    decreases |s.slots| - i
  {
    var end := Goto(s, t, Unlocking(SentEvent(cid, text, MAX_CONNECTIONS), ret));
    var s1 := Step(s, Scan(t, true));
    if i == |s.slots| {
      Here(end);
    } else {
      assert !Receives(s.slots[i], cid);
      ScanSendToNobody(s1, t, cid, text, i + 1, ret);
      GotoTwice(s, t, Scanning(SendOp(cid, text), i + 1, ret), Unlocking(SentEvent(cid, text, MAX_CONNECTIONS), ret));
    }
    StepThen(s, Scan(t, true), end);
  }

  // ---------- what single threads can do while nobody else moves ----------

  function AfterAccept(s: State, c: Client): State {
    s.(slots := Added(s.slots, c), history := s.history + [AddedEvent(c)],
       locs := s.locs[Acceptor := Accepting][Handler(c) := Greeting],
       created := s.created + {c}, nextId := s.nextId + 1)
  }

  lemma AcceptOne(s: State, c: Client)
    requires Acceptor in s.locs && s.locs[Acceptor].Accepting? && s.lock.Unlocked?
    requires FirstFree(s.slots) < |s.slots| && c.id == s.nextId
    ensures Reaches(s, AfterAccept(s, c))
  {
    var s1 := Step(s, Accept(c.cid));
    var s2 := Step(s1, TakeLock(Acceptor));
    var s3 := Goto(s2, Acceptor, Unlocking(AddedEvent(c), Spawning(c))).(slots := Added(s2.slots, c));
    var s4 := Step(s3, Release(Acceptor));
    assert AfterAccept(s, c).locs == Step(s4, Spawn).locs;
    assert AfterAccept(s, c) == Step(s4, Spawn);
    OneStep(s4, Spawn);
    StepThen(s3, Release(Acceptor), AfterAccept(s, c));
    ScanAdd(s2, Acceptor, c, 0, Spawning(c));
    Then(s2, s3, AfterAccept(s, c));
    StepThen(s1, TakeLock(Acceptor), AfterAccept(s, c));
    StepThen(s, Accept(c.cid), AfterAccept(s, c));
  }

  function AfterHello(s: State, c: Client, name: string): State {
    Goto(s, Handler(c), Serving(name, false)).(
      history := s.history + [SentEvent(c.cid, name + " has joined\n", MAX_CONNECTIONS)])
  }

  lemma HelloToNobody(s: State, c: Client, name: string)
    requires Handler(c) in s.locs && s.locs[Handler(c)].Greeting? && s.lock.Unlocked? && |s.slots| == MAX_CONNECTIONS
    requires s.freed == {} && forall k :: 0 <= k < |s.slots| ==> !Receives(s.slots[k], c.cid)
    ensures Reaches(s, AfterHello(s, c, name))
  {
    var t, text, ret := Handler(c), name + " has joined\n", Serving(name, false);
    var s1 := Step(s, Hello(c, name));
    var s2 := Step(s1, TakeLock(t));
    var s3 := Goto(s2, t, Unlocking(SentEvent(c.cid, text, MAX_CONNECTIONS), ret));
    assert Step(s3, Release(t)).locs == AfterHello(s, c, name).locs;
    assert Step(s3, Release(t)) == AfterHello(s, c, name);
    OneStep(s3, Release(t));
    ScanSendToNobody(s2, t, c.cid, text, 0, ret);
    Then(s2, s3, AfterHello(s, c, name));
    StepThen(s1, TakeLock(t), AfterHello(s, c, name));
    StepThen(s, Hello(c, name), AfterHello(s, c, name));
  }

  /** A handler whose receive fails leaves, removes by its cid and frees its own record. */
  function AfterDeparture(s: State, c: Client): State {
    Goto(s, Handler(c), Finished).(slots := Removed(s.slots, c.cid),
      history := s.history + [RemovedEvent(c.cid)], freed := s.freed + {c})
  }

  /** The handler's way to its removal loop. */
  function BeforeRemoval(s: State, c: Client): State {
    Goto(s, Handler(c), Scanning(RemoveOp(c.cid), 0, Freeing)).(lock := HeldBy(Handler(c)))
  }

  lemma DepartToLock(s: State, c: Client)
    requires Handler(c) in s.locs && s.locs[Handler(c)].Serving? && !s.locs[Handler(c)].leave && s.lock.Unlocked?
    ensures Reaches(s, BeforeRemoval(s, c))
  {
    var t, end := Handler(c), BeforeRemoval(s, c);
    var s1 := Step(s, Receive(c, Error));
    var s2 := Step(s1, Leave(c));
    var s3 := Step(s2, CallRemove(c));
    assert Step(s3, TakeLock(t)).locs == end.locs;
    assert Step(s3, TakeLock(t)) == end;
    OneStep(s3, TakeLock(t));
    StepThen(s2, CallRemove(c), end);
    StepThen(s1, Leave(c), end);
    StepThen(s, Receive(c, Error), end);
  }

  lemma Depart(s: State, c: Client)
    requires Handler(c) in s.locs && s.locs[Handler(c)].Serving? && !s.locs[Handler(c)].leave && s.lock.Unlocked?
    requires FirstHolding(s.slots, c.cid) < |s.slots| && s.freed == {}
    ensures Reaches(s, AfterDeparture(s, c))
  {
    var t, end := Handler(c), AfterDeparture(s, c);
    var s4 := BeforeRemoval(s, c);
    var s5 := Goto(s4, t, Unlocking(RemovedEvent(c.cid), Freeing)).(slots := Removed(s4.slots, c.cid));
    var s6 := Step(s5, Release(t));
    assert Step(s6, Free(c)).locs == end.locs;
    assert Step(s6, Free(c)) == end;
    OneStep(s6, Free(c));
    StepThen(s5, Release(t), end);
    ScanRemove(s4, t, c.cid, 0, Freeing);
    Then(s4, s5, end);
    DepartToLock(s, c);
    Then(s, s4, end);
  }

  // ---------- the interleaving ----------

  lemma SlotsOfTwo(a: Client, b: Client)
    requires a.cid == b.cid
    ensures Added(EMPTY, a) == [Ptr(a), Null, Null, Null, Null]
    ensures Added([Ptr(a), Null, Null, Null, Null], b) == [Ptr(a), Ptr(b), Null, Null, Null]
    ensures Removed([Ptr(a), Ptr(b), Null, Null, Null], b.cid) == [Null, Ptr(b), Null, Null, Null]
  {
  }

  lemma BothAccepted(a: Client, b: Client, s: State)
    requires a.id == 0 && b.id == 1 && a.cid == b.cid && s == AfterAccept(AfterAccept(INITIAL, a), b)
    ensures Reaches(INITIAL, s)
    ensures s.slots == [Ptr(a), Ptr(b), Null, Null, Null] && s.lock.Unlocked? && s.freed == {}
    ensures Handler(b) in s.locs && s.locs[Handler(b)].Greeting?
  {
    SlotsOfTwo(a, b);
    AcceptOne(INITIAL, a);
    AcceptOne(AfterAccept(INITIAL, a), b);
    Then(INITIAL, AfterAccept(INITIAL, a), s);
  }

  /** c is freed and still in the table; d, with the same cid, is alive and has lost its slot. */
  predicate Confused(s: State, c: Client, d: Client) {
    && s.lock.Unlocked? && c.cid == d.cid
    && Ptr(c) in s.slots && c in s.freed
    && Ptr(d) !in s.slots && d in s.created && d !in s.freed
  }

  /** Two clients accepted with one cid; the second one leaves. Its removal clears the slot of the
      first, its own slot stays, and it frees its record. */
  lemma CollidingCidsLeaveFreedRecord(cid: int)
    ensures exists actions, s, c, d :: IsRun(INITIAL, actions, s) && Confused(s, c, d)
  {
    var a, b := Client(0, cid), Client(1, cid);
    var s2 := AfterAccept(AfterAccept(INITIAL, a), b);
    var s3 := AfterHello(s2, b, "x");
    var s4 := AfterDeparture(s3, b);
    BothAccepted(a, b, s2);
    HelloToNobody(s2, b, "x");
    Then(INITIAL, s2, s3);
    Depart(s3, b);
    Then(INITIAL, s3, s4);
    SlotsOfTwo(a, b);
    assert s4.slots[1] == Ptr(b) && b in s4.freed;
    assert s4.freed == {b} && s4.created == {a, b};
    assert Confused(s4, b, a);
  }
}
