/** When a handler of the chat server leaves: exactly after the end of its client's stream or a failed
    receive, and then it goes on to remove the client and to end. */
module ChatDeparture {
  import opened ClientTable
  import opened ChatServer
  import opened ChatIdentity
  import opened ChatAtomicity
  import opened ChatDelivery
  import opened ChatConversation

  /** The receive that tells a handler to leave. */
  predicate Ends(a: Action, c: Client) {
    a == Receive(c, Eof) || a == Receive(c, Error)
  }

  predicate EndSeen(actions: seq<Action>, c: Client) {
    exists k :: 0 <= k < |actions| && Ends(actions[k], c)
  }

  /** The leave flag is set, or the loop is left already. */
  predicate IsLeaving(l: Loc) {
    match l
    case Serving(_, leave) => leave
    case Locking(_, ret) => ret == Freeing || (ret.Serving? && ret.leave)
    case Scanning(_, _, ret) => ret == Freeing || (ret.Serving? && ret.leave)
    case Unlocking(_, ret) => ret == Freeing || (ret.Serving? && ret.leave)
    case _ => l.Closing? || l.Freeing? || l.Finished?
  }

  predicate Leaves(s: State, c: Client) {
    Handler(c) in s.locs && IsLeaving(s.locs[Handler(c)])
  }

  // ---------- who leaves ----------

  lemma OtherStepLeaves(s: State, a: Action, c: Client)
    requires Identity(s) && Enabled(s, a) && !Concerns(a, c)
    ensures Leaves(Step(s, a), c) <==> Leaves(s, c)
  {
    if a.Scan? {
      ScanFrame(s, a.thread, a.writeOk);
    } else if a.Spawn? {
      assert Handler(s.locs[Acceptor].client) !in s.locs;
    }
  }

  lemma OwnScanLeaves(s: State, ok: bool, c: Client)
    requires Enabled(s, Scan(Handler(c), ok))
    ensures Leaves(Step(s, Scan(Handler(c), ok)), c) <==> Leaves(s, c)
  {
    ScanFrame(s, Handler(c), ok);
  }

  lemma OwnStepLeaves(s: State, a: Action, c: Client)
    requires Identity(s) && Enabled(s, a) && Concerns(a, c) && !a.Scan?
    ensures Leaves(Step(s, a), c) <==> Leaves(s, c) || Ends(a, c)
  {
    assert HandlerLoc(c, s.locs[Handler(c)]);
  }

  lemma StepLeaves(s: State, a: Action, c: Client)
    requires Identity(s) && Enabled(s, a)
    ensures Leaves(Step(s, a), c) <==> Leaves(s, c) || Ends(a, c)
    ensures Leaves(s, c) ==> !(a.Receive? && a.client == c)
  {
    if !Concerns(a, c) {
      OtherStepLeaves(s, a, c);
    } else if a.Scan? {
      OwnScanLeaves(s, a.writeOk, c);
    } else {
      OwnStepLeaves(s, a, c);
    }
  }

  lemma EndSeenFirst(a: Action, rest: seq<Action>, c: Client)
    ensures EndSeen([a] + rest, c) <==> Ends(a, c) || EndSeen(rest, c)
  {
    if Ends(a, c) {
      assert Ends(([a] + rest)[0], c);
    }
    if EndSeen(rest, c) {
      var k :| 0 <= k < |rest| && Ends(rest[k], c);
      assert ([a] + rest)[k + 1] == rest[k];
    }
  }

  lemma {:induction false} RunLeaves(s: State, actions: seq<Action>, s': State, c: Client)
    requires Identity(s) && IsRun(s, actions, s')
    ensures Leaves(s', c) <==> Leaves(s, c) || EndSeen(actions, c)
    decreases actions
  {
    if actions == [] {
    } else {
      StepKeepsIdentity(s, actions[0]);
      StepLeaves(s, actions[0], c);
      RunLeaves(Step(s, actions[0]), actions[1..], s', c);
      EndSeenFirst(actions[0], actions[1..], c);
      assert actions == [actions[0]] + actions[1..];
    }
  }

  /** In every interleaving: a handler has its leave flag set, or is past its loop, if and only if its
      client's stream has ended or a receive has failed; received data never makes it leave. */
  lemma LeavesIffEnded(actions: seq<Action>, s: State, c: Client)
    requires IsRun(INITIAL, actions, s)
    ensures Leaves(s, c) <==> EndSeen(actions, c)
  {
    RunLeaves(INITIAL, actions, s, c);
  }

  lemma {:induction false} NoReceiveWhileLeaving(s: State, actions: seq<Action>, s': State, c: Client, j: nat)
    requires Identity(s) && IsRun(s, actions, s') && j < |actions|
    requires Leaves(s, c) || EndSeen(actions[..j], c)
    ensures !(actions[j].Receive? && actions[j].client == c)
    decreases actions
  {
    StepKeepsIdentity(s, actions[0]);
    StepLeaves(s, actions[0], c);
    if j > 0 {
      assert actions[..j] == [actions[0]] + actions[1..][..j - 1];
      EndSeenFirst(actions[0], actions[1..][..j - 1], c);
      NoReceiveWhileLeaving(Step(s, actions[0]), actions[1..], s', c, j - 1);
    } else {
      assert actions[..0] == [];
    }
  }

  /** Nothing is received for a client after the end of its stream or a failed receive. */
  lemma NothingReceivedAfterEnd(actions: seq<Action>, s: State, c: Client, i: nat, j: nat)
    requires IsRun(INITIAL, actions, s) && i < j < |actions| && Ends(actions[i], c)
    ensures !(actions[j].Receive? && actions[j].client == c)
  {
    assert actions[..j][i] == actions[i];
    NoReceiveWhileLeaving(INITIAL, actions, s, c, j);
  }

  /** As long as the handler does not leave, it comes back to its loop: between two sections it is
      ready to receive. */
  lemma ReadyUnlessLeaving(actions: seq<Action>, s: State, c: Client, input: Input)
    requires IsRun(INITIAL, actions, s) && Handler(c) in s.locs && s.locs[Handler(c)].Serving?
    ensures Enabled(s, Receive(c, input)) <==> !EndSeen(actions, c)
    ensures Enabled(s, Leave(c)) <==> EndSeen(actions, c)
  {
    LeavesIffEnded(actions, s, c);
  }

  // ---------- the way out ----------

  predicate ByOwn(actions: seq<Action>, c: Client) {
    forall k :: 0 <= k < |actions| ==> Concerns(actions[k], c)
  }

  /** The removal of c is recorded. */
  predicate Recorded(h: seq<Event>, c: Client) {
    RemovedEvent(c.cid) in h
  }

  /** Whoever is past its removal section has it in the history. */
  ghost predicate DeparturesRecorded(s: State) {
    forall c :: Handler(c) in s.locs && (s.locs[Handler(c)].Freeing? || s.locs[Handler(c)].Finished?) ==>
      Recorded(s.history, c)
  }

  lemma ReleaseRecords(s: State, t: Thread, c: Client)
    requires Identity(s) && DeparturesRecorded(s) && Enabled(s, Release(t))
    requires var s' := Step(s, Release(t));
      Handler(c) in s'.locs && (s'.locs[Handler(c)].Freeing? || s'.locs[Handler(c)].Finished?)
    ensures Recorded(Step(s, Release(t)).history, c)
  {
    var e := s.locs[t].event;
    assert s.history + [e] == Step(s, Release(t)).history;
    if t == Handler(c) {
      assert HandlerLoc(c, s.locs[t]);
      assert (s.history + [e])[|s.history|] == RemovedEvent(c.cid);
    }
  }

  lemma StepRecords(s: State, a: Action)
    requires Identity(s) && DeparturesRecorded(s) && Enabled(s, a)
    ensures DeparturesRecorded(Step(s, a))
  {
    if a.Release? {
      forall c | Handler(c) in Step(s, a).locs
          && (Step(s, a).locs[Handler(c)].Freeing? || Step(s, a).locs[Handler(c)].Finished?)
        ensures Recorded(Step(s, a).history, c) {
        ReleaseRecords(s, a.thread, c);
      }
    } else {
      HistoryGrowsOnRelease(s, a);
      if a.Scan? {
        ScanFrame(s, a.thread, a.writeOk);
      }
    }
  }

  lemma {:induction false} RunRecords(s: State, actions: seq<Action>, s': State)
    requires Identity(s) && DeparturesRecorded(s) && IsRun(s, actions, s')
    ensures DeparturesRecorded(s')
    decreases actions
  {
    if actions == [] {
    } else {
      StepKeepsIdentity(s, actions[0]);
      StepRecords(s, actions[0]);
      RunRecords(Step(s, actions[0]), actions[1..], s');
    }
  }

  /** The handler's own steps lead from s to s'. */
  ghost predicate OwnRun(s: State, c: Client, bound: nat, s': State) {
    exists actions: seq<Action> :: ByOwn(actions, c) && |actions| <= bound && IsRun(s, actions, s')
  }

  lemma OwnStay(s: State, c: Client)
    ensures OwnRun(s, c, 0, s)
  {
    assert ByOwn([], c) && IsRun(s, [], s);
  }

  lemma OwnThen(s: State, c: Client, m: nat, s1: State, n: nat, s': State)
    requires OwnRun(s, c, m, s1) && OwnRun(s1, c, n, s')
    ensures OwnRun(s, c, m + n, s')
  {
    var a :| ByOwn(a, c) && |a| <= m && IsRun(s, a, s1);
    var b :| ByOwn(b, c) && |b| <= n && IsRun(s1, b, s');
    RunThenRun(s, a, s1, b, s');
    assert ByOwn(a + b, c);
  }

  lemma OwnStepThen(s: State, c: Client, a: Action, n: nat, s': State)
    requires Enabled(s, a) && Concerns(a, c) && OwnRun(Step(s, a), c, n, s')
    ensures OwnRun(s, c, n + 1, s')
  {
    assert [a][1..] == [] && IsRun(Step(s, a), [], Step(s, a));
    assert IsRun(s, [a], Step(s, a)) && ByOwn([a], c);
    assert OwnRun(s, c, 1, Step(s, a));
    OwnThen(s, c, 1, Step(s, a), n, s');
  }

  lemma {:induction false} OwnStepsByOwn(c: Client, writes: seq<bool>)
    ensures ByOwn(OwnSteps(Handler(c), writes), c) && |OwnSteps(Handler(c), writes)| == |writes| + 1
  {
    if writes == [] {
    } else {
      OwnStepsByOwn(c, writes[1..]);
    }
  }

  /** A section under way is finished by its own steps. */
  lemma FinishSection(s: State, c: Client, writes: seq<bool>) returns (s': State)
    requires Midway(s, Handler(c)) && |writes| == MAX_CONNECTIONS + 1
    ensures OwnRun(s, c, MAX_CONNECTIONS + 2, s') && SectionDone(s, Handler(c), s')
  {
    var n: nat;
    n, s' := HolderFinishes(s, Handler(c), writes);
    OwnStepsByOwn(c, writes[..n]);
  }

  /** A section that the handler wants to enter, with the mutex free. */
  lemma EnterAndFinish(s: State, c: Client, writes: seq<bool>) returns (s': State)
    requires Handler(c) in s.locs && s.locs[Handler(c)].Locking? && s.lock.Unlocked?
    requires |s.slots| == MAX_CONNECTIONS == |writes| - 1
    ensures OwnRun(s, c, MAX_CONNECTIONS + 3, s')
    ensures s'.lock.Unlocked? && s'.locs == s.locs[Handler(c) := s.locs[Handler(c)].ret]
    ensures |s'.history| == |s.history| + 1 && EndsAs(s.locs[Handler(c)].op, s'.history[|s.history|])
  {
    var s1 := Step(s, TakeLock(Handler(c)));
    s' := FinishSection(s1, c, writes);
    OwnStepThen(s, c, TakeLock(Handler(c)), MAX_CONNECTIONS + 2, s');
    assert s1.locs[Handler(c) := s.locs[Handler(c)].ret] == s.locs[Handler(c) := s.locs[Handler(c)].ret];
  }

  /** What is to be reached: the handler has ended and its removal is recorded. */
  predicate Departed(s: State, c: Client) {
    Handler(c) in s.locs && s.locs[Handler(c)] == Finished && Recorded(s.history, c)
  }

  lemma FreeAndFinish(s: State, c: Client)
    requires Handler(c) in s.locs && s.locs[Handler(c)].Freeing? && Recorded(s.history, c)
    ensures OwnRun(s, c, 1, Step(s, Free(c))) && Departed(Step(s, Free(c)), c)
  {
    OwnStay(Step(s, Free(c)), c);
    OwnStepThen(s, c, Free(c), 0, Step(s, Free(c)));
  }

  lemma RemoveAndFinish(s: State, c: Client, writes: seq<bool>) returns (s': State)
    requires Handler(c) in s.locs && s.locs[Handler(c)] == Locking(RemoveOp(c.cid), Freeing) && s.lock.Unlocked?
    requires |s.slots| == MAX_CONNECTIONS == |writes| - 1
    ensures OwnRun(s, c, MAX_CONNECTIONS + 4, s') && Departed(s', c)
  {
    var s1 := EnterAndFinish(s, c, writes);
    assert s1.history[|s.history|] == RemovedEvent(c.cid);
    FreeAndFinish(s1, c);
    s' := Step(s1, Free(c));
    OwnThen(s, c, MAX_CONNECTIONS + 3, s1, 1, s');
  }

  lemma LeaveAndFinish(s: State, c: Client, writes: seq<bool>) returns (s': State)
    requires Handler(c) in s.locs && s.locs[Handler(c)].Serving? && s.locs[Handler(c)].leave && s.lock.Unlocked?
    requires |s.slots| == MAX_CONNECTIONS == |writes| - 1
    ensures OwnRun(s, c, MAX_CONNECTIONS + 6, s') && Departed(s', c)
  {
    var s1 := Step(s, Leave(c));
    s' := CloseAndFinish(s1, c, writes);
    OwnStepThen(s, c, Leave(c), MAX_CONNECTIONS + 5, s');
  }

  lemma CloseAndFinish(s: State, c: Client, writes: seq<bool>) returns (s': State)
    requires Handler(c) in s.locs && s.locs[Handler(c)].Closing? && s.lock.Unlocked?
    requires |s.slots| == MAX_CONNECTIONS == |writes| - 1
    ensures OwnRun(s, c, MAX_CONNECTIONS + 5, s') && Departed(s', c)
  {
    var s1 := Step(s, CallRemove(c));
    s' := RemoveAndFinish(s1, c, writes);
    OwnStepThen(s, c, CallRemove(c), MAX_CONNECTIONS + 4, s');
  }

  lemma OwnRunKeepsGood(s: State, c: Client, n: nat, s': State)
    requires Good(s) && OwnRun(s, c, n, s')
    ensures Good(s')
  {
    var actions :| ByOwn(actions, c) && |actions| <= n && IsRun(s, actions, s');
    RunKeepsGood(s, actions, s');
  }

  /** From a section that is to return to the loop. */
  lemma SectionAndLeave(s: State, c: Client, writes: seq<bool>, s1: State) returns (s': State)
    requires Good(s) && OwnRun(s, c, MAX_CONNECTIONS + 3, s1) && s1.lock.Unlocked?
    requires Handler(c) in s1.locs && s1.locs[Handler(c)].Serving? && s1.locs[Handler(c)].leave
    requires |writes| == MAX_CONNECTIONS + 1
    ensures OwnRun(s, c, 2 * MAX_CONNECTIONS + 9, s') && Departed(s', c)
  {
    OwnRunKeepsGood(s, c, MAX_CONNECTIONS + 3, s1);
    s' := LeaveAndFinish(s1, c, writes);
    OwnThen(s, c, MAX_CONNECTIONS + 3, s1, MAX_CONNECTIONS + 6, s');
  }

  lemma OwnRunLonger(s: State, c: Client, m: nat, n: nat, s': State)
    requires OwnRun(s, c, m, s') && m <= n
    ensures OwnRun(s, c, n, s')
  {
  }

  lemma FromWaiting(s: State, c: Client, writes: seq<bool>) returns (s': State)
    requires Good(s) && Leaves(s, c) && s.locs[Handler(c)].Locking? && s.lock.Unlocked?
    requires |writes| == MAX_CONNECTIONS + 1
    ensures OwnRun(s, c, 2 * MAX_CONNECTIONS + 9, s') && Departed(s', c)
  {
    assert HandlerLoc(c, s.locs[Handler(c)]);
    if s.locs[Handler(c)].ret == Freeing {
      s' := RemoveAndFinish(s, c, writes);
      OwnRunLonger(s, c, MAX_CONNECTIONS + 4, 2 * MAX_CONNECTIONS + 9, s');
    } else {
      var s1 := EnterAndFinish(s, c, writes);
      s' := SectionAndLeave(s, c, writes, s1);
    }
  }

  lemma FromSection(s: State, c: Client, writes: seq<bool>) returns (s': State)
    requires Good(s) && Leaves(s, c) && s.lock == HeldBy(Handler(c))
    requires |writes| == MAX_CONNECTIONS + 1
    ensures OwnRun(s, c, 2 * MAX_CONNECTIONS + 9, s') && Departed(s', c)
  {
    HolderIsMidway(s);
    assert HandlerLoc(c, s.locs[Handler(c)]);
    var s1 := FinishSection(s, c, writes);
    if s.locs[Handler(c)].ret == Freeing {
      assert s1.history[|s.history|] == RemovedEvent(c.cid);
      FreeAndFinish(s1, c);
      s' := Step(s1, Free(c));
      OwnThen(s, c, MAX_CONNECTIONS + 2, s1, 1, s');
      OwnRunLonger(s, c, MAX_CONNECTIONS + 3, 2 * MAX_CONNECTIONS + 9, s');
    } else {
      OwnRunLonger(s, c, MAX_CONNECTIONS + 2, MAX_CONNECTIONS + 3, s1);
      s' := SectionAndLeave(s, c, writes, s1);
    }
  }

  lemma FromOutside(s: State, c: Client, writes: seq<bool>) returns (s': State)
    requires Good(s) && DeparturesRecorded(s) && Leaves(s, c) && s.lock.Unlocked?
    requires !s.locs[Handler(c)].Locking? && !InCritical(s.locs[Handler(c)])
    requires |writes| == MAX_CONNECTIONS + 1
    ensures OwnRun(s, c, MAX_CONNECTIONS + 6, s') && Departed(s', c)
  {
    var l := s.locs[Handler(c)];
    if l.Serving? {
      s' := LeaveAndFinish(s, c, writes);
    } else if l.Closing? {
      s' := CloseAndFinish(s, c, writes);
      OwnRunLonger(s, c, MAX_CONNECTIONS + 5, MAX_CONNECTIONS + 6, s');
    } else if l.Freeing? {
      FreeAndFinish(s, c);
      s' := Step(s, Free(c));
      OwnRunLonger(s, c, 1, MAX_CONNECTIONS + 6, s');
    } else {
      s' := s;
      OwnStay(s, c);
      OwnRunLonger(s, c, 0, MAX_CONNECTIONS + 6, s');
    }
  }

  /** In every interleaving, once a client's stream has ended or a receive has failed: whenever its
      handler has the mutex or can get it, at most 19 steps of its own lead to its end, with its
      removal in the history, whatever becomes of its writes. */
  lemma DepartureCompletes(actions: seq<Action>, s: State, c: Client, writes: seq<bool>)
    requires IsRun(INITIAL, actions, s) && EndSeen(actions, c)
    requires (s.lock.Unlocked? || s.lock == HeldBy(Handler(c))) && |writes| == MAX_CONNECTIONS + 1
    ensures exists s' :: OwnRun(s, c, 19, s') && Departed(s', c)
  {
    InitialIsGood();
    RunKeepsGood(INITIAL, actions, s);
    RunRecords(INITIAL, actions, s);
    LeavesIffEnded(actions, s, c);
    var s': State;
    if s.lock.HeldBy? {
      s' := FromSection(s, c, writes);
    } else if s.locs[Handler(c)].Locking? {
      s' := FromWaiting(s, c, writes);
    } else {
      s' := FromOutside(s, c, writes);
      OwnRunLonger(s, c, MAX_CONNECTIONS + 6, 19, s');
    }
  }
}
