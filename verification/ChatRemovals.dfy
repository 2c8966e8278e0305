/** When the removal of one chat client leaves the slots of all others alone: exactly in the runs in
    which nobody starts its removal while another client stands first under its cid. */
module ChatRemovals {
  import opened ClientTable
  import opened ChatServer
  import opened ChatIdentity
  import opened ChatAtomicity
  import opened ChatDelivery
  import opened ChatGuards

  /** The guard, read when the handler takes the lock to remove itself. */
  predicate Unpreceded(s: State, a: Action) {
    (a.TakeLock? && a.thread.Handler? && a.thread in s.locs && RunsRemoval(s.locs[a.thread])) ==>
      NoNamesakeFirst(s.slots, a.thread.client)
  }

  /** Nobody leaves the table in this step but by the removal of its own handler. */
  ghost predicate LeavesByItself(s: State, a: Action)
    requires Enabled(s, a)
  {
    forall d :: Ptr(d) in s.slots && Ptr(d) !in Step(s, a).slots ==> a.Scan? && a.thread == Handler(d)
  }

  predicate Removing(s: State, c: Client) {
    Handler(c) in s.locs && s.locs[Handler(c)].Scanning? && RunsRemoval(s.locs[Handler(c)])
  }

  ghost predicate RemovalsUnpreceded(s: State) {
    forall c :: Removing(s, c) ==> NoNamesakeFirst(s.slots, c)
  }

  // ---------- steps ----------

  lemma AddingRemovesNobody(s: State, t: Thread, c: Client, i: nat, ret: Loc, d: Client)
    requires i < |s.slots| && Ptr(d) in s.slots
    ensures Ptr(d) in ScannedAdd(s, t, c, i, ret).slots
  {
    var k :| 0 <= k < |s.slots| && s.slots[k] == Ptr(d);
    assert ScannedAdd(s, t, c, i, ret).slots[k] == Ptr(d);
  }

  /** Only a removal takes anybody out of the table. */
  lemma OnlyRemovalsRemove(s: State, a: Action, d: Client)
    requires Enabled(s, a) && Ptr(d) in s.slots && Ptr(d) !in Step(s, a).slots
    ensures a.Scan? && s.locs[a.thread].op.RemoveOp?
  {
    if a.Scan? && s.locs[a.thread].op.AddOp? && s.locs[a.thread].i < |s.slots| {
      AddingRemovesNobody(s, a.thread, s.locs[a.thread].op.client, s.locs[a.thread].i, s.locs[a.thread].ret, d);
    }
  }

  lemma RemovalLeavesByItself(s: State, c: Client, ok: bool)
    requires Base(s) && Removing(s, c) && Enabled(s, Scan(Handler(c), ok))
    ensures var s' := Step(s, Scan(Handler(c), ok));
      if Removing(s', c) then s'.slots == s.slots
      else LeavesByItself(s, Scan(Handler(c), ok)) <==> NoNamesakeFirst(s.slots, c)
  {
    RemovalIteration(s, c, ok, Step(s, Scan(Handler(c), ok)));
    RemovesOnlyOwnIff(s.slots, c);
  }

  lemma StepLeavesByItself(s: State, a: Action)
    requires Base(s) && RemovalsUnpreceded(s) && Enabled(s, a)
    ensures LeavesByItself(s, a)
  {
    forall d | Ptr(d) in s.slots && Ptr(d) !in Step(s, a).slots ensures a.Scan? && a.thread == Handler(d) {
      OnlyRemovalsRemove(s, a, d);
      assert a.thread.Handler?;
      RemovalLeavesByItself(s, a.thread.client, a.writeOk);
    }
  }

  /** A thread that scans does so alone, before a step and after it. */
  lemma StepKeepsUnpreceded(s: State, a: Action, c: Client)
    requires Base(s) && RemovalsUnpreceded(s) && Enabled(s, a) && Unpreceded(s, a) && Removing(Step(s, a), c)
    ensures NoNamesakeFirst(Step(s, a).slots, c)
  {
    if a.TakeLock? && a.thread == Handler(c) {
      assert Step(s, a).slots == s.slots;
    } else {
      if !Removing(s, c) {
        StartsByTakingLock(s, a, c);
      }
      if a.Scan? && a.thread == Handler(c) {
        RemovalLeavesByItself(s, c, a.writeOk);
      } else {
        OtherStepWhileScanning(s, Handler(c), a);
      }
    }
  }

  /** Nobody gets into its removal loop but by taking the lock. */
  lemma StartsByTakingLock(s: State, a: Action, c: Client)
    requires Identity(s) && Enabled(s, a) && a != TakeLock(Handler(c)) && !Removing(s, c)
    ensures !Removing(Step(s, a), c)
  {
    if a.Scan? {
      ScanFrame(s, a.thread, a.writeOk);
    } else if a.Release? && a.thread.Handler? {
      assert HandlerLoc(a.thread.client, s.locs[a.thread]);
    }
  }

  // ---------- runs ----------

  ghost predicate UnprecededThroughout(s: State, actions: seq<Action>, s': State)
    requires IsRun(s, actions, s')
    decreases actions
  {
    actions == [] || (Unpreceded(s, actions[0]) && UnprecededThroughout(Step(s, actions[0]), actions[1..], s'))
  }

  ghost predicate LeaveByThemselves(s: State, actions: seq<Action>, s': State)
    requires IsRun(s, actions, s')
    decreases actions
  {
    actions == [] || (LeavesByItself(s, actions[0]) && LeaveByThemselves(Step(s, actions[0]), actions[1..], s'))
  }

  lemma {:induction false} UnprecededRun(s: State, actions: seq<Action>, s': State)
    requires Good(s) && RemovalsUnpreceded(s) && IsRun(s, actions, s') && UnprecededThroughout(s, actions, s')
    ensures LeaveByThemselves(s, actions, s')
    decreases actions
  {
    if actions == [] {
    } else {
      var a := actions[0];
      StepKeepsGood(s, a);
      StepLeavesByItself(s, a);
      forall c | Removing(Step(s, a), c) ensures NoNamesakeFirst(Step(s, a).slots, c) {
        StepKeepsUnpreceded(s, a, c);
      }
      UnprecededRun(Step(s, a), actions[1..], s');
    }
  }

  /** A removal under way behind a namesake goes on to take that one out. */
  lemma {:induction false} PrecededRemovalRun(s: State, c: Client, actions: seq<Action>, s': State)
    requires Good(s) && Removing(s, c) && !NoNamesakeFirst(s.slots, c)
    requires IsRun(s, actions, s') && s'.lock.Unlocked?
    ensures !LeaveByThemselves(s, actions, s')
    decreases actions
  {
    RemovalProgress(s, c);
    var a := actions[0];
    StepKeepsGood(s, a);
    if a.Scan? && a.thread == Handler(c) {
      RemovalLeavesByItself(s, c, a.writeOk);
    } else {
      OtherStepWhileScanning(s, Handler(c), a);
    }
    if Removing(Step(s, a), c) {
      PrecededRemovalRun(Step(s, a), c, actions[1..], s');
    }
  }

  lemma {:induction false} PrecededRun(s: State, actions: seq<Action>, s': State)
    requires Good(s) && IsRun(s, actions, s') && s'.lock.Unlocked? && !UnprecededThroughout(s, actions, s')
    ensures !LeaveByThemselves(s, actions, s')
    decreases actions
  {
    var a := actions[0];
    StepKeepsGood(s, a);
    if Unpreceded(s, a) {
      PrecededRun(Step(s, a), actions[1..], s');
    } else {
      PrecededRemovalRun(Step(s, a), a.thread.client, actions[1..], s');
    }
  }

  /** Whatever cids are drawn: in a run that ends with the mutex free, nobody is ever taken out of
      the table by another one's removal if and only if nobody took the lock to remove itself
      while another client stood first under its cid. */
  lemma RemovalsOwnIffUnpreceded(actions: seq<Action>, s: State)
    requires IsRun(INITIAL, actions, s) && s.lock.Unlocked?
    ensures LeaveByThemselves(INITIAL, actions, s) <==> UnprecededThroughout(INITIAL, actions, s)
  {
    InitialIsGood();
    if UnprecededThroughout(INITIAL, actions, s) {
      UnprecededRun(INITIAL, actions, s);
    } else {
      PrecededRun(INITIAL, actions, s);
    }
  }

  /** This guard implies the one for the records' lifetime. */
  lemma {:induction false} UnprecededIsGuarded(s: State, actions: seq<Action>, s': State)
    requires Good(s) && IsRun(s, actions, s') && UnprecededThroughout(s, actions, s')
    ensures GuardsHold(s, actions, s')
    decreases actions
  {
    if actions == [] {
    } else {
      var a := actions[0];
      StepKeepsGood(s, a);
      if a.TakeLock? && a.thread.Handler? {
        NoNamesakeFirstIsStronger(s.slots, a.thread.client, a.thread.client);
      }
      UnprecededIsGuarded(Step(s, a), actions[1..], s');
    }
  }
}
