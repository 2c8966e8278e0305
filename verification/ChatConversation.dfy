/** What a handler broadcasts for its client over a whole run: its arrival, every text received, and
    its departure at the end of the stream; nothing lost, repeated or reordered. */
module ChatConversation {
  import opened ClientTable
  import opened ChatServer
  import opened ChatIdentity
  import opened ChatDelivery

  /** The broadcast that a step of c's handler completes, if any. */
  function SaidBy(s: State, a: Action, c: Client): seq<string>
    requires Enabled(s, a)
  {
    if a == Release(Handler(c)) && s.locs[Handler(c)].event.SentEvent? then [s.locs[Handler(c)].event.text] else []
  }

  ghost function Said(s: State, actions: seq<Action>, s': State, c: Client): seq<string>
    requires IsRun(s, actions, s')
    decreases actions
  {
    if actions == [] then [] else SaidBy(s, actions[0], c) + Said(Step(s, actions[0]), actions[1..], s', c)
  }

  /** What an event at c's socket calls for; name is the one c gave. */
  function HeardBy(name: string, a: Action, c: Client): seq<string> {
    match a
    case Hello(d, n) => if d == c then [n + " has joined\n"] else []
    case Receive(d, Data(buff)) => if d == c && buff != "" then [buff] else []
    case Receive(d, Eof) => if d == c then [name + " has left"] else []
    case _ => []
  }

  function NextName(name: string, a: Action, c: Client): string {
    if a.Hello? && a.client == c then a.name else name
  }

  function Heard(name: string, actions: seq<Action>, c: Client): seq<string>
    decreases actions
  {
    if actions == [] then []
    else HeardBy(name, actions[0], c) + Heard(NextName(name, actions[0], c), actions[1..], c)
  }

  /** A broadcast that c's handler has begun and not completed. */
  function Owed(s: State, c: Client): seq<string> {
    if Handler(c) !in s.locs then []
    else match s.locs[Handler(c)]
         case Locking(SendOp(_, text), _) => [text]
         case Scanning(SendOp(_, text), _, _) => [text]
         case Unlocking(SentEvent(_, text, _), _) => [text]
         case _ => []
  }

  function ServingAs(l: Loc): Loc {
    if l.Locking? || l.Scanning? || l.Unlocking? then l.ret else l
  }

  predicate Named(s: State, c: Client, name: string) {
    Handler(c) in s.locs && ServingAs(s.locs[Handler(c)]).Serving? ==> ServingAs(s.locs[Handler(c)]).name == name
  }

  predicate Concerns(a: Action, c: Client) {
    || (ByHandler(a) && a.client == c)
    || ((a.TakeLock? || a.Scan? || a.Release?) && a.thread == Handler(c))
  }

  lemma OtherThreadStep(s: State, a: Action, c: Client)
    requires Identity(s) && Enabled(s, a) && !Concerns(a, c)
    ensures Owed(Step(s, a), c) == Owed(s, c)
    ensures forall name :: Named(s, c, name) ==> Named(Step(s, a), c, name)
  {
    if a.Scan? {
      ScanFrame(s, a.thread, a.writeOk);
      ScanByOther(s, a.thread, c, Step(s, a));
    } else if a.Spawn? {
      assert Handler(s.locs[Acceptor].client) !in s.locs;
    }
  }

  lemma ScanByOther(s: State, t: Thread, c: Client, s': State)
    requires t in s.locs && s.locs[t].Scanning? && t != Handler(c)
    requires ScanMoves(s, t, s.locs[t].op, s.locs[t].i, s.locs[t].ret, s')
    ensures Owed(s', c) == Owed(s, c)
    ensures forall name :: Named(s, c, name) ==> Named(s', c, name)
  {
  }

  lemma OwnStep(s: State, a: Action, c: Client, name: string)
    requires Identity(s) && Enabled(s, a) && Concerns(a, c) && !a.Scan? && Named(s, c, name)
    ensures SaidBy(s, a, c) + Owed(Step(s, a), c) == Owed(s, c) + HeardBy(name, a, c)
    ensures Named(Step(s, a), c, NextName(name, a, c))
  {
    assert HandlerLoc(c, s.locs[Handler(c)]);
  }

  lemma ScanByOwn(s: State, c: Client, name: string, s': State)
    requires Handler(c) in s.locs && s.locs[Handler(c)].Scanning? && Named(s, c, name)
    requires ScanMoves(s, Handler(c), s.locs[Handler(c)].op, s.locs[Handler(c)].i, s.locs[Handler(c)].ret, s')
    ensures Owed(s', c) == Owed(s, c) && Named(s', c, name)
  {
  }

  lemma OwnScan(s: State, ok: bool, c: Client, name: string)
    requires Enabled(s, Scan(Handler(c), ok)) && Named(s, c, name)
    ensures Owed(Step(s, Scan(Handler(c), ok)), c) == Owed(s, c)
    ensures Named(Step(s, Scan(Handler(c), ok)), c, name)
  {
    ScanFrame(s, Handler(c), ok);
    ScanByOwn(s, c, name, Step(s, Scan(Handler(c), ok)));
  }

  lemma StepBalance(s: State, a: Action, c: Client, name: string)
    requires Identity(s) && Enabled(s, a) && Named(s, c, name)
    ensures SaidBy(s, a, c) + Owed(Step(s, a), c) == Owed(s, c) + HeardBy(name, a, c)
    ensures Named(Step(s, a), c, NextName(name, a, c))
  {
    if !Concerns(a, c) {
      OtherThreadStep(s, a, c);
    } else if a.Scan? {
      OwnScan(s, a.writeOk, c, name);
    } else {
      OwnStep(s, a, c, name);
    }
  }

  lemma {:induction false} RunBalance(s: State, actions: seq<Action>, s': State, c: Client, name: string)
    requires Identity(s) && IsRun(s, actions, s') && Named(s, c, name)
    ensures Said(s, actions, s', c) + Owed(s', c) == Owed(s, c) + Heard(name, actions, c)
    decreases actions
  {
    if actions == [] {
      assert [] + Owed(s, c) == Owed(s, c) + [];
    } else {
      var a, rest := actions[0], actions[1..];
      var s1, name1 := Step(s, a), NextName(name, a, c);
      StepBalance(s, a, c, name);
      StepKeepsIdentity(s, a);
      RunBalance(s1, rest, s', c, name1);
      Rebalance(SaidBy(s, a, c), Said(s1, rest, s', c), Owed(s', c),
                Owed(s1, c), Heard(name1, rest, c), Owed(s, c), HeardBy(name, a, c));
    }
  }

  lemma Rebalance(said: seq<string>, saidLater: seq<string>, owedEnd: seq<string>,
                  owed1: seq<string>, heardLater: seq<string>, owed: seq<string>, heard: seq<string>)
    requires said + owed1 == owed + heard && saidLater + owedEnd == owed1 + heardLater
    ensures (said + saidLater) + owedEnd == owed + (heard + heardLater)
  {
    assert (said + saidLater) + owedEnd == said + (saidLater + owedEnd);
    assert said + (owed1 + heardLater) == (said + owed1) + heardLater;
    assert (owed + heard) + heardLater == owed + (heard + heardLater);
  }

  /** In every interleaving the broadcasts that c's handler has completed, and the one it may be in
      the middle of, are what c's socket called for, in that order. */
  lemma NothingLostOrRepeated(actions: seq<Action>, s: State, c: Client)
    requires IsRun(INITIAL, actions, s)
    ensures Said(INITIAL, actions, s, c) + Owed(s, c) == Heard("", actions, c)
  {
    RunBalance(INITIAL, actions, s, c, "");
    assert [] + Heard("", actions, c) == Heard("", actions, c);
  }

  // ---------- from c's socket to d's socket ----------

  /** The threads whose critical sections the run adds to the history, in that order. */
  ghost function Speakers(s: State, actions: seq<Action>, s': State): seq<Thread>
    requires IsRun(s, actions, s')
    decreases actions
  {
    if actions == [] then []
    else (if actions[0].Release? then [actions[0].thread] else []) + Speakers(Step(s, actions[0]), actions[1..], s')
  }

  /** The broadcasts of c's handler in a history whose events are by the given threads. */
  function SaidIn(h: seq<Event>, threads: seq<Thread>, c: Client): seq<string>
    requires |h| == |threads|
  {
    if h == [] then []
    else
      (if threads[0] == Handler(c) && h[0].SentEvent? then [h[0].text] else []) + SaidIn(h[1..], threads[1..], c)
  }

  lemma {:induction false} HistoryIsSpoken(s: State, actions: seq<Action>, s': State, c: Client)
    requires IsRun(s, actions, s')
    ensures s.history <= s'.history && |s'.history| == |s.history| + |Speakers(s, actions, s')|
    ensures SaidIn(s'.history[|s.history|..], Speakers(s, actions, s'), c) == Said(s, actions, s', c)
    decreases actions
  {
    if actions == [] {
    } else {
      var a, s1 := actions[0], Step(s, actions[0]);
      HistoryIsSpoken(s1, actions[1..], s', c);
      if a.Release? {
        assert s1.history == s.history + [s.locs[a.thread].event];
        var h := s'.history[|s.history|..];
        assert h[0] == s1.history[|s.history|];
        assert h[1..] == s'.history[|s1.history|..];
        assert Speakers(s, actions, s')[1..] == Speakers(s1, actions[1..], s');
      } else {
        HistoryGrowsOnRelease(s, a);
        assert Speakers(s, actions, s') == Speakers(s1, actions[1..], s');
        assert Said(s, actions, s', c) == Said(s1, actions[1..], s', c);
      }
    }
  }

  lemma {:induction false} SaidInMore(h: seq<Event>, threads: seq<Thread>, e: Event, t: Thread, c: Client)
    requires |h| == |threads|
    ensures SaidIn(h + [e], threads + [t], c) ==
      SaidIn(h, threads, c) + if t == Handler(c) && e.SentEvent? then [e.text] else []
  {
    if h == [] {
      assert SaidIn([], [], c) == [];
      assert (h + [e])[1..] == [] && (threads + [t])[1..] == [];
    } else {
      assert (h + [e])[1..] == h[1..] + [e] && (threads + [t])[1..] == threads[1..] + [t];
      SaidInMore(h[1..], threads[1..], e, t, c);
    }
  }

  /** What d has been sent of the broadcasts of c's handler. */
  function ReceivedFrom(h: seq<Event>, threads: seq<Thread>, c: Client, d: Client): seq<string>
    requires |h| == |threads|
  {
    if h == [] then []
    else
      var n := |h| - 1;
      ReceivedFrom(h[..n], threads[..n], c, d) +
      if threads[n] == Handler(c) && Delivers(h[..n], h[n], d) then [h[n].text] else []
  }

  /** The elements of a occur in b, in the same order. */
  predicate Subsequence<T(==)>(a: seq<T>, b: seq<T>) {
    a == [] ||
    (b != [] && (Subsequence(a, b[..|b| - 1]) ||
                 (a[|a| - 1] == b[|b| - 1] && Subsequence(a[..|a| - 1], b[..|b| - 1]))))
  }

  lemma {:induction false} SubsequenceSkips<T>(a: seq<T>, b: seq<T>, e: T)
    requires Subsequence(a, b)
    ensures Subsequence(a, b + [e])
  {
    assert (b + [e])[..|b + [e]| - 1] == b;
  }

  lemma {:induction false} SubsequenceTakes<T>(a: seq<T>, b: seq<T>, e: T)
    requires Subsequence(a, b)
    ensures Subsequence(a + [e], b + [e])
  {
    assert (b + [e])[..|b + [e]| - 1] == b && (a + [e])[..|a + [e]| - 1] == a;
    assert (a + [e])[|a|] == (b + [e])[|b|];
  }

  /** At most one element more on both sides; the left side may leave it out. */
  lemma {:induction false} SubsequenceMore<T>(a: seq<T>, b: seq<T>, x: seq<T>, y: seq<T>)
    requires Subsequence(a, b) && |y| <= 1 && (x == [] || x == y)
    ensures Subsequence(a + x, b + y)
  {
    if y == [] {
      assert a + x == a && b + y == b;
    } else if x == [] {
      assert y == [y[0]] && a + x == a;
      SubsequenceSkips(a, b, y[0]);
    } else {
      assert y == [y[0]];
      SubsequenceTakes(a, b, y[0]);
    }
  }

  lemma SaidInLast(h: seq<Event>, threads: seq<Thread>, c: Client)
    requires |h| == |threads| && h != []
    ensures var n := |h| - 1;
      SaidIn(h, threads, c) ==
      SaidIn(h[..n], threads[..n], c) + if threads[n] == Handler(c) && h[n].SentEvent? then [h[n].text] else []
  {
    var n := |h| - 1;
    assert h == h[..n] + [h[n]] && threads == threads[..n] + [threads[n]];
    SaidInMore(h[..n], threads[..n], h[n], threads[n], c);
  }

  lemma {:induction false} ReceivedOfSaid(h: seq<Event>, threads: seq<Thread>, c: Client, d: Client)
    requires |h| == |threads|
    ensures Subsequence(ReceivedFrom(h, threads, c, d), SaidIn(h, threads, c))
    decreases |h|
  {
    if h == [] {
    } else {
      var n := |h| - 1;
      ReceivedOfSaid(h[..n], threads[..n], c, d);
      SaidInLast(h, threads, c);
      SubsequenceMore(ReceivedFrom(h[..n], threads[..n], c, d), SaidIn(h[..n], threads[..n], c),
                      if threads[n] == Handler(c) && Delivers(h[..n], h[n], d) then [h[n].text] else [],
                      if threads[n] == Handler(c) && h[n].SentEvent? then [h[n].text] else []);
    }
  }

  lemma {:induction false} ReceivedOfDelivered(h: seq<Event>, threads: seq<Thread>, c: Client, d: Client)
    requires |h| == |threads|
    ensures Subsequence(ReceivedFrom(h, threads, c, d), Deliveries(h, d))
    decreases |h|
  {
    if h == [] {
    } else {
      var n := |h| - 1;
      ReceivedOfDelivered(h[..n], threads[..n], c, d);
      SubsequenceMore(ReceivedFrom(h[..n], threads[..n], c, d), Deliveries(h[..n], d),
                      if threads[n] == Handler(c) && Delivers(h[..n], h[n], d) then [h[n].text] else [],
                      if Delivers(h[..n], h[n], d) then [h[n].text] else []);
    }
  }

  /** Every broadcast of c's handler reached d. */
  predicate AllReached(h: seq<Event>, threads: seq<Thread>, c: Client, d: Client)
    requires |h| == |threads|
  {
    forall k :: 0 <= k < |h| && threads[k] == Handler(c) && h[k].SentEvent? ==> Delivers(h[..k], h[k], d)
  }

  lemma AllReachedBefore(h: seq<Event>, threads: seq<Thread>, c: Client, d: Client, n: nat)
    requires |h| == |threads| && n <= |h| && AllReached(h, threads, c, d)
    ensures AllReached(h[..n], threads[..n], c, d)
  {
    forall k | 0 <= k < n && threads[k] == Handler(c) && h[k].SentEvent? ensures Delivers(h[..n][..k], h[k], d) {
      assert h[..n][..k] == h[..k];
    }
  }

  lemma {:induction false} AllReceived(h: seq<Event>, threads: seq<Thread>, c: Client, d: Client)
    requires |h| == |threads| && AllReached(h, threads, c, d)
    ensures ReceivedFrom(h, threads, c, d) == SaidIn(h, threads, c)
    decreases |h|
  {
    if h == [] {
    } else {
      var n := |h| - 1;
      AllReachedBefore(h, threads, c, d, n);
      AllReceived(h[..n], threads[..n], c, d);
      SaidInLast(h, threads, c);
    }
  }

  /** From socket to socket: in every interleaving, what d has been sent by c's handler is taken in
      order from what c's socket called for, apart from a broadcast in progress; and it is all of
      that if each of these broadcasts reached d. */
  lemma FromSocketToSocket(actions: seq<Action>, s: State, c: Client, d: Client)
    requires IsRun(INITIAL, actions, s)
    ensures |Speakers(INITIAL, actions, s)| == |s.history|
    ensures SaidIn(s.history, Speakers(INITIAL, actions, s), c) + Owed(s, c) == Heard("", actions, c)
    ensures var received := ReceivedFrom(s.history, Speakers(INITIAL, actions, s), c, d);
      && Subsequence(received, SaidIn(s.history, Speakers(INITIAL, actions, s), c))
      && (s.lock.Unlocked? ==> Subsequence(received, Log(s.out, d)))
      && (AllReached(s.history, Speakers(INITIAL, actions, s), c, d) ==> received + Owed(s, c) == Heard("", actions, c))
  {
    HistoryIsSpoken(INITIAL, actions, s, c);
    var h, speakers := s.history, Speakers(INITIAL, actions, s);
    assert h[0..] == h;
    NothingLostOrRepeated(actions, s, c);
    TotalOrderBroadcast(actions, s, d);
    ReceivedOfSaid(h, speakers, c, d);
    ReceivedOfDelivered(h, speakers, c, d);
    if AllReached(h, speakers, c, d) {
      AllReceived(h, speakers, c, d);
    }
  }
}
