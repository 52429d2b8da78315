/**
 The registry against the tasks that are actually alive.  A pipeline may end without
 reaping, as it does when a send to SlimeVR fails, and its entry then outlives it.
 */
module RegistryLiveness {
  import opened Registry

  /* ---------- no entry of a dead task ---------- */

  ghost predicate LiveEntries(s: State) {
    forall g: nat :: g < |s.tasks| && Holds(s, g) ==> Live(s.tasks[g])
  }

  // A pipeline that holds its entry ends without a reap, or an entry is made for a task that is over.
  predicate Deadens(s: State, a: Action)
    requires WellFormed(s)
  {
    match a
    case Exit(g) => g < |s.tasks| && s.tasks[g].state == Running && Holds(s, g)
    case Insert(r) => Pc(s, r).Spawned? && !Live(s.tasks[Pc(s, r).task])
    case _ => false
  }

  lemma StepLiveEntriesIff(s: State, a: Action)
    requires WellFormed(s) && LiveEntries(s)
    ensures LiveEntries(Step(s, a)) <==> !Deadens(s, a)
  {
    var t := Step(s, a);
    if Deadens(s, a) {
      var g := if a.Exit? then a.task else Pc(s, a.who).task;
      assert Holds(t, g) && !Live(t.tasks[g]);
    } else {
      forall g: nat | g < |t.tasks| && Holds(t, g)
        ensures Live(t.tasks[g])
      {
        if g < |s.tasks| {
          assert Holds(s, g) ==> Live(s.tasks[g]);
        }
      }
    }
  }

  ghost predicate LiveEntriesAfter(actions: seq<Action>, n: nat)
    requires n <= |actions|
  {
    LiveEntries(Run(actions[..n]))
  }

  ghost predicate DeadensAt(actions: seq<Action>, n: nat)
    requires n < |actions|
  {
    WellFormed(Run(actions[..n])) && Deadens(Run(actions[..n]), actions[n])
  }

  lemma {:induction false} LiveEntriesUpTo(actions: seq<Action>, n: nat)
    requires n <= |actions| && forall m: nat :: m < n ==> !DeadensAt(actions, m)
    ensures LiveEntriesAfter(actions, n)
  {
    if n == 0 {
      assert actions[..0] == [];
    } else {
      LiveEntriesUpTo(actions, n - 1);
      RunSound(actions[..n - 1]);
      PrefixStep(actions, n - 1);
      assert !DeadensAt(actions, n - 1);
      StepLiveEntriesIff(Run(actions[..n - 1]), actions[n - 1]);
    }
  }

  // Every entry is of a live task throughout a run if and only if no step of it was one of those two.
  lemma LiveEntriesThroughoutIff(actions: seq<Action>)
    ensures (forall n: nat :: n <= |actions| ==> LiveEntriesAfter(actions, n))
       <==> (forall n: nat :: n < |actions| ==> !DeadensAt(actions, n))
  {
    if forall n: nat :: n < |actions| ==> !DeadensAt(actions, n) {
      forall n: nat | n <= |actions|
        ensures LiveEntriesAfter(actions, n)
      {
        LiveEntriesUpTo(actions, n);
      }
    } else {
      var n: nat :| n < |actions| && DeadensAt(actions, n);
      PrefixStep(actions, n);
      if LiveEntriesAfter(actions, n) {
        StepLiveEntriesIff(Run(actions[..n]), actions[n]);
        assert !LiveEntriesAfter(actions, n + 1);
      }
    }
  }

  // A registered pipeline whose send fails: its entry stays, the order was kept, and the ledger sees nothing.
  lemma ExitLeavesDeadEntry(id: DeviceId)
    ensures var front := [Evict(0, id), Spawn(0), Insert(0)];
            var s := Run(front + [Exit(0)]);
            s.devices == map[id := 0] && s.tasks == [Task(id, Exited, Registered)] &&
            Orderly(Run(front), Exit(0)) && Exact(s) && !LiveEntries(s)
  {
    var a1, a2, front := [Evict(0, id)], [Evict(0, id), Spawn(0)], [Evict(0, id), Spawn(0), Insert(0)];
    assert a1 == [] + [Evict(0, id)] && a2 == a1 + [Spawn(0)] && front == a2 + [Insert(0)];
    RunSnoc([], Evict(0, id));
    RunSnoc(a1, Spawn(0));
    RunSnoc(a2, Insert(0));
    assert Run(front).tasks == [Task(id, Running, Registered)] && Run(front).devices == map[id := 0];
    RunSnoc(front, Exit(0));
    var s := Run(front + [Exit(0)]);
    assert s.tasks == [Task(id, Exited, Registered)];
    assert Holds(s, 0) && !Live(s.tasks[0]);
  }

  /* ---------- the entries are the live set ---------- */

  // Entered, and neither evicted, replaced nor drained since.
  predicate Current(t: Task) {
    t.standing != Pending && t.standing != Evicted && t.standing != Replaced && t.standing != Drained
  }

  // The map holds exactly the live tasks that were entered and not superseded.
  ghost predicate LiveSet(s: State) {
    forall g: nat :: g < |s.tasks| ==> (Holds(s, g) <==> Live(s.tasks[g]) && Current(s.tasks[g]))
  }

  // The three ways it drifts: a reap that finds a successor's entry, a pipeline that ends
  // without a reap while it holds its entry, and an entry made for a task that is over.
  predicate Drifts(s: State, a: Action)
    requires WellFormed(s)
  {
    Deadens(s, a) || (a.Reap? && Hazard(s, a))
  }

  // What the ledger says of a task that is over, or still to be entered.
  predicate Kept(t: Task) {
    && (t.standing == Gone ==> t.state == Reaped)
    && (t.standing == Pending ==> t.state != Reaped)
  }

  ghost predicate Ledger(s: State) {
    Sound(s) && forall g: nat :: g < |s.tasks| ==> Kept(s.tasks[g])
  }

  lemma StepLedger(s: State, a: Action)
    requires Ledger(s)
    ensures Ledger(Step(s, a))
  {
    StepSound(s, a);
    var t := Step(s, a);
    forall g: nat | g < |t.tasks|
      ensures Kept(t.tasks[g])
    {
      if g < |s.tasks| {
        assert Kept(s.tasks[g]);
      }
    }
  }

  lemma {:induction false} RunLedger(actions: seq<Action>)
    ensures Ledger(Run(actions))
  {
    if actions == [] {
    } else {
      var n := |actions| - 1;
      RunLedger(actions[..n]);
      StepLedger(Run(actions[..n]), actions[n]);
    }
  }

  predicate InSet(s: State, g: nat)
    requires g < |s.tasks|
  {
    Holds(s, g) <==> Live(s.tasks[g]) && Current(s.tasks[g])
  }

  lemma DriftSeen(s: State, a: Action)
    requires Ledger(s) && LiveSet(s) && Drifts(s, a)
    ensures !LiveSet(Step(s, a))
  {
    var t := Step(s, a);
    var g := match a
      case Exit(g) => g
      case Insert(r) => Pc(s, r).task
      case Reap(g) => s.devices[s.tasks[g].id]
      case _ => 0;
    if a.Reap? {
      assert InSet(s, g) && Holds(s, g);
    }
    assert !InSet(t, g);
  }

  lemma InsertKeepsLiveSet(s: State, r: nat)
    requires Ledger(s) && LiveSet(s) && Pc(s, r).Spawned? && !Drifts(s, Insert(r))
    ensures LiveSet(Step(s, Insert(r)))
  {
    var t, g := Step(s, Insert(r)), Pc(s, r).task;
    forall h: nat | h < |t.tasks|
      ensures InSet(t, h)
    {
      assert InSet(s, h) && Kept(s.tasks[h]);
    }
  }

  lemma ReapKeepsLiveSet(s: State, g: nat)
    requires Ledger(s) && LiveSet(s) && g < |s.tasks| && s.tasks[g].state == Disconnected && !Drifts(s, Reap(g))
    ensures LiveSet(ReapStep(s, g))
  {
    var t := ReapStep(s, g);
    forall h: nat | h < |t.tasks|
      ensures InSet(t, h)
    {
      assert InSet(s, h);
    }
  }

  // From a map that holds exactly the live set a step leads to such a map if and only if it is not one of those three.
  lemma StepLiveSetIff(s: State, a: Action)
    requires Ledger(s) && LiveSet(s)
    ensures LiveSet(Step(s, a)) <==> !Drifts(s, a)
  {
    if Drifts(s, a) {
      DriftSeen(s, a);
    } else if a.Insert? && Pc(s, a.who).Spawned? {
      InsertKeepsLiveSet(s, a.who);
    } else if a.Reap? && a.task < |s.tasks| && s.tasks[a.task].state == Disconnected {
      ReapKeepsLiveSet(s, a.task);
    } else {
      var t := Step(s, a);
      forall h: nat | h < |t.tasks|
        ensures InSet(t, h)
      {
        if h < |s.tasks| {
          assert InSet(s, h) && Kept(s.tasks[h]);
        }
      }
    }
  }

  ghost predicate LiveSetAfter(actions: seq<Action>, n: nat)
    requires n <= |actions|
  {
    LiveSet(Run(actions[..n]))
  }

  ghost predicate DriftsAt(actions: seq<Action>, n: nat)
    requires n < |actions|
  {
    WellFormed(Run(actions[..n])) && Drifts(Run(actions[..n]), actions[n])
  }

  lemma {:induction false} LiveSetUpTo(actions: seq<Action>, n: nat)
    requires n <= |actions| && forall m: nat :: m < n ==> !DriftsAt(actions, m)
    ensures LiveSetAfter(actions, n)
  {
    if n == 0 {
      assert actions[..0] == [];
    } else {
      LiveSetUpTo(actions, n - 1);
      RunLedger(actions[..n - 1]);
      PrefixStep(actions, n - 1);
      assert !DriftsAt(actions, n - 1);
      StepLiveSetIff(Run(actions[..n - 1]), actions[n - 1]);
    }
  }

  // The registry is the live set at every point of a run if and only if no step of the run was one of those three.
  lemma LiveSetThroughoutIff(actions: seq<Action>)
    ensures (forall n: nat :: n <= |actions| ==> LiveSetAfter(actions, n))
       <==> (forall n: nat :: n < |actions| ==> !DriftsAt(actions, n))
  {
    if forall n: nat :: n < |actions| ==> !DriftsAt(actions, n) {
      forall n: nat | n <= |actions|
        ensures LiveSetAfter(actions, n)
      {
        LiveSetUpTo(actions, n);
      }
    } else {
      var n: nat :| n < |actions| && DriftsAt(actions, n);
      RunLedger(actions[..n]);
      PrefixStep(actions, n);
      if LiveSetAfter(actions, n) {
        StepLiveSetIff(Run(actions[..n]), actions[n]);
        assert !LiveSetAfter(actions, n + 1);
      }
    }
  }

  /* ---------- orderly runs without such endings ---------- */

  // Besides the order, a pipeline ends without a reap only after it was superseded.
  ghost predicate OrderlyAndLive(s: State, a: Action) {
    Orderly(s, a) && (a.Exit? && a.task < |s.tasks| && s.tasks[a.task].state == Running ==>
                        s.tasks[a.task].standing != Pending && !Current(s.tasks[a.task]))
  }

  // A task still to be entered is running.
  ghost predicate PendingRuns(s: State) {
    forall g: nat :: g < |s.tasks| && s.tasks[g].standing == Pending ==> s.tasks[g].state == Running
  }

  ghost predicate InLiveOrder(s: State) {
    InOrder(s) && Exact(s) && PendingRuns(s)
  }

  lemma PendingRunsStep(s: State, a: Action)
    requires InLiveOrder(s) && OrderlyAndLive(s, a)
    ensures PendingRuns(Step(s, a))
  {
    var t := Step(s, a);
    forall g: nat | g < |t.tasks| && t.tasks[g].standing == Pending
      ensures t.tasks[g].state == Running
    {
      if g < |s.tasks| {
        assert s.tasks[g].standing == Registered <==> Holds(s, g);
      }
    }
  }

  lemma InLiveOrderStep(s: State, a: Action)
    requires InLiveOrder(s) && OrderlyAndLive(s, a)
    ensures InLiveOrder(Step(s, a)) && !Drifts(s, a)
  {
    PendingRunsStep(s, a);
    OrderlyStep(s, a);
    StepExactIff(s, a);
    if a.Exit? && a.task < |s.tasks| {
      assert s.tasks[a.task].standing == Registered <==> Holds(s, a.task);
    }
  }

  ghost predicate OrderlyAndLiveAt(actions: seq<Action>, n: nat)
    requires n < |actions|
  {
    OrderlyAndLive(Run(actions[..n]), actions[n])
  }

  lemma {:induction false} InLiveOrderUpTo(actions: seq<Action>, n: nat)
    requires n <= |actions| && forall m: nat :: m < n ==> OrderlyAndLiveAt(actions, m)
    ensures InLiveOrder(Run(actions[..n]))
  {
    if n == 0 {
      assert actions[..0] == [];
    } else {
      InLiveOrderUpTo(actions, n - 1);
      PrefixStep(actions, n - 1);
      assert OrderlyAndLiveAt(actions, n - 1);
      InLiveOrderStep(Run(actions[..n - 1]), actions[n - 1]);
    }
  }

  // There the entries are exactly the live tasks that were entered and not superseded, from start to end.
  lemma OrderlyRunsAreLive(actions: seq<Action>)
    requires forall n: nat :: n < |actions| ==> OrderlyAndLiveAt(actions, n)
    ensures forall n: nat :: n <= |actions| ==> LiveSetAfter(actions, n)
  {
    forall n: nat | n < |actions|
      ensures !DriftsAt(actions, n)
    {
      InLiveOrderUpTo(actions, n);
      assert OrderlyAndLiveAt(actions, n);
      InLiveOrderStep(Run(actions[..n]), actions[n]);
    }
    LiveSetThroughoutIff(actions);
  }

  /* ---------- how a pipeline ends ---------- */

  // Its entry is evicted, it returns with another error than a disconnect, or it is reaped.
  predicate Ends(s: State, a: Action, g: nat)
    requires g < |s.tasks|
  {
    match a
    case Evict(r, id) => Pc(s, r).Idle? && Holds(s, g) && SameMac(s.tasks[g].id, id)
    case Exit(h) => h == g && s.tasks[g].state == Running
    case Reap(h) => h == g && s.tasks[g].state == Disconnected
    case _ => false
  }

  // A step leaves a task live if and only if it was and the step is none of those three for it.
  lemma StepLiveIff(s: State, a: Action, g: nat)
    requires g < |s.tasks|
    ensures g < |Step(s, a).tasks| && Step(s, a).tasks[g].id == s.tasks[g].id
    ensures Live(Step(s, a).tasks[g]) <==> Live(s.tasks[g]) && !Ends(s, a, g)
  {
  }

  ghost predicate LiveAt(actions: seq<Action>, n: nat, g: nat)
    requires n <= |actions|
  {
    g < |Run(actions[..n]).tasks| && Live(Run(actions[..n]).tasks[g])
  }

  ghost predicate EndsAt(actions: seq<Action>, n: nat, g: nat)
    requires n < |actions|
  {
    g < |Run(actions[..n]).tasks| && Ends(Run(actions[..n]), actions[n], g)
  }

  ghost predicate NotEnded(actions: seq<Action>, n: nat, m: nat, g: nat)
    requires m <= |actions|
  {
    forall i: nat :: n <= i < m ==> !EndsAt(actions, i, g)
  }

  lemma NotEndedNext(actions: seq<Action>, n: nat, m: nat, g: nat)
    requires n <= m < |actions|
    ensures NotEnded(actions, n, m + 1, g) <==> NotEnded(actions, n, m, g) && !EndsAt(actions, m, g)
  {
  }

  lemma LiveStep(actions: seq<Action>, m: nat, g: nat)
    requires m < |actions| && g < |Run(actions[..m]).tasks|
    ensures g < |Run(actions[..m + 1]).tasks|
    ensures LiveAt(actions, m + 1, g) <==> LiveAt(actions, m, g) && !EndsAt(actions, m, g)
  {
    PrefixStep(actions, m);
    StepLiveIff(Run(actions[..m]), actions[m], g);
  }

  // Over a run: a task is live at a later point if and only if it was and none of the three came between.
  lemma {:induction false} LiveUntilEnded(actions: seq<Action>, n: nat, m: nat, g: nat)
    requires n <= m <= |actions| && g < |Run(actions[..n]).tasks|
    ensures g < |Run(actions[..m]).tasks|
    ensures LiveAt(actions, m, g) <==> LiveAt(actions, n, g) && NotEnded(actions, n, m, g)
    decreases m - n
  {
    if n == m {
    } else {
      LiveUntilEnded(actions, n, m - 1, g);
      LiveStep(actions, m - 1, g);
      NotEndedNext(actions, n, m - 1, g);
    }
  }

  // So a pipeline whose entry an evict removed is not live at any later point.
  lemma EvictedStaysOver(actions: seq<Action>, n: nat, m: nat, r: nat, id: DeviceId, g: nat)
    requires n < m <= |actions| && actions[n] == Evict(r, id) && Pc(Run(actions[..n]), r).Idle?
    requires Holds(Run(actions[..n]), g) && SameMac(Run(actions[..n]).tasks[g].id, id)
    ensures !LiveAt(actions, m, g)
  {
    assert EndsAt(actions, n, g);
    LiveUntilEnded(actions, n, m, g);
  }

  /* ---------- one live pipeline to a MAC ---------- */

  // What was superseded is over.
  ghost predicate SupersededOver(s: State) {
    forall g: nat :: g < |s.tasks| && s.tasks[g].standing in {Evicted, Replaced, Gone} ==> !Live(s.tasks[g])
  }

  lemma SupersededStep(s: State, a: Action)
    requires InLiveOrder(s) && SupersededOver(s) && OrderlyAndLive(s, a)
    ensures SupersededOver(Step(s, a))
  {
    var t := Step(s, a);
    forall g: nat | g < |t.tasks| && t.tasks[g].standing in {Evicted, Replaced, Gone}
      ensures !Live(t.tasks[g])
    {
      if g < |s.tasks| {
        StepLiveIff(s, a, g);
        assert s.tasks[g].standing == Registered <==> Holds(s, g);
        assert s.tasks[g].standing in {Evicted, Replaced, Gone} ==> !Live(s.tasks[g]);
      }
    }
  }

  lemma {:induction false} SupersededUpTo(actions: seq<Action>, n: nat)
    requires n <= |actions| && forall m: nat :: m < n ==> OrderlyAndLiveAt(actions, m)
    ensures SupersededOver(Run(actions[..n]))
  {
    if n == 0 {
      assert actions[..0] == [];
    } else {
      SupersededUpTo(actions, n - 1);
      InLiveOrderUpTo(actions, n - 1);
      PrefixStep(actions, n - 1);
      assert OrderlyAndLiveAt(actions, n - 1);
      SupersededStep(Run(actions[..n - 1]), actions[n - 1]);
    }
  }

  // A pipeline past its registration that a shutdown did not drain.
  predicate Feeds(t: Task) {
    Live(t) && t.standing != Pending && t.standing != Drained
  }

  ghost predicate OneFeedsPerMac(s: State) {
    forall g: nat, h: nat | g < |s.tasks| && h < |s.tasks| ::
      Feeds(s.tasks[g]) && Feeds(s.tasks[h]) && s.tasks[g].id.mac == s.tasks[h].id.mac ==> g == h
  }

  // With one registrar and in order, no two such pipelines ever share a MAC.
  lemma OneLivePerMac(actions: seq<Action>, r: nat, n: nat)
    requires forall a :: a in actions ==> By(a, r)
    requires forall m: nat :: m < |actions| ==> OrderlyAndLiveAt(actions, m)
    requires n <= |actions|
    ensures OneFeedsPerMac(Run(actions[..n]))
  {
    var s := Run(actions[..n]);
    OneRegistrarKeepsMacsUnique(actions[..n], r);
    InLiveOrderUpTo(actions, n);
    SupersededUpTo(actions, n);
    forall g: nat, h: nat | g < |s.tasks| && h < |s.tasks| && Feeds(s.tasks[g]) && Feeds(s.tasks[h]) &&
                            s.tasks[g].id.mac == s.tasks[h].id.mac
      ensures g == h
    {
      assert s.tasks[g].standing == Registered && s.tasks[h].standing == Registered;
      assert Holds(s, g) && Holds(s, h);
    }
  }
}
