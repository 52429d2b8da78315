/**
 The device registry under concurrency.  Registration is two lock acquisitions with a
 task spawn between them; reaping tasks and shutdown interleave freely.  Each atomic
 section is one step.
 */
module Registry {

  datatype DeviceId = DeviceId(mac: seq<int>, serial: string)

  // Running until the pipeline returns; a disconnected task still has to take the lock.
  datatype TaskState = Running | Disconnected | Reaped | Aborted | Exited

  // What the ledger says of a task, kept without looking at the registry map.
  datatype Standing = Pending | Registered | Evicted | Replaced | Drained | Gone

  datatype Task = Task(id: DeviceId, state: TaskState, standing: Standing)

  datatype Registrar = Idle | Cleared(id: DeviceId) | Spawned(task: nat)

  // An entry maps a device id to the task of its handle.
  datatype State = State(devices: map<DeviceId, nat>, tasks: seq<Task>, registrars: map<nat, Registrar>)

  const INIT := State(map[], [], map[])

  datatype Action =
    | Evict(who: nat, id: DeviceId)
    | Spawn(who: nat)
    | Insert(who: nat)
    | Disconnect(task: nat)
    | Exit(task: nat)
    | Reap(task: nat)
    | Shutdown

  function Pc(s: State, r: nat): Registrar {
    if r in s.registrars then s.registrars[r] else Idle
  }

  predicate SameMac(k: DeviceId, id: DeviceId) {
    k != id && k.mac == id.mac
  }

  function Aborting(t: TaskState): TaskState {
    if t == Running || t == Disconnected then Aborted else t
  }

  predicate Holds(s: State, g: nat) {
    g < |s.tasks| && s.tasks[g].id in s.devices && s.devices[s.tasks[g].id] == g
  }

  /* ---------- the steps ---------- */

  function EvictStep(s: State, r: nat, id: DeviceId): State {
    State(map k | k in s.devices && !SameMac(k, id) :: s.devices[k],
          seq(|s.tasks|, g requires 0 <= g < |s.tasks| =>
            var t := s.tasks[g];
            Task(t.id, if Holds(s, g) && SameMac(t.id, id) then Aborting(t.state) else t.state,
                 if t.standing == Registered && SameMac(t.id, id) then Evicted else t.standing)),
          s.registrars[r := Cleared(id)])
  }

  function InsertStep(s: State, r: nat, g: nat): State
    requires g < |s.tasks|
  {
    var id := s.tasks[g].id;
    State(s.devices[id := g],
          seq(|s.tasks|, h requires 0 <= h < |s.tasks| =>
            var t := s.tasks[h];
            if h == g then t.(standing := if t.standing == Pending then Registered else t.standing)
            else if t.id == id && t.standing == Registered then t.(standing := Replaced)
            else t),
          s.registrars[r := Idle])
  }

  // The reaping task removes by id; nothing compares the entry with the task.
  function ReapStep(s: State, g: nat): State
    requires g < |s.tasks|
  {
    var t := s.tasks[g];
    var standing := if t.standing == Registered || t.standing == Pending then Gone else t.standing;
    State(map k | k in s.devices && k != t.id :: s.devices[k], s.tasks[g := Task(t.id, Reaped, standing)], s.registrars)
  }

  function ShutdownStep(s: State): State {
    State(map[],
          seq(|s.tasks|, g requires 0 <= g < |s.tasks| =>
            var t := s.tasks[g];
            if t.standing == Registered then t.(standing := Drained) else t),
          s.registrars)
  }

  function Step(s: State, a: Action): State {
    match a
    case Evict(r, id) => if Pc(s, r).Idle? then EvictStep(s, r, id) else s
    case Spawn(r) =>
      var pc := Pc(s, r);
      if pc.Cleared? then
        State(s.devices, s.tasks + [Task(pc.id, Running, Pending)], s.registrars[r := Spawned(|s.tasks|)])
      else s
    case Insert(r) =>
      var pc := Pc(s, r);
      if pc.Spawned? && pc.task < |s.tasks| then InsertStep(s, r, pc.task) else s
    case Disconnect(g) =>
      if g < |s.tasks| && s.tasks[g].state == Running
      then s.(tasks := s.tasks[g := s.tasks[g].(state := Disconnected)]) else s
    case Exit(g) =>
      if g < |s.tasks| && s.tasks[g].state == Running
      then s.(tasks := s.tasks[g := s.tasks[g].(state := Exited)]) else s
    case Reap(g) => if g < |s.tasks| && s.tasks[g].state == Disconnected then ReapStep(s, g) else s
    case Shutdown => ShutdownStep(s)
  }

  function Run(actions: seq<Action>): State {
    if actions == [] then INIT else Step(Run(actions[..|actions| - 1]), actions[|actions| - 1])
  }

  /* ---------- no two entries share a MAC ---------- */

  predicate UniqueMacs(s: State) {
    forall k, l :: k in s.devices && l in s.devices && k.mac == l.mac ==> k == l
  }

  predicate WellFormed(s: State) {
    && (forall k :: k in s.devices ==> s.devices[k] < |s.tasks| && s.tasks[s.devices[k]].id == k)
    && (forall r :: r in s.registrars && s.registrars[r].Spawned? ==> s.registrars[r].task < |s.tasks|)
  }

  // The id a registrar has cleared the way for, if it is between evict and insert.
  function Underway(s: State, r: nat): seq<DeviceId>
    requires WellFormed(s)
  {
    match Pc(s, r)
    case Idle => []
    case Cleared(id) => [id]
    case Spawned(g) => [s.tasks[g].id]
  }

  // Only r is registering, and nothing registered stands in its way.
  predicate WayIsClear(s: State, r: nat)
    requires WellFormed(s)
  {
    && (forall q :: q in s.registrars && q != r ==> s.registrars[q].Idle?)
    && (Underway(s, r) != [] ==> forall k :: k in s.devices ==> !SameMac(k, Underway(s, r)[0]))
  }

  predicate By(a: Action, r: nat) {
    match a
    case Evict(q, _) => q == r
    case Spawn(q) => q == r
    case Insert(q) => q == r
    case _ => true
  }

  lemma StepWellFormed(s: State, a: Action)
    requires WellFormed(s)
    ensures WellFormed(Step(s, a))
  {
  }

  lemma EvictClearsWay(s: State, r: nat, id: DeviceId)
    requires WellFormed(s) && WayIsClear(s, r)
    ensures WellFormed(Step(s, Evict(r, id))) && WayIsClear(Step(s, Evict(r, id)), r)
  {
    StepWellFormed(s, Evict(r, id));
  }

  lemma InsertEndsWay(s: State, r: nat)
    requires WellFormed(s) && WayIsClear(s, r)
    ensures WellFormed(Step(s, Insert(r))) && WayIsClear(Step(s, Insert(r)), r)
  {
    StepWellFormed(s, Insert(r));
  }

  lemma StepKeepsWayClear(s: State, a: Action, r: nat)
    requires WellFormed(s) && WayIsClear(s, r) && By(a, r)
    ensures WellFormed(Step(s, a)) && WayIsClear(Step(s, a), r)
  {
    match a
    case Evict(_, id) => EvictClearsWay(s, r, id);
    case Insert(_) => InsertEndsWay(s, r);
    case _ => StepWellFormed(s, a);
  }

  lemma StepKeepsMacsUnique(s: State, a: Action, r: nat)
    requires WellFormed(s) && UniqueMacs(s) && WayIsClear(s, r) && By(a, r)
    ensures UniqueMacs(Step(s, a))
  {
    if a.Insert? && Pc(s, r).Spawned? {
      assert Underway(s, r) == [s.tasks[Pc(s, r).task].id];
    }
  }

  // With one registrar, every interleaving of evict, insert, reap and shutdown keeps MACs unique.
  lemma {:induction false} OneRegistrarKeepsMacsUnique(actions: seq<Action>, r: nat)
    requires forall a :: a in actions ==> By(a, r)
    ensures WellFormed(Run(actions)) && UniqueMacs(Run(actions)) && WayIsClear(Run(actions), r)
  {
    if actions == [] {
    } else {
      var n := |actions| - 1;
      OneRegistrarKeepsMacsUnique(actions[..n], r);
      StepKeepsWayClear(Run(actions[..n]), actions[n], r);
      StepKeepsMacsUnique(Run(actions[..n]), actions[n], r);
    }
  }

  // So a lookup by MAC, which takes whatever entry it meets first, has at most one answer.
  lemma LookupIsUnambiguous(actions: seq<Action>, r: nat, mac: seq<int>)
    requires forall a :: a in actions ==> By(a, r)
    ensures |set k | k in Run(actions).devices && k.mac == mac| <= 1
  {
    OneRegistrarKeepsMacsUnique(actions, r);
    var hits := set k | k in Run(actions).devices && k.mac == mac;
    if k :| k in hits {
      assert hits == {k};
    }
  }

  lemma RunSnoc(front: seq<Action>, a: Action)
    ensures Run(front + [a]) == Step(Run(front), a)
  {
    assert (front + [a])[..|front|] == front;
  }

  // Two registrars may both evict before either inserts.
  lemma TwoRegistrarsCanCollide(mac: seq<int>, a: string, b: string)
    requires a != b
    ensures var x, y := DeviceId(mac, a), DeviceId(mac, b);
            var s := Run([Evict(0, x), Evict(1, y), Spawn(0), Spawn(1)] + [Insert(0)] + [Insert(1)]);
            x in s.devices && y in s.devices && !UniqueMacs(s)
  {
    var x, y := DeviceId(mac, a), DeviceId(mac, b);
    var a1, a2, a3 := [Evict(0, x)], [Evict(0, x), Evict(1, y)], [Evict(0, x), Evict(1, y), Spawn(0)];
    var a4 := [Evict(0, x), Evict(1, y), Spawn(0), Spawn(1)];
    assert a1 == [] + [Evict(0, x)] && a2 == a1 + [Evict(1, y)] && a3 == a2 + [Spawn(0)] && a4 == a3 + [Spawn(1)];
    RunSnoc([], Evict(0, x));
    RunSnoc(a1, Evict(1, y));
    RunSnoc(a2, Spawn(0));
    RunSnoc(a3, Spawn(1));
    assert Run(a4).tasks == [Task(x, Running, Pending), Task(y, Running, Pending)];
    RunSnoc(a4, Insert(0));
    RunSnoc(a4 + [Insert(0)], Insert(1));
  }

  /* ---------- the registry is exactly the registered set ---------- */

  // The ledger calls a task registered exactly when the map holds it.
  ghost predicate Exact(s: State) {
    forall g: nat :: g < |s.tasks| ==> (s.tasks[g].standing == Registered <==> Holds(s, g))
  }

  // A spawned task whose entry is still to come: reaped already, or pending.  No two registrars share one.
  ghost predicate Sound(s: State) {
    && WellFormed(s)
    && (forall r :: r in s.registrars && s.registrars[r].Spawned? ==>
          var t := s.tasks[s.registrars[r].task];
          if t.state == Reaped then t.standing == Gone else t.standing == Pending)
    && (forall q, r :: q in s.registrars && r in s.registrars && q != r && s.registrars[q].Spawned? ==>
          s.registrars[r].Spawned? ==> s.registrars[q].task != s.registrars[r].task)
  }

  // The two ways the map drifts from the ledger: a reap that finds another task's entry under its id, and an
  // insert after the reap.  A pipeline that ends without a reap leaves the ledger alone; it is drift from the
  // live tasks, and RegistryLiveness speaks of those.
  predicate Hazard(s: State, a: Action)
    requires WellFormed(s)
  {
    match a
    case Reap(g) =>
      g < |s.tasks| && s.tasks[g].state == Disconnected && s.tasks[g].id in s.devices && s.devices[s.tasks[g].id] != g
    case Insert(r) => Pc(s, r).Spawned? && s.tasks[Pc(s, r).task].state == Reaped
    case _ => false
  }

  lemma EvictSound(s: State, r: nat, id: DeviceId)
    requires Sound(s) && Pc(s, r).Idle?
    ensures Sound(EvictStep(s, r, id))
  {
    StepWellFormed(s, Evict(r, id));
  }

  lemma InsertSound(s: State, r: nat)
    requires Sound(s)
    ensures Sound(Step(s, Insert(r)))
  {
    StepWellFormed(s, Insert(r));
  }

  lemma SpawnSound(s: State, r: nat)
    requires Sound(s)
    ensures Sound(Step(s, Spawn(r)))
  {
    StepWellFormed(s, Spawn(r));
  }

  lemma StepSound(s: State, a: Action)
    requires Sound(s)
    ensures Sound(Step(s, a))
  {
    match a {
      case Evict(r, id) =>
        if Pc(s, r).Idle? {
          EvictSound(s, r, id);
        }
      case Spawn(r) => SpawnSound(s, r);
      case Insert(r) => InsertSound(s, r);
      case _ => StepWellFormed(s, a);
    }
  }

  lemma ReapExactIff(s: State, g: nat)
    requires Sound(s) && Exact(s) && g < |s.tasks| && s.tasks[g].state == Disconnected
    ensures Exact(ReapStep(s, g)) <==> !Hazard(s, Reap(g))
  {
    var t := ReapStep(s, g);
    if Hazard(s, Reap(g)) {
      var h := s.devices[s.tasks[g].id];
      assert Holds(s, h) && !Holds(t, h) && t.tasks[h].standing == Registered;
    } else {
      forall h: nat | h < |t.tasks|
        ensures t.tasks[h].standing == Registered <==> Holds(t, h)
      {
        assert s.tasks[h].standing == Registered <==> Holds(s, h);
      }
    }
  }

  lemma InsertExactIff(s: State, r: nat)
    requires Sound(s) && Exact(s) && Pc(s, r).Spawned?
    ensures Exact(Step(s, Insert(r))) <==> !Hazard(s, Insert(r))
  {
    var g, t := Pc(s, r).task, Step(s, Insert(r));
    assert Holds(t, g);
    if Hazard(s, Insert(r)) {
      assert t.tasks[g].standing == Gone;
    } else {
      forall h: nat | h < |t.tasks|
        ensures t.tasks[h].standing == Registered <==> Holds(t, h)
      {
        assert s.tasks[h].standing == Registered <==> Holds(s, h);
      }
    }
  }

  // From an exact registry a step leads to an exact registry if and only if it is no hazard.
  lemma StepExactIff(s: State, a: Action)
    requires Sound(s) && Exact(s)
    ensures Exact(Step(s, a)) <==> !Hazard(s, a)
  {
    var t := Step(s, a);
    if a.Reap? && a.task < |s.tasks| && s.tasks[a.task].state == Disconnected {
      ReapExactIff(s, a.task);
    } else if a.Insert? && Pc(s, a.who).Spawned? {
      InsertExactIff(s, a.who);
    } else {
      assert !Hazard(s, a);
      forall h: nat | h < |t.tasks|
        ensures t.tasks[h].standing == Registered <==> Holds(t, h)
      {
        if h < |s.tasks| {
          assert s.tasks[h].standing == Registered <==> Holds(s, h);
        }
      }
    }
  }

  lemma {:induction false} RunSound(actions: seq<Action>)
    ensures Sound(Run(actions))
  {
    if actions == [] {
    } else {
      var n := |actions| - 1;
      RunSound(actions[..n]);
      StepSound(Run(actions[..n]), actions[n]);
    }
  }

  lemma PrefixStep(actions: seq<Action>, n: nat)
    requires n < |actions|
    ensures Run(actions[..n + 1]) == Step(Run(actions[..n]), actions[n])
  {
    assert actions[..n + 1] == actions[..n] + [actions[n]];
    RunSnoc(actions[..n], actions[n]);
  }

  /* ---------- an ordering under which no hazard arises ---------- */

  predicate Live(t: Task) {
    t.state == Running || t.state == Disconnected
  }

  // No entered task but g is live under g's id.
  ghost predicate SoleLive(s: State, g: nat)
    requires g < |s.tasks|
  {
    forall h: nat :: h < |s.tasks| && h != g && s.tasks[h].id == s.tasks[g].id && Live(s.tasks[h]) ==>
      s.tasks[h].standing == Pending
  }

  // A task's route outlives its registration, and an id is only entered once its earlier tasks are over.
  ghost predicate Orderly(s: State, a: Action) {
    match a
    case Disconnect(g) => g < |s.tasks| ==> s.tasks[g].standing != Pending
    case Insert(r) => Pc(s, r).Spawned? && Pc(s, r).task < |s.tasks| ==> SoleLive(s, Pc(s, r).task)
    case _ => true
  }

  // A live task past its registration finds either its own entry under its id, or none.
  predicate OwnOrNone(s: State, g: nat)
    requires g < |s.tasks|
  {
    if s.tasks[g].standing == Pending then s.tasks[g].state == Running
    else s.tasks[g].id in s.devices ==> s.devices[s.tasks[g].id] == g
  }

  ghost predicate OwnEntryOrNone(s: State) {
    forall g: nat :: g < |s.tasks| && Live(s.tasks[g]) ==> OwnOrNone(s, g)
  }

  ghost predicate NeverReapedEarly(s: State) {
    forall r :: r in s.registrars && s.registrars[r].Spawned? && s.registrars[r].task < |s.tasks| ==>
      s.tasks[s.registrars[r].task].standing == Pending
  }

  ghost predicate InOrder(s: State) {
    Sound(s) && OwnEntryOrNone(s) && NeverReapedEarly(s)
  }

  lemma OrderlyEvict(s: State, r: nat, id: DeviceId)
    requires InOrder(s) && Pc(s, r).Idle?
    ensures InOrder(EvictStep(s, r, id))
  {
    StepSound(s, Evict(r, id));
    var t := EvictStep(s, r, id);
    forall g: nat | g < |t.tasks| && Live(t.tasks[g])
      ensures OwnOrNone(t, g)
    {
      assert OwnOrNone(s, g);
    }
  }

  lemma OrderlyInsert(s: State, r: nat)
    requires InOrder(s) && Pc(s, r).Spawned? && SoleLive(s, Pc(s, r).task)
    ensures InOrder(Step(s, Insert(r)))
  {
    StepSound(s, Insert(r));
    var t := Step(s, Insert(r));
    forall g: nat | g < |t.tasks| && Live(t.tasks[g])
      ensures OwnOrNone(t, g)
    {
      assert OwnOrNone(s, g);
    }
  }

  lemma OrderlyReap(s: State, g: nat)
    requires InOrder(s) && g < |s.tasks| && s.tasks[g].state == Disconnected
    ensures InOrder(ReapStep(s, g)) && !Hazard(s, Reap(g))
  {
    StepSound(s, Reap(g));
    assert OwnOrNone(s, g);
    var t := ReapStep(s, g);
    forall h: nat | h < |t.tasks| && Live(t.tasks[h])
      ensures OwnOrNone(t, h)
    {
      assert OwnOrNone(s, h);
    }
  }

  lemma OrderlyStep(s: State, a: Action)
    requires InOrder(s) && Orderly(s, a)
    ensures InOrder(Step(s, a)) && !Hazard(s, a)
  {
    if a.Evict? && Pc(s, a.who).Idle? {
      OrderlyEvict(s, a.who, a.id);
    } else if a.Insert? && Pc(s, a.who).Spawned? {
      OrderlyInsert(s, a.who);
    } else if a.Reap? && a.task < |s.tasks| && s.tasks[a.task].state == Disconnected {
      OrderlyReap(s, a.task);
    } else {
      StepSound(s, a);
      var t := Step(s, a);
      forall g: nat | g < |t.tasks| && Live(t.tasks[g])
        ensures OwnOrNone(t, g)
      {
        assert g < |s.tasks| && Live(s.tasks[g]) ==> OwnOrNone(s, g);
      }
    }
  }

  /* ---------- runs in which it does drift ---------- */

  lemma FirstSpawn(id: DeviceId)
    ensures Run([Evict(0, id), Spawn(0)]) == State(map[], [Task(id, Running, Pending)], map[0 := Spawned(0)])
  {
    assert [Evict(0, id)] == [] + [Evict(0, id)] && [Evict(0, id), Spawn(0)] == [Evict(0, id)] + [Spawn(0)];
    RunSnoc([], Evict(0, id));
    RunSnoc([Evict(0, id)], Spawn(0));
  }

  // A first registration, then the loss of its route.
  lemma FirstLife(id: DeviceId)
    ensures Run([Evict(0, id), Spawn(0), Insert(0), Disconnect(0)])
         == State(map[id := 0], [Task(id, Disconnected, Registered)], map[0 := Idle])
  {
    var a2, a3 := [Evict(0, id), Spawn(0)], [Evict(0, id), Spawn(0), Insert(0)];
    var a4 := [Evict(0, id), Spawn(0), Insert(0), Disconnect(0)];
    assert a3 == a2 + [Insert(0)] && a4 == a3 + [Disconnect(0)];
    FirstSpawn(id);
    RunSnoc(a2, Insert(0));
    assert Run(a3) == State(map[id := 0], [Task(id, Running, Registered)], map[0 := Idle]);
    RunSnoc(a3, Disconnect(0));
  }

  lemma SecondLife(id: DeviceId)
    ensures Step(Step(Step(State(map[id := 0], [Task(id, Disconnected, Registered)], map[0 := Idle]),
                           Evict(0, id)), Spawn(0)), Insert(0))
         == State(map[id := 1], [Task(id, Disconnected, Replaced), Task(id, Running, Registered)], map[0 := Idle])
  {
    var s := State(map[id := 0], [Task(id, Disconnected, Registered)], map[0 := Idle]);
    var s1 := Step(s, Evict(0, id));
    assert s1.devices == map[id := 0] && s1.tasks == s.tasks;
    var s2 := Step(s1, Spawn(0));
    assert s2.tasks == [Task(id, Disconnected, Registered), Task(id, Running, Pending)];
    var s3 := Step(s2, Insert(0));
    assert s3.tasks == [Task(id, Disconnected, Replaced), Task(id, Running, Registered)];
  }

  // Without the order, a late reap by the old task of an id removes the entry of its successor.
  lemma StaleReapRemovesSuccessor(id: DeviceId)
    ensures var life := [Evict(0, id), Spawn(0), Insert(0), Disconnect(0)];
            var s := Run(life + [Evict(0, id)] + [Spawn(0)] + [Insert(0)] + [Reap(0)]);
            s.tasks == [Task(id, Reaped, Replaced), Task(id, Running, Registered)] && s.devices == map[]
  {
    var life := [Evict(0, id), Spawn(0), Insert(0), Disconnect(0)];
    FirstLife(id);
    SecondLife(id);
    RunSnoc(life, Evict(0, id));
    RunSnoc(life + [Evict(0, id)], Spawn(0));
    RunSnoc(life + [Evict(0, id)] + [Spawn(0)], Insert(0));
    RunSnoc(life + [Evict(0, id)] + [Spawn(0)] + [Insert(0)], Reap(0));
  }

  // A task that loses its route and is reaped before its insert.
  lemma EarlyReap(id: DeviceId)
    ensures Run([Evict(0, id), Spawn(0)] + [Disconnect(0)] + [Reap(0)])
         == State(map[], [Task(id, Reaped, Gone)], map[0 := Spawned(0)])
  {
    var front := [Evict(0, id), Spawn(0)];
    FirstSpawn(id);
    RunSnoc(front, Disconnect(0));
    assert Run(front + [Disconnect(0)]) == State(map[], [Task(id, Disconnected, Pending)], map[0 := Spawned(0)]);
    RunSnoc(front + [Disconnect(0)], Reap(0));
  }

  // And a task reaped between spawn and insert leaves an entry behind with nothing to remove it.
  lemma InsertAfterReapLeavesGhost(id: DeviceId)
    ensures var s := Run([Evict(0, id), Spawn(0)] + [Disconnect(0)] + [Reap(0)] + [Insert(0)]);
            s.tasks == [Task(id, Reaped, Gone)] && s.devices == map[id := 0]
  {
    EarlyReap(id);
    RunSnoc([Evict(0, id), Spawn(0)] + [Disconnect(0)] + [Reap(0)], Insert(0));
  }
}
