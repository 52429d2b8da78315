/**
 MAC uniqueness with any number of registrars: exactly when it holds, and what a collision
 looks like in the log of steps.
 */
module RegistryMacs {
  import opened Registry

  // The insert enters an id whose MAC already stands in the registry under another id.
  predicate Clash(s: State, a: Action)
    requires WellFormed(s)
  {
    a.Insert? && Pc(s, a.who).Spawned? &&
    exists k :: k in s.devices && SameMac(k, s.tasks[Pc(s, a.who).task].id)
  }

  // From a registry with unique MACs a step leads to one if and only if it is no such insert.
  lemma StepUniqueIff(s: State, a: Action)
    requires WellFormed(s) && UniqueMacs(s)
    ensures UniqueMacs(Step(s, a)) <==> !Clash(s, a)
  {
    if a.Insert? && Pc(s, a.who).Spawned? {
      var id, t := s.tasks[Pc(s, a.who).task].id, Step(s, a);
      assert id in t.devices;
      if Clash(s, a) {
        var k :| k in s.devices && SameMac(k, id);
        assert k in t.devices;
      }
    }
  }

  ghost predicate UniqueAfter(actions: seq<Action>, n: nat)
    requires n <= |actions|
  {
    UniqueMacs(Run(actions[..n]))
  }

  ghost predicate ClashAt(actions: seq<Action>, n: nat)
    requires n < |actions|
  {
    WellFormed(Run(actions[..n])) && Clash(Run(actions[..n]), actions[n])
  }

  lemma {:induction false} UniqueUpTo(actions: seq<Action>, n: nat)
    requires n <= |actions| && forall m: nat :: m < n ==> !ClashAt(actions, m)
    ensures UniqueAfter(actions, n)
  {
    if n == 0 {
      assert actions[..0] == [];
    } else {
      UniqueUpTo(actions, n - 1);
      RunSound(actions[..n - 1]);
      PrefixStep(actions, n - 1);
      assert !ClashAt(actions, n - 1);
      StepUniqueIff(Run(actions[..n - 1]), actions[n - 1]);
    }
  }

  // A run keeps MACs unique throughout if and only if no step of it was such an insert.
  lemma UniqueThroughoutIff(actions: seq<Action>)
    ensures (forall n: nat :: n <= |actions| ==> UniqueAfter(actions, n))
       <==> (forall n: nat :: n < |actions| ==> !ClashAt(actions, n))
  {
    if forall n: nat :: n < |actions| ==> !ClashAt(actions, n) {
      forall n: nat | n <= |actions|
        ensures UniqueAfter(actions, n)
      {
        UniqueUpTo(actions, n);
      }
    } else {
      var n: nat :| n < |actions| && ClashAt(actions, n);
      PrefixStep(actions, n);
      if UniqueAfter(actions, n) {
        StepUniqueIff(Run(actions[..n]), actions[n]);
        assert !UniqueAfter(actions, n + 1);
      }
    }
  }

  /* ---------- a collision in the log ---------- */

  // Between its evict and its insert, the id a registrar is registering.
  predicate IsRegistering(s: State, r: nat, id: DeviceId) {
    match Pc(s, r)
    case Idle => false
    case Cleared(cleared) => cleared == id
    case Spawned(g) => g < |s.tasks| && s.tasks[g].id == id
  }

  ghost predicate Registering(actions: seq<Action>, n: nat, r: nat, id: DeviceId)
    requires n <= |actions|
  {
    IsRegistering(Run(actions[..n]), r, id)
  }

  ghost predicate Present(actions: seq<Action>, n: nat, k: DeviceId)
    requires n <= |actions|
  {
    k in Run(actions[..n]).devices
  }

  // The i-th step is an insert of k by registrar q.
  ghost predicate Enters(actions: seq<Action>, i: nat, k: DeviceId, q: nat)
    requires i < |actions|
  {
    actions[i] == Insert(q) && Registering(actions, i, q, k) && Pc(Run(actions[..i]), q).Spawned?
  }

  // r has been registering id ever since its evict at e.
  ghost predicate UnderwaySince(actions: seq<Action>, e: nat, n: nat, r: nat, id: DeviceId)
    requires n <= |actions|
  {
    && e < n && actions[e] == Evict(r, id) && Pc(Run(actions[..e]), r).Idle?
    && forall m: nat :: e < m <= n ==> Registering(actions, m, r, id)
  }

  ghost predicate PresentSince(actions: seq<Action>, i: nat, n: nat, k: DeviceId)
    requires n <= |actions|
  {
    forall m: nat :: i < m <= n ==> Present(actions, m, k)
  }

  // Another registrar entered k after r's evict, and k is there still.
  ghost predicate Intruded(actions: seq<Action>, e: nat, n: nat, r: nat, i: nat, q: nat, k: DeviceId)
    requires n <= |actions|
  {
    e < i < n && q != r && Enters(actions, i, k, q) && PresentSince(actions, i, n, k)
  }

  lemma StillRegistering(s: State, a: Action, r: nat, id: DeviceId)
    requires WellFormed(s) && IsRegistering(Step(s, a), r, id)
    ensures IsRegistering(s, r, id) || (a == Evict(r, id) && Pc(s, r).Idle?)
    ensures Pc(s, r).Spawned? ==> a != Insert(r)
  {
    match a {
      case Evict(_, _) =>
      case Spawn(_) =>
      case Insert(_) =>
      case Disconnect(_) =>
      case Exit(_) =>
      case Reap(_) =>
      case Shutdown =>
    }
  }

  lemma RegisteringStep(actions: seq<Action>, n: nat, r: nat, id: DeviceId)
    requires 0 < n <= |actions| && Registering(actions, n, r, id)
    ensures Registering(actions, n - 1, r, id) || (actions[n - 1] == Evict(r, id) && Pc(Run(actions[..n - 1]), r).Idle?)
    ensures Pc(Run(actions[..n - 1]), r).Spawned? ==> actions[n - 1] != Insert(r)
  {
    RunSound(actions[..n - 1]);
    PrefixStep(actions, n - 1);
    StillRegistering(Run(actions[..n - 1]), actions[n - 1], r, id);
  }

  lemma EntryByInsert(s: State, a: Action, k: DeviceId)
    requires WellFormed(s) && k in Step(s, a).devices && k !in s.devices
    ensures a.Insert? && Pc(s, a.who).Spawned? && IsRegistering(s, a.who, k)
  {
  }

  lemma EntryStep(actions: seq<Action>, n: nat, k: DeviceId) returns (q: nat)
    requires 0 < n <= |actions| && Present(actions, n, k) && !Present(actions, n - 1, k)
    ensures Enters(actions, n - 1, k, q)
  {
    RunSound(actions[..n - 1]);
    PrefixStep(actions, n - 1);
    EntryByInsert(Run(actions[..n - 1]), actions[n - 1], k);
    q := actions[n - 1].who;
  }

  lemma {:induction false} EvictOf(actions: seq<Action>, n: nat, r: nat, id: DeviceId) returns (e: nat)
    requires n <= |actions| && Registering(actions, n, r, id)
    ensures UnderwaySince(actions, e, n, r, id)
  {
    assert n > 0 by {
      assert actions[..0] == [];
    }
    RegisteringStep(actions, n, r, id);
    if Registering(actions, n - 1, r, id) {
      e := EvictOf(actions, n - 1, r, id);
    } else {
      e := n - 1;
    }
  }

  lemma EnteredNow(actions: seq<Action>, e: nat, n: nat, r: nat, id: DeviceId, k: DeviceId) returns (q: nat)
    requires e + 1 < n <= |actions| && Registering(actions, n, r, id) && SameMac(k, id)
    requires Present(actions, n, k) && !Present(actions, n - 1, k)
    ensures Intruded(actions, e, n, r, n - 1, q, k)
  {
    RegisteringStep(actions, n, r, id);
    q := EntryStep(actions, n, k);
  }

  lemma StillThere(actions: seq<Action>, e: nat, n: nat, r: nat, i: nat, q: nat, k: DeviceId)
    requires 0 < n <= |actions| && Intruded(actions, e, n - 1, r, i, q, k) && Present(actions, n, k)
    ensures Intruded(actions, e, n, r, i, q, k)
  {
  }

  lemma StillUnderway(actions: seq<Action>, e: nat, n: nat, r: nat, id: DeviceId, k: DeviceId)
    requires n <= |actions| && UnderwaySince(actions, e, n, r, id) && Present(actions, n, k)
    requires !Present(actions, e + 1, k)
    ensures e + 1 < n && Registering(actions, n, r, id) && UnderwaySince(actions, e, n - 1, r, id)
  {
  }

  lemma {:induction false} IntruderOf(actions: seq<Action>, e: nat, n: nat, r: nat, id: DeviceId, k: DeviceId)
    returns (i: nat, q: nat)
    requires n <= |actions| && UnderwaySince(actions, e, n, r, id) && SameMac(k, id) && Present(actions, n, k)
    requires !Present(actions, e + 1, k)
    ensures Intruded(actions, e, n, r, i, q, k)
  {
    StillUnderway(actions, e, n, r, id, k);
    if Present(actions, n - 1, k) {
      i, q := IntruderOf(actions, e, n - 1, r, id, k);
      StillThere(actions, e, n, r, i, q, k);
    } else {
      q := EnteredNow(actions, e, n, r, id, k);
      i := n - 1;
    }
  }

  // Right after the evict nothing with that MAC is left under another id.
  lemma EvictClears(actions: seq<Action>, e: nat, n: nat, r: nat, id: DeviceId, k: DeviceId)
    requires n <= |actions| && UnderwaySince(actions, e, n, r, id) && SameMac(k, id)
    ensures !Present(actions, e + 1, k)
  {
    RunSound(actions[..e]);
    PrefixStep(actions, e);
  }

  // The step at n inserts id for r, and since r's evict another registrar has entered the
  // same MAC under another id, which is there still.
  ghost predicate Overtaken(actions: seq<Action>, n: nat, r: nat, id: DeviceId, e: nat, i: nat, q: nat, k: DeviceId)
    requires n < |actions|
  {
    && Enters(actions, n, id, r) && UnderwaySince(actions, e, n, r, id)
    && SameMac(k, id) && Intruded(actions, e, n, r, i, q, k)
  }

  ghost predicate OvertakenAt(actions: seq<Action>, n: nat)
    requires n < |actions|
  {
    exists r, id, e, i, q, k :: Overtaken(actions, n, r, id, e, i, q, k)
  }

  // A step puts a second entry beside one of the same MAC if and only if it was overtaken.
  lemma ClashIffOvertaken(actions: seq<Action>, n: nat)
    requires n < |actions|
    ensures ClashAt(actions, n) <==> OvertakenAt(actions, n)
  {
    RunSound(actions[..n]);
    var s, a := Run(actions[..n]), actions[n];
    if ClashAt(actions, n) {
      var r := a.who;
      var id := s.tasks[Pc(s, r).task].id;
      var k :| k in s.devices && SameMac(k, id);
      var e := EvictOf(actions, n, r, id);
      EvictClears(actions, e, n, r, id, k);
      var i, q := IntruderOf(actions, e, n, r, id, k);
      assert Overtaken(actions, n, r, id, e, i, q, k);
    }
    if OvertakenAt(actions, n) {
      var r, id, e, i, q, k :| Overtaken(actions, n, r, id, e, i, q, k);
      assert Present(actions, n, k);
    }
  }

  // MACs are unique throughout a run if and only if no registrar was overtaken in it.
  lemma UniqueIffNeverOvertaken(actions: seq<Action>)
    ensures (forall n: nat :: n <= |actions| ==> UniqueAfter(actions, n))
       <==> (forall n: nat :: n < |actions| ==> !OvertakenAt(actions, n))
  {
    UniqueThroughoutIff(actions);
    forall n: nat | n < |actions|
      ensures ClashAt(actions, n) <==> OvertakenAt(actions, n)
    {
      ClashIffOvertaken(actions, n);
    }
  }
}
