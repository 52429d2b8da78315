/**
 Motion from a car's heading and speed: yaw rate and longitudinal acceleration are the
 differences between streamed frames over the time between them.  Headings are degrees,
 frame times microseconds, speeds miles per hour.
 */
module TeslaHeading {
  import opened Bits
  import opened Wrappers

  const MPH_TO_MPS: real := 0.44704
  const DEG_TO_RAD: real := 0.01745329238474369049072265625
  const GRAVITY: real := 9.80665
  const MIN_GAP: real := 0.001

  /* ---------- the shortest turn ---------- */

  function Turns(k: int): real {
    360.0 * k as real
  }

  ghost predicate WholeTurns(x: real) {
    exists k :: x == Turns(k)
  }

  // The whole turns to take off so that the rest lies in (-180, 180].
  function TurnsIn(x: real): int {
    var q := (x - 180.0) / 360.0;
    if q.Floor as real == q then q.Floor else q.Floor + 1
  }

  function ShortestTurn(x: real): (d: real)
    ensures -180.0 < d <= 180.0
  {
    var q := (x - 180.0) / 360.0;
    assert q * 360.0 == x - 180.0;
    x - Turns(TurnsIn(x))
  }

  lemma TurnsAdd(j: int, k: int)
    ensures Turns(j + k) == Turns(j) + Turns(k) && Turns(-j) == -Turns(j)
  {
  }

  // It is the only angle in (-180, 180] that differs from x by whole turns.
  lemma ShortestTurnUnique(x: real, d: real)
    ensures d == ShortestTurn(x) <==> -180.0 < d <= 180.0 && WholeTurns(x - d)
  {
    var e := ShortestTurn(x);
    assert x - e == Turns(TurnsIn(x));
    if -180.0 < d <= 180.0 && WholeTurns(x - d) {
      var k :| x - d == Turns(k);
      assert e - d == Turns(k - TurnsIn(x));
    }
  }

  method UnwrappedDelta(a: real, b: real) returns (d: real)
    ensures d == ShortestTurn(b - a)
  {
    d := b - a;
    ghost var k := 0;
    assert Turns(0) == 0.0;
    while d > 180.0
      invariant b - a - d == Turns(k)
      invariant d > -180.0 || d == b - a
    {
      TurnsAdd(k, 1);
      d := d - 360.0;
      k := k + 1;
    }
    while d <= -180.0
      invariant b - a - d == Turns(k) && d <= 180.0
    {
      TurnsAdd(k, -1);
      d := d + 360.0;
      k := k - 1;
    }
    ShortestTurnUnique(b - a, d);
  }

  /* ---------- one frame ---------- */

  datatype Frame = Frame(at: u64, heading: Option<real>, speedMph: Option<real>)

  // What the last complete frame left.
  datatype Memory = Memory(heading: real, speed: real, at: u64)

  datatype Sample = Sample(yawRate: real, longitudinal: real, lateral: real, vertical: real, at: u64)

  predicate Complete(f: Frame) {
    f.heading.Some? && f.speedMph.Some?
  }

  function Remembered(f: Frame): Memory
    requires Complete(f)
  {
    Memory(f.heading.value, f.speedMph.value * MPH_TO_MPS, f.at)
  }

  function Gap(prev: u64, at: u64): real {
    (if at >= prev then at - prev else 0) as real / 1_000_000.0
  }

  function Next(m: Option<Memory>, f: Frame): Option<Memory> {
    if Complete(f) then Some(Remembered(f)) else m
  }

  function Emitted(m: Option<Memory>, f: Frame): Option<Sample> {
    if !Complete(f) || m.None? || Gap(m.value.at, f.at) <= MIN_GAP then None
    else
      var dt, now := Gap(m.value.at, f.at), Remembered(f);
      var yawRate := ShortestTurn(now.heading - m.value.heading) * DEG_TO_RAD / dt;
      Some(Sample(yawRate, (now.speed - m.value.speed) / dt, now.speed * yawRate, GRAVITY, f.at))
  }

  /** The differentiator, one field per remembered quantity. */
  class ImuSynth {
    var lastHeading: Option<real>
    var lastSpeed: Option<real>
    var lastAt: Option<u64>

    predicate Valid()
      reads this
    {
      lastHeading.Some? == lastSpeed.Some? == lastAt.Some?
    }

    function View(): Option<Memory>
      reads this
      requires Valid()
    {
      if lastAt.Some? then Some(Memory(lastHeading.value, lastSpeed.value, lastAt.value)) else None
    }

    constructor ()
      ensures Valid() && View() == None
    {
      lastHeading, lastSpeed, lastAt := None, None, None;
    }

    method Reset()
      modifies this
      ensures Valid() && View() == None
    {
      lastHeading, lastSpeed, lastAt := None, None, None;
    }

    method Ingest(f: Frame) returns (s: Option<Sample>)
      requires Valid()
      modifies this
      ensures Valid() && View() == Next(old(View()), f) && s == Emitted(old(View()), f)
    {
      if f.heading.None? || f.speedMph.None? {
        return None;
      }
      var heading, speed := f.heading.value, f.speedMph.value * MPH_TO_MPS;
      var prevAt, prevHeading, prevSpeed := lastAt, lastHeading, lastSpeed;
      lastAt, lastHeading, lastSpeed := Some(f.at), Some(heading), Some(speed);
      if prevAt.None? || prevHeading.None? || prevSpeed.None? {
        return None;
      }
      var dt := Gap(prevAt.value, f.at);
      if dt <= MIN_GAP {
        return None;
      }
      var turn := UnwrappedDelta(prevHeading.value, heading);
      assert View() == Some(Remembered(f));
      assert old(View()) == Some(Memory(prevHeading.value, prevSpeed.value, prevAt.value));
      var yawRate := turn * DEG_TO_RAD / dt;
      s := Some(Sample(yawRate, (speed - prevSpeed.value) / dt, speed * yawRate, GRAVITY, f.at));
      ghost var m := old(View());
      assert Gap(m.value.at, f.at) == dt && Remembered(f).speed == speed;
      assert ShortestTurn(Remembered(f).heading - m.value.heading) == turn;
      ghost var e := Emitted(m, f);
      assert e.Some? && e.value.yawRate == yawRate && e.value.lateral == speed * yawRate;
    }
  }

  /* ---------- runs ---------- */

  function MemoryAfter(frames: seq<Frame>): Option<Memory> {
    if frames == [] then None else Next(MemoryAfter(frames[..|frames| - 1]), frames[|frames| - 1])
  }

  function CompleteOnly(frames: seq<Frame>): (c: seq<Frame>)
    ensures forall i :: 0 <= i < |c| ==> Complete(c[i])
  {
    if frames == [] then []
    else
      var front := CompleteOnly(frames[..|frames| - 1]);
      if Complete(frames[|frames| - 1]) then front + [frames[|frames| - 1]] else front
  }

  // A sample integrated back over the time it covers: the degrees turned and the speed gained.
  function TurnShown(m: Option<Memory>, f: Frame): real {
    var s := Emitted(m, f);
    if s.Some? then s.value.yawRate / DEG_TO_RAD * Gap(m.value.at, f.at) else 0.0
  }

  function GainShown(m: Option<Memory>, f: Frame): real {
    var s := Emitted(m, f);
    if s.Some? then s.value.longitudinal * Gap(m.value.at, f.at) else 0.0
  }

  // A complete frame within a millisecond of the one before is remembered but not reported.
  predicate Swallowed(m: Option<Memory>, f: Frame) {
    Complete(f) && m.Some? && Gap(m.value.at, f.at) <= MIN_GAP
  }

  function TurnSwallowed(m: Option<Memory>, f: Frame): real {
    if Swallowed(m, f) then ShortestTurn(f.heading.value - m.value.heading) else 0.0
  }

  function GainSwallowed(m: Option<Memory>, f: Frame): real {
    if Swallowed(m, f) then Remembered(f).speed - m.value.speed else 0.0
  }

  datatype Sums = Sums(turned: real, gained: real, lostTurn: real, lostGain: real)

  function Totals(frames: seq<Frame>): Sums {
    if frames == [] then Sums(0.0, 0.0, 0.0, 0.0)
    else
      var n := |frames| - 1;
      var t, m, f := Totals(frames[..n]), MemoryAfter(frames[..n]), frames[n];
      Sums(t.turned + TurnShown(m, f), t.gained + GainShown(m, f),
           t.lostTurn + TurnSwallowed(m, f), t.lostGain + GainSwallowed(m, f))
  }

  lemma {:induction false} MemoryIsLastComplete(frames: seq<Frame>)
    ensures var c := CompleteOnly(frames);
            MemoryAfter(frames) == if c == [] then None else Some(Remembered(c[|c| - 1]))
  {
    if frames == [] {
    } else {
      MemoryIsLastComplete(frames[..|frames| - 1]);
    }
  }

  lemma Undivided(x: real, dt: real)
    requires dt > 0.0
    ensures x * DEG_TO_RAD / dt / DEG_TO_RAD * dt == x && x / dt * dt == x
  {
    var y := x * DEG_TO_RAD / dt;
    assert y * dt == x * DEG_TO_RAD;
    var z := y / DEG_TO_RAD;
    assert z * DEG_TO_RAD == y;
    assert (z * dt - x) * DEG_TO_RAD == 0.0;
  }

  lemma WholeTurnsAdd(x: real, y: real)
    requires WholeTurns(x)
    ensures WholeTurns(y) <==> WholeTurns(x + y)
  {
    var j :| x == Turns(j);
    if WholeTurns(y) {
      var k :| y == Turns(k);
      TurnsAdd(j, k);
    }
    if WholeTurns(x + y) {
      var k :| x + y == Turns(k);
      TurnsAdd(k, -j);
      TurnsAdd(j, 0);
      assert y == Turns(k - j);
    }
  }

  // What one frame adds, reported or swallowed, is the shortest turn and the speed difference.
  lemma FrameAccounts(m: Option<Memory>, f: Frame)
    ensures TurnShown(m, f) + TurnSwallowed(m, f) ==
            if Complete(f) && m.Some? then ShortestTurn(f.heading.value - m.value.heading) else 0.0
    ensures GainShown(m, f) + GainSwallowed(m, f) ==
            if Complete(f) && m.Some? then Remembered(f).speed - m.value.speed else 0.0
  {
    if Emitted(m, f).Some? {
      Undivided(ShortestTurn(f.heading.value - m.value.heading), Gap(m.value.at, f.at));
      Undivided(Remembered(f).speed - m.value.speed, Gap(m.value.at, f.at));
    }
  }

  function HeadingChange(c: seq<Frame>): real
    requires c != [] && Complete(c[0]) && Complete(c[|c| - 1])
  {
    c[|c| - 1].heading.value - c[0].heading.value
  }

  function SpeedChange(c: seq<Frame>): real
    requires c != [] && Complete(c[0]) && Complete(c[|c| - 1])
  {
    Remembered(c[|c| - 1]).speed - Remembered(c[0]).speed
  }

  // Over any run, what the samples integrate to and what was swallowed add up to the change
  // from the first complete frame to the last: the heading modulo 360, the speed exactly.
  lemma {:induction false} RunAccounts(frames: seq<Frame>)
    ensures var c, t := CompleteOnly(frames), Totals(frames);
            if c == [] then t == Sums(0.0, 0.0, 0.0, 0.0)
            else WholeTurns(HeadingChange(c) - t.turned - t.lostTurn) && t.gained + t.lostGain == SpeedChange(c)
  {
    if frames == [] {
    } else {
      var n := |frames| - 1;
      var c, f, t := CompleteOnly(frames[..n]), frames[n], Totals(frames[..n]);
      RunAccounts(frames[..n]);
      MemoryIsLastComplete(frames[..n]);
      FrameAccounts(MemoryAfter(frames[..n]), f);
      if Complete(f) && c == [] {
        assert HeadingChange(CompleteOnly(frames)) == 0.0 == Turns(0);
      } else if Complete(f) {
        var step := f.heading.value - c[|c| - 1].heading.value;
        assert HeadingChange(CompleteOnly(frames)) == HeadingChange(c) + step;
        ShortestTurnUnique(step, ShortestTurn(step));
        WholeTurnsAdd(step - ShortestTurn(step), HeadingChange(c) - t.turned - t.lostTurn);
      }
    }
  }

  predicate WellSpaced(frames: seq<Frame>) {
    var c := CompleteOnly(frames);
    forall i :: 0 < i < |c| ==> c[i].at - c[i - 1].at > 1000
  }

  lemma {:induction false} NothingSwallowed(frames: seq<Frame>)
    requires WellSpaced(frames)
    ensures Totals(frames).lostTurn == 0.0 && Totals(frames).lostGain == 0.0
  {
    if frames == [] {
    } else {
      var n := |frames| - 1;
      var c := CompleteOnly(frames[..n]);
      MemoryIsLastComplete(frames[..n]);
      assert forall i :: 0 <= i < |c| ==> CompleteOnly(frames)[i] == c[i];
      NothingSwallowed(frames[..n]);
      if Complete(frames[n]) && c != [] {
        assert CompleteOnly(frames)[|c|] == frames[n];
        assert frames[n].at - c[|c| - 1].at > 1000;
      }
    }
  }

  // Complete frames more than a millisecond apart, incomplete ones anywhere between: the
  // yaw rate integrates to the heading change modulo 360, the acceleration to the speed change.
  lemma HeadingConserved(frames: seq<Frame>)
    requires WellSpaced(frames) && CompleteOnly(frames) != []
    ensures WholeTurns(HeadingChange(CompleteOnly(frames)) - Totals(frames).turned)
    ensures Totals(frames).gained == SpeedChange(CompleteOnly(frames))
  {
    RunAccounts(frames);
    NothingSwallowed(frames);
  }

  // In general heading is conserved exactly when the swallowed turns cancel, speed when the
  // swallowed gains do.
  lemma HeadingConservedIff(frames: seq<Frame>)
    requires CompleteOnly(frames) != []
    ensures WholeTurns(HeadingChange(CompleteOnly(frames)) - Totals(frames).turned)
       <==> WholeTurns(Totals(frames).lostTurn)
    ensures Totals(frames).gained == SpeedChange(CompleteOnly(frames)) <==> Totals(frames).lostGain == 0.0
  {
    var c, t := CompleteOnly(frames), Totals(frames);
    RunAccounts(frames);
    WholeTurnsAdd(HeadingChange(c) - t.turned - t.lostTurn, t.lostTurn);
  }

  // Two frames a millisecond apart and a quarter turn between them: nothing is reported, and turn and gain are lost.
  lemma CloseFramesLoseTurn()
    ensures var frames := [Frame(0, Some(0.0), Some(0.0)), Frame(1000, Some(90.0), Some(10.0))];
            CompleteOnly(frames) == frames && Totals(frames).turned == 0.0 && Totals(frames).gained == 0.0 &&
            !WholeTurns(HeadingChange(frames) - Totals(frames).turned) && SpeedChange(frames) == 10.0 * MPH_TO_MPS
  {
    var f, g := Frame(0, Some(0.0), Some(0.0)), Frame(1000, Some(90.0), Some(10.0));
    var frames := [f, g];
    assert frames[..1] == [f] && [f][..0] == [] && frames[1] == g && [f][0] == f;
    assert MemoryAfter([f]) == Some(Remembered(f));
    assert Gap(0, 1000) == MIN_GAP;
    assert CompleteOnly([f]) == [f];
    assert Totals([f]) == Sums(0.0, 0.0, 0.0, 0.0);
    NotWholeTurns();
  }

  lemma NotWholeTurns()
    ensures !WholeTurns(90.0)
  {
    forall k
      ensures 90.0 != Turns(k)
    {
    }
  }

  /* ---------- the other channels of a sample ---------- */

  // The units: a mile is 1609.344 metres, half a turn lies between 3.141592 and 3.141593
  // radians, and straight down is one standard gravity, whatever the car does.
  lemma Units(m: Option<Memory>, f: Frame)
    requires Emitted(m, f).Some?
    ensures 3600.0 * MPH_TO_MPS == 1609.344
    ensures 3.141592 < 180.0 * DEG_TO_RAD < 3.141593
    ensures Emitted(m, f).value.vertical == 9.80665 && Emitted(m, f).value.at == f.at
  {
  }

  // At constant speed v on a circle of radius r, the turn seen between two frames being the
  // arc v dt over r: the sample shows no change of speed, turns v / r and pulls sideways v^2 / r.
  lemma OnACircle(before: Frame, after: Frame, r: real)
    requires Complete(before) && Complete(after) && Gap(before.at, after.at) > 0.001
    requires before.speedMph == after.speedMph && r > 0.0
    requires var v, dt := after.speedMph.value * 1609.344 / 3600.0, Gap(before.at, after.at);
             ShortestTurn(after.heading.value - before.heading.value) * DEG_TO_RAD * r == v * dt
    ensures var v, s := after.speedMph.value * 1609.344 / 3600.0, Emitted(Some(Remembered(before)), after);
            s.Some? && s.value.longitudinal == 0.0 && s.value.yawRate == v / r && s.value.lateral == v * v / r
  {
    var v, dt := after.speedMph.value * 1609.344 / 3600.0, Gap(before.at, after.at);
    assert Remembered(after).speed == v;
    Rates(ShortestTurn(after.heading.value - before.heading.value) * DEG_TO_RAD, v, dt, r);
  }

  lemma Rates(turn: real, v: real, dt: real, r: real)
    requires dt > 0.0 && r > 0.0 && turn * r == v * dt
    ensures turn / dt == v / r && v * (turn / dt) == v * v / r
  {
    var w := turn / dt;
    assert w * dt == turn;
    assert (w * r - v) * dt == 0.0;
    assert w * r == v;
    assert v * w * r == v * v;
  }
}
