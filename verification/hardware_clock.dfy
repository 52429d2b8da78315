/**
 The fusion timestep from the device's own clock: differences of the low 32 bits of the
 microsecond timestamps, kept when they lie strictly between 0 and 0.1 s, and smoothed.
 As soon as one is kept the delivery-rate estimate is out of use for good.
 */
module HardwareClock {
  import opened Bits
  import opened Wrappers
  import DualSenseOutput
  import opened RateCalibration

  datatype Clock = Clock(last: Option<u32>, ema: real)

  const NO_CLOCK := Clock(None, 0.0)

  function Low32(ts: u64): u32 {
    ts % 0x1_0000_0000
  }

  function WrappingSub(cur: u32, prev: u32): u32 {
    (cur - prev) % 0x1_0000_0000
  }

  predicate Accepted(dtUs: u32) {
    0 < dtUs < 100_000
  }

  function SmoothedDt(ema: real, dt: real): real {
    if ema <= 0.0 then dt else 0.1 * dt + 0.9 * ema
  }

  function Ticked(c: Clock, ts: u64): Clock {
    if ts == 0 then c
    else
      var cur := Low32(ts);
      match c.last
      case None => Clock(Some(cur), c.ema)
      case Some(prev) =>
        var dt := WrappingSub(cur, prev);
        Clock(Some(cur), if Accepted(dt) then SmoothedDt(c.ema, dt as real / 1_000_000.0) else c.ema)
  }

  function TickedAll(c: Clock, ts: seq<u64>): Clock {
    if ts == [] then c else Ticked(TickedAll(c, ts[..|ts| - 1]), ts[|ts| - 1])
  }

  /* ---------- what the difference of two readings means ---------- */

  // The truncated difference is the true one exactly when that is a 32-bit count.
  lemma DifferenceExactIff(a: u64, b: u64)
    ensures WrappingSub(Low32(b), Low32(a)) == b - a <==> 0 <= b - a < 0x1_0000_0000
  {
    WrappedDifference(a, b, 0x1_0000_0000);
  }

  // The controller's counter runs at three ticks a microsecond and wraps at 32 bits.
  function MicrosOfTicks(ticks: u32): u64 {
    (ticks + 1) / 3
  }

  // One reading after another, with the counter wrapped in between or not.
  lemma AcceptedReadings(x: u32, y: u32, wrapped: bool)
    ensures var dt := WrappingSub(Low32(MicrosOfTicks(y)), Low32(MicrosOfTicks(x)));
            if wrapped then y < x ==> !Accepted(dt)
            else x <= y ==> -2 <= 3 * dt + x - y <= 2
  {
    var p, q := MicrosOfTicks(x), MicrosOfTicks(y);
    assert Low32(p) == p && Low32(q) == q;
    if x <= y {
      assert WrappingSub(q, p) == q - p;
    } else if q < p {
      assert WrappingSub(q, p) == 0x1_0000_0000 + q - p;
    }
  }

  lemma CountedTicks(a: nat, b: nat)
    requires 0 <= b - a < 0x1_0000_0000
    ensures var x: int, y: int := a % 0x1_0000_0000, b % 0x1_0000_0000;
            if a / 0x1_0000_0000 == b / 0x1_0000_0000 then y - x == b - a else y < x
  {
  }

  // Two readings of the counter less than one wrap apart: a difference is accepted only if
  // the counter did not wrap in between, and then it is the gap to the nearest microseconds.
  lemma AcceptedTicks(a: nat, b: nat)
    requires 0 <= b - a < 0x1_0000_0000
    ensures var from, to := MicrosOfTicks(a % 0x1_0000_0000), MicrosOfTicks(b % 0x1_0000_0000);
            var dt := WrappingSub(Low32(to), Low32(from));
            Accepted(dt) ==> a / 0x1_0000_0000 == b / 0x1_0000_0000 && -2 <= 3 * dt - (b - a) <= 2
  {
    CountedTicks(a, b);
    AcceptedReadings(a % 0x1_0000_0000, b % 0x1_0000_0000, a / 0x1_0000_0000 != b / 0x1_0000_0000);
  }

  // Without a wrap every gap from 1 us to 99 999 us is accepted.
  lemma PlausibleTicksAccepted(a: nat, b: nat)
    requires 3 <= b - a <= 299_997 && a / 0x1_0000_0000 == b / 0x1_0000_0000
    ensures var from, to := MicrosOfTicks(a % 0x1_0000_0000), MicrosOfTicks(b % 0x1_0000_0000);
            Accepted(WrappingSub(Low32(to), Low32(from)))
  {
    CountedTicks(a, b);
    AcceptedReadings(a % 0x1_0000_0000, b % 0x1_0000_0000, false);
  }

  // The timestamp in a report: four bytes after the accelerometer block, if they are there.
  function SensorTimestamp(kind: DualSenseOutput.ControllerKind, buf: seq<u8>, accel: nat): u64 {
    if kind.DualShock4? || |buf| < accel + 10 then 0
    else
      var word := buf[accel + 6..accel + 10];
      DecodeBound(word);
      Pow256Values();
      MicrosOfTicks(DecodeLE(word))
  }

  lemma TimestampOfReport(kind: DualSenseOutput.ControllerKind, head: seq<u8>, ticks: u32, trailing: seq<u8>,
                          accel: nat)
    requires |head| == accel + 6
    ensures SensorTimestamp(kind, head + EncodeLE(4, ticks) + trailing, accel) ==
            if kind.DualShock4? then 0 else MicrosOfTicks(ticks)
  {
    var buf := head + EncodeLE(4, ticks) + trailing;
    assert buf[accel + 6..accel + 10] == EncodeLE(4, ticks);
    Pow256Values();
    DecodeEncode(4, ticks);
  }

  /* ---------- runs of readings ---------- */

  function NonZero(ts: seq<u64>): seq<u64> {
    if ts == [] then []
    else if ts[|ts| - 1] == 0 then NonZero(ts[..|ts| - 1])
    else NonZero(ts[..|ts| - 1]) + [ts[|ts| - 1]]
  }

  // Readings of zero leave no trace: not even a gap between their neighbours.
  lemma {:induction false} ZeroReadingsLeaveNoTrace(c: Clock, ts: seq<u64>)
    ensures TickedAll(c, ts) == TickedAll(c, NonZero(ts))
  {
    if ts == [] {
    } else {
      var n := |ts| - 1;
      ZeroReadingsLeaveNoTrace(c, ts[..n]);
      var rest := NonZero(ts[..n]);
      assert (rest + [ts[n]])[..|rest|] == rest;
    }
  }

  // The smoothed difference is zero until one is accepted, and within (0, 0.1) ever after.
  predicate Plausible(c: Clock) {
    c.ema == 0.0 || 0.0 < c.ema < 0.1
  }

  lemma TickPlausible(c: Clock, ts: u64)
    requires Plausible(c)
    ensures Plausible(Ticked(c, ts)) && (c.ema > 0.0 ==> Ticked(c, ts).ema > 0.0)
  {
  }

  lemma {:induction false} TicksPlausible(c: Clock, ts: seq<u64>)
    requires Plausible(c)
    ensures Plausible(TickedAll(c, ts)) && (c.ema > 0.0 ==> TickedAll(c, ts).ema > 0.0)
  {
    if ts == [] {
    } else {
      TicksPlausible(c, ts[..|ts| - 1]);
      TickPlausible(TickedAll(c, ts[..|ts| - 1]), ts[|ts| - 1]);
    }
  }

  /* ---------- a counter with bounded gaps ---------- */

  const WRAP := 0x1_0000_0000

  // What a counter that never wraps would be read as.
  function Reading(count: nat): u64 {
    MicrosOfTicks(count % WRAP)
  }

  function Readings(counts: seq<nat>): seq<u64> {
    seq(|counts|, i requires 0 <= i < |counts| => Reading(counts[i]))
  }

  predicate GapsWithin(counts: seq<nat>, lo: nat, hi: nat) {
    forall i :: 0 < i < |counts| ==> lo <= counts[i] - counts[i - 1] <= hi
  }

  // A third of a gap in the range, give or take the two ticks that rounding may cost.
  predicate DtWithin(dt: real, lo: nat, hi: nat) {
    (lo as real - 2.0) / 3_000_000.0 <= dt <= (hi as real + 2.0) / 3_000_000.0
  }

  // The last count whose reading was not zero.
  function LastSeen(counts: seq<nat>): Option<nat> {
    if counts == [] then None
    else if Reading(counts[|counts| - 1]) != 0 then Some(counts[|counts| - 1])
    else LastSeen(counts[..|counts| - 1])
  }

  // How far back that is: at the last count itself, or before a wrap.
  predicate SeenFrom(seen: Option<nat>, z: nat, hi: nat) {
    if Reading(z) != 0 then seen == Some(z)
    else seen.Some? ==> seen.value / WRAP < z / WRAP && 0 <= z - seen.value <= hi + z % WRAP
  }

  predicate ClockWithin(c: Clock, seen: Option<nat>, lo: nat, hi: nat) {
    && c.last == (if seen.Some? then Some(Low32(Reading(seen.value))) else None)
    && (c.ema == 0.0 || (c.ema > 0.0 && DtWithin(c.ema, lo, hi)))
  }

  lemma SeenStep(seen: Option<nat>, y: nat, z: nat, hi: nat)
    requires 0 <= z - y <= hi < WRAP - 1 && SeenFrom(seen, y, hi)
    ensures SeenFrom(if Reading(z) != 0 then Some(z) else seen, z, hi)
  {
    assert y == y / WRAP * WRAP + y % WRAP && z == z / WRAP * WRAP + z % WRAP;
    assert Reading(y) == 0 <==> y % WRAP < 2;
    assert Reading(z) == 0 <==> z % WRAP < 2;
  }

  // A difference over a skipped reading spans a wrap and is never accepted.
  lemma AcceptedGap(a: nat, y: nat, z: nat, lo: nat, hi: nat)
    requires lo <= z - y <= hi && 2 * hi + 1 < WRAP && SeenFrom(Some(a), y, hi)
    ensures var dt := WrappingSub(Low32(Reading(z)), Low32(Reading(a)));
            Accepted(dt) ==> lo - 2 <= 3 * dt <= hi + 2
  {
    AcceptedTicks(a, z);
    if Reading(y) == 0 {
      assert y % WRAP < 2;
      assert a / WRAP < y / WRAP <= z / WRAP;
    }
  }

  lemma DtOfGap(dt: u32, lo: nat, hi: nat)
    requires lo - 2 <= 3 * dt <= hi + 2
    ensures DtWithin(dt as real / 1_000_000.0, lo, hi)
  {
  }

  lemma SmoothedWithin(ema: real, dt: real, lo: nat, hi: nat)
    requires dt > 0.0 && DtWithin(dt, lo, hi) && (ema == 0.0 || (ema > 0.0 && DtWithin(ema, lo, hi)))
    ensures SmoothedDt(ema, dt) > 0.0 && DtWithin(SmoothedDt(ema, dt), lo, hi)
  {
  }

  lemma ClockStep(c: Clock, a: nat, y: nat, z: nat, lo: nat, hi: nat)
    requires lo <= z - y <= hi && 2 * hi + 1 < WRAP && SeenFrom(Some(a), y, hi)
    requires ClockWithin(c, Some(a), lo, hi) && Reading(z) != 0
    ensures ClockWithin(Ticked(c, Reading(z)), Some(z), lo, hi)
  {
    AcceptedGap(a, y, z, lo, hi);
    var dt := WrappingSub(Low32(Reading(z)), Low32(Reading(a)));
    if Accepted(dt) {
      DtOfGap(dt, lo, hi);
      SmoothedWithin(c.ema, dt as real / 1_000_000.0, lo, hi);
    }
  }

  lemma ReadingsSnoc(counts: seq<nat>, z: nat)
    ensures TickedAll(NO_CLOCK, Readings(counts + [z])) == Ticked(TickedAll(NO_CLOCK, Readings(counts)), Reading(z))
    ensures LastSeen(counts + [z]) == if Reading(z) != 0 then Some(z) else LastSeen(counts)
  {
    assert Readings(counts + [z])[..|counts|] == Readings(counts);
    assert (counts + [z])[..|counts|] == counts;
  }

  predicate AllWithin(counts: seq<nat>, lo: nat, hi: nat)
    requires counts != []
  {
    && ClockWithin(TickedAll(NO_CLOCK, Readings(counts)), LastSeen(counts), lo, hi)
    && SeenFrom(LastSeen(counts), counts[|counts| - 1], hi)
  }

  lemma FirstWithin(z: nat, lo: nat, hi: nat)
    ensures AllWithin([z], lo, hi)
  {
    ReadingsSnoc([], z);
    assert [] + [z] == [z];
    assert Readings([]) == [];
  }

  lemma NextWithin(counts: seq<nat>, z: nat, lo: nat, hi: nat)
    requires counts != [] && AllWithin(counts, lo, hi)
    requires lo <= z - counts[|counts| - 1] <= hi && 2 * hi + 1 < WRAP
    ensures AllWithin(counts + [z], lo, hi)
  {
    var y, seen := counts[|counts| - 1], LastSeen(counts);
    ReadingsSnoc(counts, z);
    SeenStep(seen, y, z, hi);
    if Reading(z) != 0 && seen.Some? {
      ClockStep(TickedAll(NO_CLOCK, Readings(counts)), seen.value, y, z, lo, hi);
    }
  }

  lemma {:induction false} ClockWithinGaps(counts: seq<nat>, lo: nat, hi: nat)
    requires counts != [] && GapsWithin(counts, lo, hi) && 2 * hi + 1 < WRAP
    ensures AllWithin(counts, lo, hi)
  {
    var n := |counts| - 1;
    var front, z := counts[..n], counts[n];
    assert counts == front + [z];
    if n == 0 {
      FirstWithin(z, lo, hi);
    } else {
      assert front[n - 1] == counts[n - 1];
      ClockWithinGaps(front, lo, hi);
      NextWithin(front, z, lo, hi);
    }
  }

  // A counter whose gaps lie in a range, over any number of wraps, is smoothed to a value
  // within that range over three, give or take two thirds of a microsecond.
  lemma SmoothedWithinGaps(counts: seq<nat>, lo: nat, hi: nat)
    requires GapsWithin(counts, lo, hi) && 2 * hi + 1 < WRAP
    ensures var ema := TickedAll(NO_CLOCK, Readings(counts)).ema;
            ema == 0.0 || DtWithin(ema, lo, hi)
  {
    if counts == [] {
      assert Readings(counts) == [];
    } else {
      ClockWithinGaps(counts, lo, hi);
    }
  }

  /* ---------- what the average forgets ---------- */

  function NineTenths(k: nat): real {
    if k == 0 then 1.0 else 0.9 * NineTenths(k - 1)
  }

  // The low word k gaps of g microseconds after a reading.
  function WordAfter(last: u32, g: nat, k: nat): u32 {
    (last + k * g) % 0x1_0000_0000
  }

  // Nonzero readings g microseconds apart, the first of them g after the reading last kept.
  predicate Regular(last: u32, g: nat, ts: seq<u64>) {
    forall i: nat :: i < |ts| ==> ts[i] != 0 && Low32(ts[i]) == WordAfter(last, g, i + 1)
  }

  lemma NextDifference(last: u32, g: nat, k: nat)
    requires g < 0x1_0000_0000
    ensures WrappingSub(WordAfter(last, g, k + 1), WordAfter(last, g, k)) == g
  {
    OneMoreGap(k, g);
    NextWord(last + k * g, last + (k + 1) * g, g);
  }

  lemma NextWord(a: nat, b: nat, g: nat)
    requires b == a + g && g < 0x1_0000_0000
    ensures WrappingSub(b % 0x1_0000_0000, a % 0x1_0000_0000) == g
  {
    WrappedDifference(a, b, 0x1_0000_0000);
  }

  lemma OneMoreGap(k: nat, g: nat)
    ensures (k + 1) * g == k * g + g
  {
  }

  lemma WordAtStart(last: u32, g: nat)
    ensures WordAfter(last, g, 0) == last
  {
  }

  // A gap of nothing, or of a tenth of a second or more in the low word, leaves the average alone.
  lemma ImplausibleGap(c: Clock, prev: u32, ts: u64)
    requires ts != 0 && c.last == Some(prev)
    ensures var gap := WrappingSub(Low32(ts), prev);
            gap == 0 || gap >= 100_000 ==> Ticked(c, ts) == Clock(Some(Low32(ts)), c.ema)
  {
  }

  // One more reading g after the last brings the average a tenth of the way to g.
  lemma NextReading(c: Clock, prev: u32, ts: u64, g: nat)
    requires 0 < g < 100_000 && ts != 0 && c.last == Some(prev) && WrappingSub(Low32(ts), prev) == g && c.ema > 0.0
    ensures var d, next := g as real / 1_000_000.0, Ticked(c, ts);
            next.last == Some(Low32(ts)) && next.ema > 0.0 && next.ema - d == 0.9 * (c.ema - d)
  {
  }

  // After k readings the average is off by this much.
  predicate OffBy(c: Clock, g: nat, word: u32, off: real) {
    c.last == Some(word) && c.ema > 0.0 && c.ema - g as real / 1_000_000.0 == off
  }

  lemma StillOffBy(c: Clock, g: nat, last: u32, k: nat, ts: u64, q: real, off: real)
    requires 0 < g < 100_000 && OffBy(c, g, WordAfter(last, g, k), q * off)
    requires ts != 0 && Low32(ts) == WordAfter(last, g, k + 1)
    ensures OffBy(Ticked(c, ts), g, WordAfter(last, g, k + 1), (0.9 * q) * off)
  {
    NextDifference(last, g, k);
    NextReading(c, WordAfter(last, g, k), ts, g);
    Faded(q, off);
  }

  // From an average A, after k further readings g microseconds apart, wraps of the low word
  // included, the average is off from g by exactly 0.9^k (A - g).
  lemma {:induction false} ClockError(c: Clock, g: nat, ts: seq<u64>)
    requires c.last.Some? && c.ema > 0.0 && 0 < g < 100_000 && Regular(c.last.value, g, ts)
    ensures OffBy(TickedAll(c, ts), g, WordAfter(c.last.value, g, |ts|),
                  NineTenths(|ts|) * (c.ema - g as real / 1_000_000.0))
  {
    if ts == [] {
      WordAtStart(c.last.value, g);
    } else {
      var n := |ts| - 1;
      ClockError(c, g, ts[..n]);
      StillOffBy(TickedAll(c, ts[..n]), g, c.last.value, n, ts[n], NineTenths(n), c.ema - g as real / 1_000_000.0);
    }
  }

  // Readings 4 and then 5 milliseconds apart: the average is 4.1 milliseconds.
  lemma ThreeReadings(ts: seq<u64>)
    requires ts == [1, 4_001, 9_001]
    ensures TickedAll(NO_CLOCK, ts).ema == 0.0041
  {
    assert ts[..2] == [1, 4_001] && ts[..2][..1] == [1] && ts[..2][..1][..0] == [];
    assert TickedAll(NO_CLOCK, ts[..2][..1]) == Clock(Some(1), 0.0);
    assert TickedAll(NO_CLOCK, ts[..2]) == Clock(Some(4_001), 0.004);
  }

  lemma Faded(q: real, off: real)
    ensures 0.9 * (q * off) == (0.9 * q) * off
  {
  }

  /* ---------- the driver: clock first, delivery rate otherwise ---------- */

  datatype Samples = Samples(timestamps: seq<u64>, at: real)

  datatype Driver = Driver(rate: Rate, clock: Clock)

  function Handled(d: Driver, s: Samples): Driver {
    if s.timestamps == [] then d
    else
      var clock := TickedAll(d.clock, s.timestamps);
      if clock.ema > 0.0 then Driver(d.rate.(ts := Retimed(clock.ema, d.rate.ts)), clock)
      else Driver(Calibrated(d.rate, Batch(|s.timestamps|, s.at)), clock)
  }

  function Drive(d: Driver, events: seq<Samples>): Driver {
    if events == [] then d else Handled(Drive(d, events[..|events| - 1]), events[|events| - 1])
  }

  function Fresh(ts: real): Driver {
    Driver(Starting(ts), NO_CLOCK)
  }

  lemma {:induction false} DriverPlausible(d: Driver, events: seq<Samples>)
    requires Plausible(d.clock)
    ensures Plausible(Drive(d, events).clock) && (d.clock.ema > 0.0 ==> Drive(d, events).clock.ema > 0.0)
  {
    if events == [] {
    } else {
      var n := |events| - 1;
      DriverPlausible(d, events[..n]);
      TicksPlausible(Drive(d, events[..n]).clock, events[n].timestamps);
    }
  }

  lemma {:induction false} DriveSplits(d: Driver, a: seq<Samples>, b: seq<Samples>)
    ensures Drive(d, a + b) == Drive(Drive(d, a), b)
  {
    if b == [] {
      assert a + b == a;
    } else {
      DriveSplits(d, a, b[..|b| - 1]);
      assert (a + b)[..|a + b| - 1] == a + b[..|b| - 1];
    }
  }

  lemma {:induction false} ClockTakesOver(d: Driver, events: seq<Samples>)
    requires Plausible(d.clock) && d.clock.ema > 0.0
    ensures Drive(d, events).rate == d.rate.(ts := Drive(d, events).rate.ts)
  {
    if events == [] {
    } else {
      var n := |events| - 1;
      ClockTakesOver(d, events[..n]);
      DriverPlausible(d, events);
      DriverPlausible(d, events[..n]);
    }
  }

  // Once one difference has been accepted the smoothed one stays within (0, 0.1) s and the
  // rate estimator is never run again: none of its own fields changes.
  lemma EstimatorRetires(ts: real, before: seq<Samples>, after: seq<Samples>)
    requires Drive(Fresh(ts), before).clock.ema > 0.0
    ensures var d, e := Drive(Fresh(ts), before), Drive(Fresh(ts), before + after);
            0.0 < e.clock.ema < 0.1 && e.rate == d.rate.(ts := e.rate.ts)
  {
    var d := Drive(Fresh(ts), before);
    DriverPlausible(Fresh(ts), before);
    DriveSplits(Fresh(ts), before, after);
    DriverPlausible(d, after);
    ClockTakesOver(d, after);
  }

  function BatchesOf(events: seq<Samples>): seq<Batch> {
    seq(|events|, i requires 0 <= i < |events| => Batch(|events[i].timestamps|, events[i].at))
  }

  // Until then the driver is the rate calibrator, batch for batch.
  lemma {:induction false} EstimatorUntilThen(ts: real, events: seq<Samples>)
    requires Drive(Fresh(ts), events).clock.ema == 0.0
    ensures Drive(Fresh(ts), events).rate == RateCalibration.Run(ts, BatchesOf(events))
  {
    if events == [] {
    } else {
      var n := |events| - 1;
      var d := Drive(Fresh(ts), events[..n]);
      DriverPlausible(Fresh(ts), events[..n]);
      TicksPlausible(d.clock, events[n].timestamps);
      EstimatorUntilThen(ts, events[..n]);
      assert BatchesOf(events)[..n] == BatchesOf(events[..n]);
    }
  }

  predicate AllZero(ts: seq<u64>) {
    forall i :: 0 <= i < |ts| ==> ts[i] == 0
  }

  lemma {:induction false} NothingNonZero(ts: seq<u64>)
    requires AllZero(ts)
    ensures NonZero(ts) == []
  {
    if ts == [] {
    } else {
      NothingNonZero(ts[..|ts| - 1]);
    }
  }

  lemma {:induction false} SilentClock(ts: real, events: seq<Samples>)
    requires forall i :: 0 <= i < |events| ==> AllZero(events[i].timestamps)
    ensures Drive(Fresh(ts), events).clock == NO_CLOCK
  {
    if events == [] {
    } else {
      var n := |events| - 1;
      SilentClock(ts, events[..n]);
      ZeroReadingsLeaveNoTrace(NO_CLOCK, events[n].timestamps);
      NothingNonZero(events[n].timestamps);
    }
  }

  // A device that only ever reports zero, as a DualShock 4 does, is timed by its delivery rate.
  lemma ZeroClockUsesRate(ts: real, events: seq<Samples>)
    requires forall i :: 0 <= i < |events| ==> AllZero(events[i].timestamps)
    ensures Drive(Fresh(ts), events).rate == RateCalibration.Run(ts, BatchesOf(events))
  {
    SilentClock(ts, events);
    EstimatorUntilThen(ts, events);
  }

  // While the clock drives, the timestep is within five per cent of the smoothed difference.
  lemma TimestepFollowsClock(ts: real, events: seq<Samples>)
    requires ts > 0.0 && Drive(Fresh(ts), events).clock.ema > 0.0
    ensures var d := Drive(Fresh(ts), events);
            d.rate.ts > 0.0 && Abs(d.clock.ema - d.rate.ts) <= 0.05 * d.rate.ts
  {
    TimestepPositive(ts, events);
    var n := |events| - 1;
    var d := Drive(Fresh(ts), events[..n]);
    if events[n].timestamps == [] {
      TimestepFollowsClock(ts, events[..n]);
    } else {
      TimestepPositive(ts, events[..n]);
      RetimedIff(TickedAll(d.clock, events[n].timestamps).ema, d.rate.ts);
    }
  }

  lemma {:induction false} TimestepPositive(ts: real, events: seq<Samples>)
    requires ts > 0.0
    ensures Drive(Fresh(ts), events).rate.ts > 0.0
  {
    if events == [] {
    } else {
      TimestepPositive(ts, events[..|events| - 1]);
    }
  }
}
