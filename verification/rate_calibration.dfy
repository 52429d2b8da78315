/**
 The fusion timestep from the delivery rate: after a warm-up, samples are counted over
 windows of at least four seconds, each window's rate is smoothed, and the timestep is
 replaced when it is more than five per cent away from the clamped reciprocal.  Times are
 seconds; every batch carries its arrival.
 */
module RateCalibration {
  import opened Wrappers

  const MIN_TS: real := 1.0 / 1250.0
  const MAX_TS: real := 1.0 / 40.0
  const WARMUP: real := 1.5
  const WINDOW: real := 4.0
  const THRESHOLD: real := 0.05

  type pos = x: real | 0.0 < x witness 1.0

  datatype Batch = Batch(samples: nat, at: real)

  datatype Rate = Rate(first: Option<real>, start: Option<real>, count: nat, ema: Option<pos>, ts: real)

  function Starting(ts: real): Rate {
    Rate(None, None, 0, None, ts)
  }

  // The time since an earlier instant, zero if it is not earlier.
  function Since(t: real, now: real): (d: real)
    ensures d >= 0.0
  {
    if now > t then now - t else 0.0
  }

  function Clamp(x: real): (y: real)
    ensures 0.0008 <= y <= 0.025 && (0.0008 <= x <= 0.025 ==> y == x)
    ensures (x < 0.0008 ==> y == 0.0008) && (x > 0.025 ==> y == 0.025)
  {
    if x < MIN_TS then MIN_TS else if x > MAX_TS then MAX_TS else x
  }

  function Abs(x: real): real {
    if x < 0.0 then -x else x
  }

  function CorrectedTimestep(measured: real, current: real, threshold: real): Option<real> {
    if measured <= 0.0 || current <= 0.0 then None
    else if Abs(measured - current) / current > threshold then Some(measured)
    else None
  }

  function Retimed(measured: real, current: real): real {
    match CorrectedTimestep(measured, current, THRESHOLD)
    case Some(ts) => ts
    case None => current
  }

  function Smoothed(ema: Option<pos>, rate: pos): pos {
    if ema.Some? then 0.25 * rate + 0.75 * ema.value else rate
  }

  predicate WarmedUp(s: Rate, b: Batch) {
    b.samples > 0 && s.first.Some? && Since(s.first.value, b.at) >= WARMUP
  }

  predicate Closes(s: Rate, b: Batch) {
    WarmedUp(s, b) && s.start.Some? && Since(s.start.value, b.at) >= WINDOW
  }

  function WindowRate(s: Rate, b: Batch): pos
    requires Closes(s, b)
  {
    (s.count + b.samples) as real / Since(s.start.value, b.at)
  }

  function Calibrated(s: Rate, b: Batch): Rate {
    if b.samples == 0 then s
    else if s.first.None? then s.(first := Some(b.at))
    else if !WarmedUp(s, b) then s
    else if !Closes(s, b) then
      s.(start := Some(if s.start.Some? then s.start.value else b.at), count := s.count + b.samples)
    else
      var ema := Smoothed(s.ema, WindowRate(s, b));
      Rate(s.first, Some(b.at), 0, Some(ema), Retimed(Clamp(1.0 / ema), s.ts))
  }

  function Run(ts: real, batches: seq<Batch>): Rate {
    if batches == [] then Starting(ts)
    else Calibrated(Run(ts, batches[..|batches| - 1]), batches[|batches| - 1])
  }

  /* ---------- the windows of a run ---------- */

  datatype Window = Window(start: real, end: real, samples: nat)

  function Closing(w: seq<Window>, s: Rate, b: Batch): seq<Window> {
    if Closes(s, b) then w + [Window(s.start.value, b.at, s.count + b.samples)] else w
  }

  function Windows(ts: real, batches: seq<Batch>): seq<Window> {
    if batches == [] then []
    else
      var n := |batches| - 1;
      Closing(Windows(ts, batches[..n]), Run(ts, batches[..n]), batches[n])
  }

  // The arrival that opens the warm-up: the first batch that carries a sample.
  function FirstArrival(batches: seq<Batch>): Option<real> {
    if batches == [] then None
    else
      var n := |batches| - 1;
      var earlier := FirstArrival(batches[..n]);
      if earlier.Some? || batches[n].samples == 0 then earlier else Some(batches[n].at)
  }

  // The batches that count: those at least 1.5 s after the first.
  function AfterWarmup(batches: seq<Batch>): seq<Batch> {
    if batches == [] then []
    else
      var n := |batches| - 1;
      var first := FirstArrival(batches);
      if batches[n].samples > 0 && first.Some? && Since(first.value, batches[n].at) >= 1.5
      then AfterWarmup(batches[..n]) + [batches[n]] else AfterWarmup(batches[..n])
  }

  function Total(batches: seq<Batch>): nat {
    if batches == [] then 0 else Total(batches[..|batches| - 1]) + batches[|batches| - 1].samples
  }

  function TotalIn(windows: seq<Window>): nat {
    if windows == [] then 0 else TotalIn(windows[..|windows| - 1]) + windows[|windows| - 1].samples
  }

  predicate Tile(windows: seq<Window>) {
    && (forall i :: 0 <= i < |windows| ==> windows[i].end - windows[i].start >= 4.0 && windows[i].samples > 0)
    && (forall i :: 0 < i < |windows| ==> windows[i].start == windows[i - 1].end)
  }

  lemma TileSnoc(windows: seq<Window>, w: Window)
    requires Tile(windows) && w.end - w.start >= WINDOW && w.samples > 0
    requires windows != [] ==> w.start == windows[|windows| - 1].end
    ensures Tile(windows + [w])
  {
  }

  lemma TotalInSnoc(windows: seq<Window>, w: Window)
    ensures TotalIn(windows + [w]) == TotalIn(windows) + w.samples
  {
    assert (windows + [w])[..|windows|] == windows;
  }

  lemma {:induction false} FirstIsFirstArrival(ts: real, batches: seq<Batch>)
    ensures Run(ts, batches).first == FirstArrival(batches)
  {
    if batches == [] {
    } else {
      FirstIsFirstArrival(ts, batches[..|batches| - 1]);
    }
  }

  lemma TotalSnoc(a: seq<Batch>, b: Batch)
    ensures Total(a + [b]) == Total(a) + b.samples
  {
    assert (a + [b])[..|a|] == a;
  }

  predicate Tally(w: seq<Window>, a: seq<Batch>, start: Option<real>, count: nat) {
    && Tile(w)
    && TotalIn(w) + count == Total(a)
    && (start.Some? <==> a != [])
    && (w != [] ==> a != [] && w[0].start == a[0].at && start == Some(w[|w| - 1].end))
    && (w == [] && a != [] ==> start == Some(a[0].at))
  }

  predicate Accounts(w: seq<Window>, a: seq<Batch>, s: Rate) {
    Tally(w, a, s.start, s.count)
  }

  lemma TallyCounted(w: seq<Window>, a: seq<Batch>, start: Option<real>, count: nat, b: Batch)
    requires Tally(w, a, start, count)
    ensures Tally(w, a + [b], Some(if start.Some? then start.value else b.at), count + b.samples)
  {
    TotalSnoc(a, b);
  }

  lemma TallyClosed(w: seq<Window>, a: seq<Batch>, start: real, count: nat, b: Batch)
    requires Tally(w, a, Some(start), count) && b.samples > 0 && b.at - start >= WINDOW
    ensures Tally(w + [Window(start, b.at, count + b.samples)], a + [b], Some(b.at), 0)
  {
    var x := Window(start, b.at, count + b.samples);
    TotalSnoc(a, b);
    TileSnoc(w, x);
    TotalInSnoc(w, x);
  }

  // What one batch does to the open window.
  lemma OpenWindow(s: Rate, b: Batch)
    ensures var t := Calibrated(s, b);
            if Closes(s, b) then t.start == Some(b.at) && t.count == 0
            else if WarmedUp(s, b) then
              t.start == Some(if s.start.Some? then s.start.value else b.at) && t.count == s.count + b.samples
            else t.start == s.start && t.count == s.count
  {
  }

  lemma AccountsStep(w: seq<Window>, a: seq<Batch>, s: Rate, b: Batch)
    requires Accounts(w, a, s)
    ensures Accounts(Closing(w, s, b), if WarmedUp(s, b) then a + [b] else a, Calibrated(s, b))
  {
    OpenWindow(s, b);
    if Closes(s, b) {
      TallyClosed(w, a, s.start.value, s.count, b);
    } else if WarmedUp(s, b) {
      TallyCounted(w, a, s.start, s.count, b);
    }
  }

  lemma CountsIff(ts: real, batches: seq<Batch>)
    requires batches != []
    ensures var n := |batches| - 1;
            var s, b, a := Run(ts, batches[..n]), batches[n], AfterWarmup(batches[..n]);
            AfterWarmup(batches) == if WarmedUp(s, b) then a + [b] else a
  {
    FirstIsFirstArrival(ts, batches[..|batches| - 1]);
  }

  // The closed windows follow one another without gap from the first counted batch to the
  // start of the open one, and they and the open count hold every counted sample once.
  lemma {:induction false} WindowsTile(ts: real, batches: seq<Batch>)
    ensures Accounts(Windows(ts, batches), AfterWarmup(batches), Run(ts, batches))
  {
    if batches == [] {
    } else {
      var n := |batches| - 1;
      WindowsTile(ts, batches[..n]);
      CountsIff(ts, batches);
      AccountsStep(Windows(ts, batches[..n]), AfterWarmup(batches[..n]), Run(ts, batches[..n]), batches[n]);
    }
  }

  function RateOf(w: Window): real
    requires w.end > w.start
  {
    w.samples as real / (w.end - w.start)
  }

  // Whatever range holds every window's rate holds the smoothed rate.
  lemma {:induction false} SmoothedWithinRates(ts: real, batches: seq<Batch>, lo: real, hi: real)
    requires forall w :: w in Windows(ts, batches) && w.end > w.start ==> lo <= RateOf(w) <= hi
    ensures var ema := Run(ts, batches).ema;
            (ema.Some? <==> Windows(ts, batches) != []) && (ema.Some? ==> lo <= ema.value <= hi)
  {
    if batches == [] {
    } else {
      var n := |batches| - 1;
      var s, b, w := Run(ts, batches[..n]), batches[n], Windows(ts, batches[..n]);
      assert forall x :: x in w ==> x in Windows(ts, batches);
      SmoothedWithinRates(ts, batches[..n], lo, hi);
      if Closes(s, b) {
        var x := Window(s.start.value, b.at, s.count + b.samples);
        assert x in Windows(ts, batches) && lo <= RateOf(x) <= hi && RateOf(x) == WindowRate(s, b);
      }
    }
  }

  /* ---------- the timestep follows the smoothed rate ---------- */

  lemma RelativeGap(x: real, c: real, k: real)
    requires c > 0.0
    ensures x / c > k <==> x > k * c
  {
    var q := x / c;
    assert q * c == x;
    if q > k {
      assert (q - k) * c > 0.0;
    } else {
      assert (k - q) * c >= 0.0;
    }
  }

  // The timestep is replaced exactly when it is more than five per cent off.
  lemma RetimedIff(measured: real, current: real)
    requires measured > 0.0 && current > 0.0
    ensures Retimed(measured, current) ==
            if Abs(measured - current) > 0.05 * current then measured else current
    ensures Retimed(measured, current) != current <==> Abs(measured - current) > 0.05 * current
  {
    RelativeGap(Abs(measured - current), current, THRESHOLD);
  }

  // At every point of every run the live timestep is within five per cent of the clamped
  // reciprocal of the smoothed rate, if a window has closed.
  lemma {:induction false} TimestepFollowsRate(ts: real, batches: seq<Batch>)
    requires ts > 0.0
    ensures var s := Run(ts, batches);
            s.ts > 0.0 && if s.ema.Some? then Abs(Clamp(1.0 / s.ema.value) - s.ts) <= 0.05 * s.ts else s.ts == ts
  {
    if batches == [] {
    } else {
      var n := |batches| - 1;
      var s, b := Run(ts, batches[..n]), batches[n];
      TimestepFollowsRate(ts, batches[..n]);
      if Closes(s, b) {
        RetimedIff(Clamp(1.0 / Smoothed(s.ema, WindowRate(s, b))), s.ts);
      }
    }
  }
}
