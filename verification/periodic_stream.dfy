/**
 The rate calibrator on a steady stream: n samples every t seconds, without end.  The
 first window counts one batch too many; everything after follows from that.
 */
module PeriodicStream {
  import opened Wrappers
  import opened RateCalibration

  /* ---------- whole numbers of periods ---------- */

  function Ceil(x: real): (k: int)
    ensures k as real - 1.0 < x <= k as real
  {
    if x.Floor as real == x then x.Floor else x.Floor + 1
  }

  // The least number of periods that lasts a given time.
  function Periods(x: pos, t: pos): (k: nat)
    ensures k > 0
  {
    var q := x / t;
    assert q > 0.0 by {
      assert q * t == x;
    }
    Ceil(q)
  }

  lemma LeastPeriods(x: pos, t: pos, k: int)
    ensures k as real * t >= x <==> k >= Periods(x, t)
  {
    var q := x / t;
    ScaledBack(x, t);
    ScaledOrder(k as real, q, t);
    assert k as real >= q <==> k >= Ceil(q);
  }

  lemma ScaledBack(x: real, t: pos)
    ensures x / t * t == x
  {
  }

  lemma ScaledOrder(a: real, b: real, t: pos)
    ensures a * t >= b * t <==> a >= b
  {
    var d := a - b;
    assert d * t == a * t - b * t;
    assert d >= 0.0 ==> d * t >= 0.0;
    assert d < 0.0 ==> (-d) * t > 0.0;
  }

  datatype Stream = Stream(n: nat, t: pos, t0: real)

  ghost predicate Steady(p: Stream) {
    p.n > 0
  }

  function ArrivalAt(p: Stream, k: nat): real {
    p.t0 + k as real * p.t
  }

  function Batches(p: Stream, count: nat): seq<Batch> {
    seq(count, k requires 0 <= k < count => Batch(p.n, ArrivalAt(p, k)))
  }

  function WarmupBatches(p: Stream): (w: nat)
    ensures w > 0
  {
    Periods(WARMUP, p.t)
  }

  function WindowBatches(p: Stream): (k: nat)
    ensures k > 0
  {
    Periods(WINDOW, p.t)
  }

  lemma SinceArrival(p: Stream, j: nat, k: nat)
    requires j <= k
    ensures Since(ArrivalAt(p, j), ArrivalAt(p, k)) == (k - j) as real * p.t
    ensures Since(ArrivalAt(p, j), ArrivalAt(p, k)) >= WARMUP <==> k - j >= WarmupBatches(p)
    ensures Since(ArrivalAt(p, j), ArrivalAt(p, k)) >= WINDOW <==> k - j >= WindowBatches(p)
  {
    var d := (k - j) as real * p.t;
    assert ArrivalAt(p, k) - ArrivalAt(p, j) == d;
    assert d >= 0.0;
    LeastPeriods(WARMUP, p.t, k - j);
    LeastPeriods(WINDOW, p.t, k - j);
  }

  function After(ts: real, p: Stream, count: nat): Rate {
    Run(ts, Batches(p, count))
  }

  lemma OneMore(ts: real, p: Stream, count: nat)
    ensures After(ts, p, count + 1) == Calibrated(After(ts, p, count), Batch(p.n, ArrivalAt(p, count)))
  {
    assert Batches(p, count + 1)[..count] == Batches(p, count);
  }

  /* ---------- the smoothed rate, window by window ---------- */

  function TrueRate(p: Stream): pos
    requires Steady(p)
  {
    p.n as real / p.t
  }

  // The first window's count has both of its end batches in it.
  function FirstRate(p: Stream): pos
    requires Steady(p)
  {
    TrueRate(p) * (1.0 + 1.0 / WindowBatches(p) as real)
  }

  function EmaAfter(p: Stream, m: nat): pos
    requires Steady(p) && m > 0
  {
    if m == 1 then FirstRate(p) else Smoothed(Some(EmaAfter(p, m - 1)), TrueRate(p))
  }

  function TsAfter(ts: real, p: Stream, m: nat): real
    requires Steady(p)
  {
    if m == 0 then ts else Retimed(Clamp(1.0 / EmaAfter(p, m)), TsAfter(ts, p, m - 1))
  }

  lemma CountedRate(p: Stream, batches: nat, k: nat, count: nat)
    requires Steady(p) && k > 0 && count == p.n * batches
    ensures k as real * p.t > 0.0 && count as real / (k as real * p.t) == TrueRate(p) * (batches as real / k as real)
  {
    var d := k as real * p.t;
    var r := TrueRate(p);
    var f := batches as real / k as real;
    assert r * p.t == p.n as real;
    assert f * k as real == batches as real;
    assert count as real == p.n as real * batches as real;
    assert (r * f) * d == (r * p.t) * (f * k as real);
    assert count as real / d == r * f by {
      Quotient(count as real, d, r * f);
    }
  }

  lemma Quotient(x: real, d: real, q: real)
    requires d > 0.0 && q * d == x
    ensures x / d == q
  {
    var z := x / d;
    assert z * d == x;
    assert (z - q) * d == 0.0;
  }

  /* ---------- the state after any number of batches ---------- */

  lemma {:induction false} DuringWarmup(ts: real, p: Stream, count: nat)
    requires Steady(p) && count <= WarmupBatches(p)
    ensures After(ts, p, count) == Rate(if count == 0 then None else Some(p.t0), None, 0, None, ts)
  {
    if count == 0 {
    } else {
      DuringWarmup(ts, p, count - 1);
      OneMore(ts, p, count - 1);
      SinceArrival(p, 0, count - 1);
      assert ArrivalAt(p, 0) == p.t0;
    }
  }

  lemma {:induction false} DuringFirstWindow(ts: real, p: Stream, i: nat)
    requires Steady(p) && 0 < i <= WindowBatches(p)
    ensures After(ts, p, WarmupBatches(p) + i)
         == Rate(Some(p.t0), Some(ArrivalAt(p, WarmupBatches(p))), p.n * i, None, ts)
  {
    var w := WarmupBatches(p);
    if i == 1 {
      DuringWarmup(ts, p, w);
    } else {
      DuringFirstWindow(ts, p, i - 1);
      assert p.n * i == p.n * (i - 1) + p.n;
    }
    OneMore(ts, p, w + i - 1);
    SinceArrival(p, 0, w + i - 1);
    SinceArrival(p, w, w + i - 1);
    assert ArrivalAt(p, 0) == p.t0;
  }

  function WindowState(ts: real, p: Stream, m: nat, base: nat, j: nat): Rate
    requires Steady(p) && m > 0
  {
    Rate(Some(p.t0), Some(ArrivalAt(p, base)), p.n * j, Some(EmaAfter(p, m)), TsAfter(ts, p, m))
  }

  lemma ClosesAt(p: Stream, s: Rate, base: nat)
    requires Steady(p) && s.first == Some(p.t0) && s.start == Some(ArrivalAt(p, base)) && base >= WarmupBatches(p)
    ensures var b := Batch(p.n, ArrivalAt(p, base + WindowBatches(p)));
            Closes(s, b) && Since(s.start.value, b.at) == WindowBatches(p) as real * p.t
  {
    var k := WindowBatches(p);
    SinceArrival(p, 0, base + k);
    assert ArrivalAt(p, 0) == p.t0;
    SinceArrival(p, base, base + k);
  }

  lemma ClosingRate(p: Stream, s: Rate, base: nat, batches: nat)
    requires Steady(p) && s.first == Some(p.t0) && s.start == Some(ArrivalAt(p, base)) && base >= WarmupBatches(p)
    requires s.count + p.n == p.n * batches
    ensures var b := Batch(p.n, ArrivalAt(p, base + WindowBatches(p)));
            Closes(s, b) && WindowRate(s, b) == TrueRate(p) * (batches as real / WindowBatches(p) as real)
  {
    ClosesAt(p, s, base);
    CountedRate(p, batches, WindowBatches(p), s.count + p.n);
  }

  lemma ClosedState(s: Rate, b: Batch, rate: pos)
    requires Closes(s, b) && WindowRate(s, b) == rate
    ensures var ema := Smoothed(s.ema, rate);
            Calibrated(s, b) == Rate(s.first, Some(b.at), 0, Some(ema), Retimed(Clamp(1.0 / ema), s.ts))
  {
  }

  lemma FirstClosing(p: Stream, s: Rate)
    requires Steady(p) && s.first == Some(p.t0) && s.start == Some(ArrivalAt(p, WarmupBatches(p)))
    requires s.count == p.n * WindowBatches(p)
    ensures var b := Batch(p.n, ArrivalAt(p, WarmupBatches(p) + WindowBatches(p)));
            Closes(s, b) && WindowRate(s, b) == FirstRate(p)
  {
    var k := WindowBatches(p);
    assert p.n * (k + 1) == p.n * k + p.n;
    ClosingRate(p, s, WarmupBatches(p), k + 1);
    Quotient((k + 1) as real, k as real, 1.0 + 1.0 / k as real);
  }

  lemma FirstClose(ts: real, p: Stream)
    requires Steady(p)
    ensures var base := WarmupBatches(p) + WindowBatches(p);
            After(ts, p, base + 1) == WindowState(ts, p, 1, base, 0)
  {
    var w, k := WarmupBatches(p), WindowBatches(p);
    DuringFirstWindow(ts, p, k);
    OneMore(ts, p, w + k);
    var s := After(ts, p, w + k);
    FirstClosing(p, s);
    ClosedState(s, Batch(p.n, ArrivalAt(p, w + k)), FirstRate(p));
    FirstOutputs(ts, p);
  }

  lemma FirstOutputs(ts: real, p: Stream)
    requires Steady(p)
    ensures EmaAfter(p, 1) == Smoothed(None, FirstRate(p))
    ensures TsAfter(ts, p, 1) == Retimed(Clamp(1.0 / EmaAfter(p, 1)), ts)
  {
    assert TsAfter(ts, p, 0) == ts;
  }

  lemma CountedState(s: Rate, b: Batch)
    requires WarmedUp(s, b) && s.start.Some? && !Closes(s, b)
    ensures Calibrated(s, b) == s.(count := s.count + b.samples)
  {
  }

  lemma StaysOpen(p: Stream, s: Rate, base: nat, j: nat)
    requires Steady(p) && s.first == Some(p.t0) && s.start == Some(ArrivalAt(p, base)) && base >= WarmupBatches(p)
    requires j + 1 < WindowBatches(p)
    ensures var b := Batch(p.n, ArrivalAt(p, base + 1 + j));
            WarmedUp(s, b) && !Closes(s, b)
  {
    assert Since(p.t0, ArrivalAt(p, base + 1 + j)) >= WARMUP by {
      SinceArrival(p, 0, base + 1 + j);
      assert ArrivalAt(p, 0) == p.t0;
    }
    SinceArrival(p, base, base + 1 + j);
  }

  lemma NextCount(n: nat, j: nat)
    ensures n * (j + 1) == n * j + n
  {
  }

  lemma NextState(ts: real, p: Stream, m: nat, base: nat, j: nat, b: Batch)
    requires Steady(p) && m > 0 && b.samples == p.n
    requires var s := WindowState(ts, p, m, base, j); WarmedUp(s, b) && !Closes(s, b)
    ensures Calibrated(WindowState(ts, p, m, base, j), b) == WindowState(ts, p, m, base, j + 1)
  {
    CountedState(WindowState(ts, p, m, base, j), b);
    NextCount(p.n, j);
  }

  lemma NextBatch(ts: real, p: Stream, m: nat, base: nat, j: nat)
    requires Steady(p) && m > 0 && j + 1 < WindowBatches(p) && base >= WarmupBatches(p)
    requires After(ts, p, base + 1 + j) == WindowState(ts, p, m, base, j)
    ensures After(ts, p, base + 2 + j) == WindowState(ts, p, m, base, j + 1)
  {
    OneMore(ts, p, base + 1 + j);
    StaysOpen(p, After(ts, p, base + 1 + j), base, j);
    NextState(ts, p, m, base, j, Batch(p.n, ArrivalAt(p, base + 1 + j)));
  }

  lemma NextClosing(p: Stream, s: Rate, base: nat)
    requires Steady(p) && s.first == Some(p.t0) && s.start == Some(ArrivalAt(p, base)) && base >= WarmupBatches(p)
    requires s.count == p.n * (WindowBatches(p) - 1)
    ensures var b := Batch(p.n, ArrivalAt(p, base + WindowBatches(p)));
            Closes(s, b) && WindowRate(s, b) == TrueRate(p)
  {
    var k := WindowBatches(p);
    assert p.n * k == p.n * (k - 1) + p.n;
    ClosingRate(p, s, base, k);
    Quotient(k as real, k as real, 1.0);
  }

  lemma NextClose(ts: real, p: Stream, m: nat, base: nat)
    requires Steady(p) && m > 0 && base >= WarmupBatches(p)
    requires After(ts, p, base + WindowBatches(p)) == WindowState(ts, p, m, base, WindowBatches(p) - 1)
    ensures After(ts, p, base + WindowBatches(p) + 1) == WindowState(ts, p, m + 1, base + WindowBatches(p), 0)
  {
    var k := WindowBatches(p);
    OneMore(ts, p, base + k);
    var s := After(ts, p, base + k);
    NextClosing(p, s, base);
    ClosedState(s, Batch(p.n, ArrivalAt(p, base + k)), TrueRate(p));
    NextOutputs(ts, p, m);
  }

  lemma NextOutputs(ts: real, p: Stream, m: nat)
    requires Steady(p) && m > 0
    ensures EmaAfter(p, m + 1) == Smoothed(Some(EmaAfter(p, m)), TrueRate(p))
    ensures TsAfter(ts, p, m + 1) == Retimed(Clamp(1.0 / EmaAfter(p, m + 1)), TsAfter(ts, p, m))
  {
  }

  // The batch that closes the m-th window; the 0-th is the one that opens the first.
  function CloseOf(p: Stream, m: nat): (k: nat)
    ensures k >= WarmupBatches(p)
  {
    if m == 0 then WarmupBatches(p) else CloseOf(p, m - 1) + WindowBatches(p)
  }

  lemma {:induction false} CloseTimes(p: Stream, m: nat)
    ensures CloseOf(p, m) == WarmupBatches(p) + m * WindowBatches(p)
  {
    if m == 0 {
    } else {
      CloseTimes(p, m - 1);
      assert m * WindowBatches(p) == (m - 1) * WindowBatches(p) + WindowBatches(p);
    }
  }

  // After the m-th close and j more batches.
  lemma {:induction false} DuringWindow(ts: real, p: Stream, m: nat, j: nat)
    requires Steady(p) && m > 0 && j < WindowBatches(p)
    ensures After(ts, p, CloseOf(p, m) + 1 + j) == WindowState(ts, p, m, CloseOf(p, m), j)
    decreases m, j
  {
    var k := WindowBatches(p);
    if j > 0 {
      DuringWindow(ts, p, m, j - 1);
      NextBatch(ts, p, m, CloseOf(p, m), j - 1);
    } else if m == 1 {
      FirstClose(ts, p);
    } else {
      DuringWindow(ts, p, m - 1, k - 1);
      NextClose(ts, p, m - 1, CloseOf(p, m - 1));
    }
  }

  /* ---------- the error of the smoothed rate ---------- */

  function ThreeQuarters(k: nat): (q: real)
    ensures 0.0 < q <= 1.0
  {
    if k == 0 then 1.0 else 0.75 * ThreeQuarters(k - 1)
  }

  function Share(q: real, r: real, k: real): real
    requires k > 0.0
  {
    q * r / k
  }

  // What is left of the first window's surplus batch after the m-th window.
  function Surplus(p: Stream, m: nat): real
    requires Steady(p) && m > 0
  {
    Share(ThreeQuarters(m - 1), TrueRate(p), WindowBatches(p) as real)
  }

  lemma OneAndAFraction(r: real, k: real)
    requires k > 0.0
    ensures r * (1.0 + 1.0 / k) == r + r / k
  {
    assert 1.0 / k * k == 1.0;
    assert r * (1.0 / k) * k == r;
    Quotient(r, k, r * (1.0 / k));
  }

  lemma ScaledQuotient(c: real, q: real, r: real, k: real)
    requires k > 0.0
    ensures Share(c * q, r, k) == c * Share(q, r, k)
  {
    assert (c * (q * r / k)) * k == c * q * r by {
      assert (q * r / k) * k == q * r;
    }
    Quotient(c * q * r, k, c * (q * r / k));
  }

  lemma FirstSurplus(p: Stream)
    requires Steady(p)
    ensures FirstRate(p) == TrueRate(p) + Surplus(p, 1)
  {
    OneAndAFraction(TrueRate(p), WindowBatches(p) as real);
  }

  lemma SurplusShrinks(p: Stream, m: nat)
    requires Steady(p) && m > 1
    ensures Surplus(p, m) == 0.75 * Surplus(p, m - 1)
  {
    ScaledQuotient(0.75, ThreeQuarters(m - 2), TrueRate(p), WindowBatches(p) as real);
  }

  lemma {:induction false} EmaError(p: Stream, m: nat)
    requires Steady(p) && m > 0
    ensures EmaAfter(p, m) == TrueRate(p) + Surplus(p, m)
  {
    if m == 1 {
      FirstSurplus(p);
    } else {
      EmaError(p, m - 1);
      SurplusShrinks(p, m);
    }
  }

  // After the m-th window of a steady stream the smoothed rate is off by exactly 0.75^(m-1) r/K.
  lemma SmoothedRateError(ts: real, p: Stream, m: nat, j: nat)
    requires Steady(p) && m > 0 && j < WindowBatches(p)
    ensures var ema := After(ts, p, CloseOf(p, m) + 1 + j).ema;
            ema.Some? && ema.value - TrueRate(p) == Surplus(p, m)
  {
    DuringWindow(ts, p, m, j);
    EmaError(p, m);
  }

  /* ---------- how often the timestep changes ---------- */

  lemma {:induction false} EmaFalls(p: Stream, a: nat, b: nat)
    requires Steady(p) && 0 < a <= b
    ensures TrueRate(p) < EmaAfter(p, b) <= EmaAfter(p, a) <= FirstRate(p)
  {
    if b == 1 {
      var r, k := TrueRate(p), WindowBatches(p) as real;
      assert FirstRate(p) == r + r * (1.0 / k);
      assert 1.0 / k > 0.0;
    } else {
      EmaFalls(p, if a < b then a else b - 1, b - 1);
    }
  }

  lemma ScaleOrder(a: real, b: real, c: real)
    requires c > 0.0
    ensures a > b <==> a * c > b * c
  {
    assert (a - b) * c == a * c - b * c;
    if a > b {
      assert (a - b) * c > 0.0;
    } else {
      assert (b - a) * c >= 0.0;
    }
  }

  lemma FirstWindowIsClose(p: Stream)
    requires Steady(p) && WindowBatches(p) >= 20
    ensures FirstRate(p) <= 1.05 * TrueRate(p)
  {
    var r, k := TrueRate(p), WindowBatches(p) as real;
    var inv := 1.0 / k;
    assert inv * k == 1.0;
    ScaleOrder(inv, 0.05, k);
    ScaleOrder(inv, 0.05, r);
    assert FirstRate(p) == r + inv * r;
  }

  // Reciprocals of rates within five per cent stay within five per cent, clamped or not.
  lemma ReciprocalsClose(x: pos, y: pos)
    requires y <= x <= 1.05 * y
    ensures Clamp(1.0 / x) <= Clamp(1.0 / y) <= 1.05 * Clamp(1.0 / x)
  {
    var u, v := 1.0 / x, 1.0 / y;
    assert u * x == 1.0 && v * y == 1.0;
    assert v * (x - y) >= 0.0 && u * (1.05 * y - x) >= 0.0;
    assert u <= v by {
      ScaleOrder(u, v, x);
      assert v * x >= v * y;
    }
    assert v <= 1.05 * u by {
      ScaleOrder(v, 1.05 * u, y);
      assert (1.05 * u) * y >= u * x;
    }
  }

  lemma {:induction false} TsPositive(ts: real, p: Stream, m: nat)
    requires Steady(p) && ts > 0.0
    ensures TsAfter(ts, p, m) > 0.0
  {
    if m == 0 {
    } else {
      TsPositive(ts, p, m - 1);
      RetimedIff(Clamp(1.0 / EmaAfter(p, m)), TsAfter(ts, p, m - 1));
    }
  }

  // A timestep that is not the initial one is the clamped reciprocal of some window's rate.
  lemma {:induction false} AppliedFrom(ts: real, p: Stream, m: nat) returns (c: nat)
    requires Steady(p) && TsAfter(ts, p, m) != ts
    ensures 0 < c <= m && TsAfter(ts, p, m) == Clamp(1.0 / EmaAfter(p, c))
  {
    if TsAfter(ts, p, m) != TsAfter(ts, p, m - 1) {
      c := m;
    } else {
      c := AppliedFrom(ts, p, m - 1);
    }
  }

  // The first window's surplus moves the clamped reciprocal by at most five per cent.
  predicate SurplusHarmless(p: Stream)
    requires Steady(p)
  {
    Clamp(1.0 / TrueRate(p)) <= 1.05 * Clamp(1.0 / FirstRate(p))
  }

  lemma ClampedFalls(x: pos, y: pos)
    requires y <= x
    ensures Clamp(1.0 / x) <= Clamp(1.0 / y)
  {
    var u, v := 1.0 / x, 1.0 / y;
    assert u * x == 1.0 && v * y == 1.0;
    assert v * (x - y) >= 0.0;
    ScaleOrder(u, v, x);
  }

  // Then what one window applied, no later one replaces.
  lemma {:induction false} AppliedStays(ts: real, p: Stream, a: nat, b: nat, c: nat)
    requires Steady(p) && ts > 0.0 && SurplusHarmless(p)
    requires 0 < c <= a <= b && TsAfter(ts, p, a) == Clamp(1.0 / EmaAfter(p, c))
    ensures TsAfter(ts, p, b) == TsAfter(ts, p, a)
  {
    if a == b {
    } else {
      AppliedStays(ts, p, a, b - 1, c);
      EmaFalls(p, c, b);
      ClampedFalls(FirstRate(p), EmaAfter(p, c));
      ClampedFalls(EmaAfter(p, c), EmaAfter(p, b));
      ClampedFalls(EmaAfter(p, b), TrueRate(p));
      RetimedIff(Clamp(1.0 / EmaAfter(p, b)), TsAfter(ts, p, b - 1));
    }
  }

  // The windows closed within the first batches of the stream.
  function WindowsIn(p: Stream, count: nat): nat {
    var first := CloseOf(p, 1);
    if count <= first then 0 else (count - first - 1) / WindowBatches(p) + 1
  }

  lemma Division(x: nat, k: nat)
    requires k > 0
    ensures x / k * k + x % k == x && (x / k + 1) * k == x / k * k + k
  {
  }

  lemma PositionOf(p: Stream, count: nat) returns (j: nat)
    requires count > CloseOf(p, 1)
    ensures WindowsIn(p, count) > 0 && j < WindowBatches(p) && count == CloseOf(p, WindowsIn(p, count)) + 1 + j
  {
    var k, rest := WindowBatches(p), count - CloseOf(p, 1) - 1;
    var m := rest / k;
    j := rest % k;
    CloseTimes(p, m + 1);
    CloseTimes(p, 1);
    Division(rest, k);
  }

  lemma TimestepAt(ts: real, p: Stream, count: nat)
    requires Steady(p)
    ensures After(ts, p, count).ts == TsAfter(ts, p, WindowsIn(p, count))
  {
    var w := WarmupBatches(p);
    assert CloseOf(p, 1) == CloseOf(p, 0) + WindowBatches(p);
    if count <= w {
      DuringWarmup(ts, p, count);
    } else if count <= CloseOf(p, 1) {
      DuringFirstWindow(ts, p, count - w);
    } else {
      var j := PositionOf(p, count);
      DuringWindow(ts, p, WindowsIn(p, count), j);
    }
  }

  lemma WindowsInMonotone(p: Stream, n1: nat, n2: nat)
    requires n1 <= n2
    ensures WindowsIn(p, n1) <= WindowsIn(p, n2)
  {
    var first, k := CloseOf(p, 1), WindowBatches(p);
    if n1 > first {
      QuotientMonotone(n1 - first - 1, n2 - first - 1, k);
    }
  }

  lemma QuotientMonotone(x: nat, y: nat, k: nat)
    requires x <= y && k > 0
    ensures x / k <= y / k
  {
    var d := x / k - y / k;
    assert d * k == x / k * k - y / k * k < k;
    BelowOne(d, k);
  }

  lemma BelowOne(d: int, k: nat)
    requires d * k < k
    ensures d <= 0
  {
  }

  // Once changed, the timestep is never changed again, however long the stream runs.
  predicate ChangesOnce(ts: real, p: Stream, n1: nat, n2: nat) {
    After(ts, p, n1).ts != ts ==> After(ts, p, n2).ts == After(ts, p, n1).ts
  }

  lemma HarmlessChangesOnce(ts: real, p: Stream, n1: nat, n2: nat)
    requires Steady(p) && ts > 0.0 && SurplusHarmless(p) && n1 <= n2
    ensures ChangesOnce(ts, p, n1, n2)
  {
    TimestepAt(ts, p, n1);
    TimestepAt(ts, p, n2);
    if After(ts, p, n1).ts != ts {
      WindowsInMonotone(p, n1, n2);
      var c := AppliedFrom(ts, p, WindowsIn(p, n1));
      AppliedStays(ts, p, WindowsIn(p, n1), WindowsIn(p, n2), c);
    }
  }

  /* ---------- a window that makes a harmful surplus show ---------- */

  lemma {:induction false} ThreeQuartersFall(k: nat)
    ensures ThreeQuarters(k) * (3 + k) as real <= 3.0
  {
    if k == 0 {
    } else {
      ThreeQuartersFall(k - 1);
      var q, x := ThreeQuarters(k - 1), k as real;
      assert ThreeQuarters(k) * (3.0 + x) == 0.75 * (q * (3.0 + x));
      assert 4.0 * (2.0 + x) >= 3.0 * (3.0 + x);
      assert q * (4.0 * (2.0 + x) - 3.0 * (3.0 + x)) >= 0.0;
    }
  }

  // The powers of three quarters fall below any positive bound.
  lemma PowerBelow(bound: pos) returns (k: nat)
    ensures ThreeQuarters(k) < bound
  {
    k := Periods(3.0, bound);
    LeastPeriods(3.0, bound, k);
    ThreeQuartersFall(k);
    var q := ThreeQuarters(k);
    ScaleOrder(bound, q, (3 + k) as real);
    assert bound * (3 + k) as real == 3.0 * bound + k as real * bound;
  }

  function Ratio(x: pos, y: pos): (q: pos)
    ensures q * y == x
  {
    var q := x / y;
    assert q * y == x;
    q
  }

  function Product(x: pos, y: pos): pos {
    x * y
  }

  lemma SmallEnough(r: pos, k: pos, q: real, gap: pos)
    requires q < Ratio(Product(gap, k), r)
    ensures Share(q, r, k) < gap
  {
    ScaleOrder(Ratio(Product(gap, k), r), q, r);
    var z := q * r / k;
    assert z * k == q * r;
    ScaleOrder(gap, z, k);
  }

  lemma SmallPower(r: pos, k: pos, gap: pos) returns (e: nat)
    ensures Share(ThreeQuarters(e), r, k) < gap
  {
    e := PowerBelow(Ratio(Product(gap, k), r));
    SmallEnough(r, k, ThreeQuarters(e), gap);
  }

  lemma SurplusBelow(p: Stream, bound: pos) returns (m: nat)
    requires Steady(p) && bound > TrueRate(p)
    ensures m > 0 && EmaAfter(p, m) < bound
  {
    var e := SmallPower(TrueRate(p), WindowBatches(p) as real, bound - TrueRate(p));
    m := e + 1;
    EmaError(p, m);
  }

  lemma ReciprocalFlip(x: pos, y: pos)
    ensures 1.0 / x > y <==> 1.0 / y > x
  {
    var u, v := 1.0 / x, 1.0 / y;
    assert u * x == 1.0 && v * y == 1.0;
    ScaleOrder(u, y, x);
    ScaleOrder(v, x, y);
  }

  // Some window's clamped reciprocal is more than five per cent above the first one's.
  lemma HarmShows(p: Stream) returns (m: nat)
    requires Steady(p) && !SurplusHarmless(p)
    ensures m > 0 && Clamp(1.0 / EmaAfter(p, m)) > 1.05 * Clamp(1.0 / FirstRate(p))
  {
    var limit: pos := 1.05 * Clamp(1.0 / FirstRate(p));
    var bound: pos := Reciprocal(limit);
    assert 1.0 / TrueRate(p) > limit && limit < MAX_TS;
    ReciprocalFlip(TrueRate(p), limit);
    m := SurplusBelow(p, bound);
    ReciprocalFlip(EmaAfter(p, m), limit);
  }

  function Reciprocal(x: pos): (y: pos)
    ensures y == 1.0 / x
  {
    var y := 1.0 / x;
    assert y * x == 1.0;
    y
  }

  lemma HarmChangesTwice(p: Stream) returns (m: nat)
    requires Steady(p) && !SurplusHarmless(p)
    ensures m > 0 && CloseOf(p, 1) <= CloseOf(p, m) && !ChangesOnce(1.0, p, CloseOf(p, 1) + 1, CloseOf(p, m) + 1)
  {
    m := HarmShows(p);
    DuringWindow(1.0, p, 1, 0);
    DuringWindow(1.0, p, m, 0);
    FirstOutputs(1.0, p);
    RetimedIff(Clamp(1.0 / EmaAfter(p, 1)), 1.0);
    TsPositive(1.0, p, m - 1);
    RetimedIff(Clamp(1.0 / EmaAfter(p, m)), TsAfter(1.0, p, m - 1));
    CloseMonotone(p, 1, m);
  }

  lemma {:induction false} CloseMonotone(p: Stream, a: nat, b: nat)
    requires a <= b
    ensures CloseOf(p, a) <= CloseOf(p, b)
  {
    if a == b {
    } else {
      CloseMonotone(p, a, b - 1);
    }
  }

  // The timestep of a steady stream changes at most once from every start if and only if the
  // first window's surplus moves the clamped reciprocal of its rate by at most five per cent.
  lemma ChangesOnceIffHarmless(p: Stream)
    requires Steady(p)
    ensures SurplusHarmless(p) <==>
            (forall ts: real, n1: nat, n2: nat :: ts > 0.0 && n1 <= n2 ==> ChangesOnce(ts, p, n1, n2))
  {
    if SurplusHarmless(p) {
      forall ts: real, n1: nat, n2: nat | ts > 0.0 && n1 <= n2
        ensures ChangesOnce(ts, p, n1, n2)
      {
        HarmlessChangesOnce(ts, p, n1, n2);
      }
    } else {
      var m := HarmChangesTwice(p);
    }
  }

  /* ---------- in terms of batches to a window ---------- */

  lemma TwentyIsHarmless(p: Stream)
    requires Steady(p) && WindowBatches(p) >= 20
    ensures SurplusHarmless(p)
  {
    EmaFalls(p, 1, 1);
    FirstWindowIsClose(p);
    ReciprocalsClose(FirstRate(p), TrueRate(p));
  }

  // With at least twenty batches to a window that is so at any rate.
  lemma TimestepChangesOnce(ts: real, p: Stream, n1: nat, n2: nat)
    requires Steady(p) && ts > 0.0 && WindowBatches(p) >= 20 && n1 <= n2
    ensures ChangesOnce(ts, p, n1, n2)
  {
    TwentyIsHarmless(p);
    HarmlessChangesOnce(ts, p, n1, n2);
  }

  /* ---------- fewer than twenty batches to a window ---------- */

  // Neither the first window's rate nor the true one is clamped.
  ghost predicate InBand(p: Stream)
    requires Steady(p)
  {
    40.0 <= TrueRate(p) && FirstRate(p) <= 1250.0
  }

  lemma Unclamped(x: pos)
    requires 40.0 <= x <= 1250.0
    ensures Clamp(1.0 / x) == 1.0 / x
  {
    var u := 1.0 / x;
    assert u * x == 1.0;
    ScaleOrder(u, MAX_TS, x);
    ScaleOrder(MIN_TS, u, x);
  }

  lemma SmallReciprocal(k: nat)
    requires 0 < k < 20
    ensures 1.0 / k as real > 0.0526
  {
    var x, inv := k as real, 1.0 / k as real;
    assert inv * x == 1.0;
    ScaleOrder(inv, 0.0526, x);
    assert 0.0526 * x < 1.0;
  }

  lemma SurplusMatters(r: pos, k: nat, q: real)
    requires 0 < k < 20 && 0.0 < q <= 0.0425
    ensures r * (1.0 + 1.0 / k as real) > 1.05 * (r + q * r / k as real)
  {
    var x, inv := k as real, 1.0 / k as real;
    SmallReciprocal(k);
    var s := q * inv;
    assert s <= 0.0425 * inv;
    assert q * r / x == r * s by {
      assert inv * x == 1.0;
      assert (r * s) * x == q * r * (inv * x);
      Quotient(q * r, x, r * s);
    }
    var gap := 1.0 + inv - 1.05 * (1.0 + s);
    assert gap > 0.0;
    assert r * gap > 0.0;
    Spread(r, inv, s);
  }

  lemma Spread(r: real, inv: real, s: real)
    ensures r * (1.0 + inv - 1.05 * (1.0 + s)) == r * (1.0 + inv) - 1.05 * (r + r * s)
  {
  }

  lemma TwelfthPower()
    ensures ThreeQuarters(11) <= 0.0425
  {
    var q := 0.75 * 0.75 * 0.75 * 0.75;
    assert ThreeQuarters(4) == q by {
      assert ThreeQuarters(1) == 0.75 * ThreeQuarters(0);
      assert ThreeQuarters(2) == 0.75 * ThreeQuarters(1);
      assert ThreeQuarters(3) == 0.75 * ThreeQuarters(2);
    }
    assert ThreeQuarters(8) == q * q by {
      assert ThreeQuarters(5) == 0.75 * ThreeQuarters(4);
      assert ThreeQuarters(6) == 0.75 * ThreeQuarters(5);
      assert ThreeQuarters(7) == 0.75 * ThreeQuarters(6);
    }
    assert ThreeQuarters(9) == 0.75 * ThreeQuarters(8);
    assert ThreeQuarters(10) == 0.75 * ThreeQuarters(9);
  }

  // By the twelfth window the first window's rate is more than five per cent too high.
  lemma FirstRateTooHigh(p: Stream)
    requires Steady(p) && WindowBatches(p) < 20
    ensures EmaAfter(p, 1) > 1.05 * EmaAfter(p, 12)
  {
    EmaError(p, 12);
    TwelfthPower();
    SurplusMatters(TrueRate(p), WindowBatches(p), ThreeQuarters(11));
  }

  lemma ReciprocalsApart(x: pos, y: pos)
    requires x > 1.05 * y
    ensures 1.0 / y > 1.05 * (1.0 / x)
  {
    var u, v := 1.0 / x, 1.0 / y;
    assert u * x == 1.0 && v * y == 1.0;
    assert u * (x - 1.05 * y) > 0.0;
    ScaleOrder(v, 1.05 * u, y);
  }

  // Started far off, the timestep is set by the first window and set again by the twelfth.
  lemma TimestepChangesTwice(p: Stream)
    requires Steady(p) && InBand(p) && WindowBatches(p) < 20
    ensures !ChangesOnce(1.0, p, CloseOf(p, 1) + 1, CloseOf(p, 12) + 1)
  {
    DuringWindow(1.0, p, 1, 0);
    DuringWindow(1.0, p, 12, 0);
    FirstOutputs(1.0, p);
    RetimedIff(Clamp(1.0 / EmaAfter(p, 1)), 1.0);
    EmaFalls(p, 1, 12);
    FirstRateTooHigh(p);
    Unclamped(EmaAfter(p, 1));
    Unclamped(EmaAfter(p, 12));
    ReciprocalsApart(EmaAfter(p, 1), EmaAfter(p, 12));
    TsPositive(1.0, p, 11);
    RetimedIff(1.0 / EmaAfter(p, 12), TsAfter(1.0, p, 11));
  }

  // Twenty samples every quarter second: sixteen batches to a window, and a second change.
  lemma QuarterSecondStream()
    ensures var p := Stream(20, 0.25, 0.0);
            Steady(p) && InBand(p) && WindowBatches(p) == 16 &&
            !ChangesOnce(1.0, p, CloseOf(p, 1) + 1, CloseOf(p, 12) + 1)
  {
    var p := Stream(20, 0.25, 0.0);
    LeastPeriods(WINDOW, 0.25, 16);
    LeastPeriods(WINDOW, 0.25, 15);
    assert WindowBatches(p) == 16;
    assert TrueRate(p) == 80.0;
    assert FirstRate(p) == 85.0;
    TimestepChangesTwice(p);
  }

  // In the band, the timestep of a steady stream changes at most once from every start if
  // and only if a window holds at least twenty batches.
  lemma ChangesOnceIff(p: Stream)
    requires Steady(p) && InBand(p)
    ensures WindowBatches(p) >= 20 <==>
            (forall ts: real, n1: nat, n2: nat :: ts > 0.0 && n1 <= n2 ==> ChangesOnce(ts, p, n1, n2))
  {
    ChangesOnceIffHarmless(p);
    if WindowBatches(p) >= 20 {
      TwentyIsHarmless(p);
    } else {
      TimestepChangesTwice(p);
      CloseMonotone(p, 1, 12);
    }
  }
}
