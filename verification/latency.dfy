/**
 The latency window of a device: the last 256 intervals between batches and the last 256
 send durations, summarised by order statistics.  Instants and durations are nanoseconds,
 the window holds whole microseconds.
 */
module Latency {
  import opened Bits
  import opened Wrappers

  const CAPACITY := 256
  const MAX_U32: u32 := 0xFFFF_FFFF

  /* ---------- the window ---------- */

  function Micros(ns: nat): u32 {
    if ns / 1000 < MAX_U32 then ns / 1000 else MAX_U32
  }

  function Interval(prev: nat, now: nat): u32 {
    if now >= prev then Micros(now - prev) else 0
  }

  // An interval is the time between in whole microseconds, rounded down, as far as 32 bits
  // hold it; a clock that went back gives zero.
  lemma IntervalIs(prev: nat, now: nat)
    ensures now <= prev ==> Interval(prev, now) == 0
    ensures now > prev ==>
              var us := Interval(prev, now);
              1000 * us <= now - prev && (now - prev < 1000 * us + 1000 || us == 4_294_967_295)
  {
  }

  function PushCapped(q: seq<u32>, v: u32): seq<u32> {
    (if |q| == CAPACITY then q[1..] else q) + [v]
  }

  datatype Event = Arrival(at: nat) | Send(duration: nat)

  datatype Windows = Windows(intervals: seq<u32>, sends: seq<u32>, prev: Option<nat>)

  function Noted(w: Windows, e: Event): Windows {
    match e
    case Arrival(at) =>
      Windows(if w.prev.Some? then PushCapped(w.intervals, Interval(w.prev.value, at)) else w.intervals,
              w.sends, Some(at))
    case Send(d) => w.(sends := PushCapped(w.sends, Micros(d)))
  }

  function Run(events: seq<Event>): Windows {
    if events == [] then Windows([], [], None) else Noted(Run(events[..|events| - 1]), events[|events| - 1])
  }

  function LastArrival(events: seq<Event>): Option<nat> {
    if events == [] then None
    else if events[|events| - 1].Arrival? then Some(events[|events| - 1].at)
    else LastArrival(events[..|events| - 1])
  }

  // Every interval between consecutive arrivals, and every send, oldest first.
  function AllIntervals(events: seq<Event>): seq<u32> {
    if events == [] then []
    else
      var n := |events| - 1;
      var prev := LastArrival(events[..n]);
      if events[n].Arrival? && prev.Some? then AllIntervals(events[..n]) + [Interval(prev.value, events[n].at)]
      else AllIntervals(events[..n])
  }

  function AllSends(events: seq<Event>): seq<u32> {
    if events == [] then []
    else
      var n := |events| - 1;
      if events[n].Send? then AllSends(events[..n]) + [Micros(events[n].duration)] else AllSends(events[..n])
  }

  function Last(s: seq<u32>): seq<u32> {
    if |s| <= 256 then s else s[|s| - 256..]
  }

  lemma PushKeepsLast(s: seq<u32>, v: u32)
    ensures PushCapped(Last(s), v) == Last(s + [v])
  {
  }

  // After any run the windows are exactly the last 256 intervals and the last 256 sends.
  lemma {:induction false} WindowIsLast(events: seq<Event>)
    ensures Run(events) == Windows(Last(AllIntervals(events)), Last(AllSends(events)), LastArrival(events))
  {
    if events == [] {
    } else {
      var n := |events| - 1;
      var e := events[n];
      WindowIsLast(events[..n]);
      if e.Send? {
        PushKeepsLast(AllSends(events[..n]), Micros(e.duration));
      } else if LastArrival(events[..n]).Some? {
        PushKeepsLast(AllIntervals(events[..n]), Interval(LastArrival(events[..n]).value, e.at));
      }
    }
  }

  /* ---------- order statistics ---------- */

  predicate Ordered(s: seq<u32>) {
    forall i, j :: 0 <= i <= j < |s| ==> s[i] <= s[j]
  }

  function Insert(s: seq<u32>, v: u32): seq<u32> {
    if s == [] || v <= s[0] then [v] + s else [s[0]] + Insert(s[1..], v)
  }

  function Sort(s: seq<u32>): seq<u32> {
    if s == [] then [] else Insert(Sort(s[1..]), s[0])
  }

  lemma {:induction false} InsertKeeps(s: seq<u32>, v: u32)
    ensures multiset(Insert(s, v)) == multiset(s) + multiset{v}
  {
    if s == [] || v <= s[0] {
      assert multiset([v] + s) == multiset{v} + multiset(s);
    } else {
      InsertKeeps(s[1..], v);
      assert s == [s[0]] + s[1..];
    }
  }

  lemma OrderedCons(x: u32, t: seq<u32>)
    requires Ordered(t) && (t != [] ==> x <= t[0])
    ensures Ordered([x] + t)
  {
  }

  lemma {:induction false} InsertOrders(s: seq<u32>, v: u32)
    requires Ordered(s)
    ensures Ordered(Insert(s, v))
  {
    if s == [] || v <= s[0] {
      OrderedCons(v, s);
    } else {
      InsertOrders(s[1..], v);
      OrderedCons(s[0], Insert(s[1..], v));
    }
  }

  lemma {:induction false} SortSorts(s: seq<u32>)
    ensures Ordered(Sort(s)) && multiset(Sort(s)) == multiset(s) && |Sort(s)| == |s|
  {
    if s == [] {
    } else {
      SortSorts(s[1..]);
      InsertOrders(Sort(s[1..]), s[0]);
      InsertKeeps(Sort(s[1..]), s[0]);
      assert s == [s[0]] + s[1..];
    }
    assert |multiset(Sort(s))| == |multiset(s)|;
  }

  lemma SameLeast(a: seq<u32>, b: seq<u32>)
    requires a != [] && b != [] && Ordered(a) && Ordered(b) && multiset(a) == multiset(b)
    ensures a[0] == b[0]
  {
    assert a[0] in multiset(b) && b[0] in multiset(a);
  }

  lemma TailMultiset(a: seq<u32>)
    requires a != []
    ensures multiset(a[1..]) == multiset(a) - multiset{a[0]}
  {
    assert a == [a[0]] + a[1..];
  }

  lemma SameLength(a: seq<u32>, b: seq<u32>)
    requires multiset(a) == multiset(b)
    ensures |a| == |b|
  {
    assert |multiset(a)| == |a| && |multiset(b)| == |b|;
  }

  lemma HeadAndTail(a: seq<u32>, b: seq<u32>)
    requires a != [] && b != [] && a[0] == b[0] && a[1..] == b[1..]
    ensures a == b
  {
    assert a == [a[0]] + a[1..] && b == [b[0]] + b[1..];
  }

  // There is one ordered arrangement of a multiset.
  lemma {:induction false} OrderedUnique(a: seq<u32>, b: seq<u32>)
    requires Ordered(a) && Ordered(b) && multiset(a) == multiset(b)
    ensures a == b
  {
    SameLength(a, b);
    if a == [] {
    } else {
      SameLeast(a, b);
      TailMultiset(a);
      TailMultiset(b);
      OrderedUnique(a[1..], b[1..]);
      HeadAndTail(a, b);
    }
  }

  function Round(x: real): int {
    (x + 0.5).Floor
  }

  function Position(n: nat, p: real): real {
    (n as real - 1.0) * p
  }

  function Rank(n: nat, p: real): (k: nat)
    requires n > 0 && p >= 0.0
    ensures k < n
  {
    assert Position(n, p) >= 0.0;
    if Round(Position(n, p)) < n then Round(Position(n, p)) else n - 1
  }

  function Percentile(ordered: seq<u32>, p: real): u32
    requires p >= 0.0
  {
    if ordered == [] then 0 else ordered[Rank(|ordered|, p)]
  }

  function Doubled(v: u32): u32 {
    if 2 * v <= MAX_U32 then 2 * v else MAX_U32
  }

  function CountAbove(s: seq<u32>, v: int): nat {
    if s == [] then 0 else (if s[0] > v then 1 else 0) + CountAbove(s[1..], v)
  }

  // The jitter of the program is the square root of the variance.
  datatype Snapshot = Snapshot(p50: u32, p95: u32, p99: u32, variance: real, send50: u32, send95: u32,
                               dropped: nat, samples: nat)

  function Sum(s: seq<u32>): real {
    if s == [] then 0.0 else s[0] as real + Sum(s[1..])
  }

  function Distance(x: real, y: real): real {
    if x < y then y - x else x - y
  }

  function Times(a: real, b: real): real {
    a * b
  }

  // The squared distances from a value, added up.
  function Spread(s: seq<u32>, mean: real): real {
    if s == [] then 0.0 else Times(Distance(s[0] as real, mean), Distance(s[0] as real, mean)) + Spread(s[1..], mean)
  }

  function Variance(s: seq<u32>): real {
    if |s| < 2 then 0.0 else Spread(s, Sum(s) / |s| as real) / (|s| as real - 1.0)
  }

  function Summary(w: Windows): Snapshot {
    var iv, sv := Sort(w.intervals), Sort(w.sends);
    var p50 := Percentile(iv, 0.5);
    Snapshot(p50, Percentile(iv, 0.95), Percentile(iv, 0.99), Variance(iv), Percentile(sv, 0.5), Percentile(sv, 0.95),
             CountAbove(iv, Doubled(p50)), |iv|)
  }

  /* ---------- what the statistics mean ---------- */

  // The snapshot does not depend on the order of what is in the windows.
  lemma SummaryOfMultisets(x: Windows, y: Windows)
    requires multiset(x.intervals) == multiset(y.intervals) && multiset(x.sends) == multiset(y.sends)
    ensures Summary(x) == Summary(y)
  {
    SortSorts(x.intervals);
    SortSorts(y.intervals);
    SortSorts(x.sends);
    SortSorts(y.sends);
    OrderedUnique(Sort(x.intervals), Sort(y.intervals));
    OrderedUnique(Sort(x.sends), Sort(y.sends));
  }

  // A prefix of small values bounds the count from above, a suffix of large ones from below.
  lemma {:induction false} CountPastPrefix(s: seq<u32>, n: nat, v: int)
    requires n <= |s| && forall i :: 0 <= i < n ==> s[i] <= v
    ensures CountAbove(s, v) <= |s| - n
  {
    if s == [] {
    } else if n == 0 {
      CountPastPrefix(s[1..], 0, v);
    } else {
      CountPastPrefix(s[1..], n - 1, v);
    }
  }

  lemma {:induction false} CountFromSuffix(s: seq<u32>, n: nat, v: int)
    requires n <= |s| && forall i :: n <= i < |s| ==> s[i] > v
    ensures CountAbove(s, v) >= |s| - n
  {
    if s == [] {
    } else if n == 0 {
      CountFromSuffix(s[1..], 0, v);
    } else {
      CountFromSuffix(s[1..], n - 1, v);
    }
  }

  lemma {:induction false} CountInsert(s: seq<u32>, x: u32, v: int)
    ensures CountAbove(Insert(s, x), v) == CountAbove(s, v) + if x > v then 1 else 0
  {
    if s == [] || x <= s[0] {
      assert ([x] + s)[1..] == s;
    } else {
      CountInsert(s[1..], x, v);
      assert ([s[0]] + Insert(s[1..], x))[1..] == Insert(s[1..], x);
    }
  }

  lemma {:induction false} CountSort(s: seq<u32>, v: int)
    ensures CountAbove(Sort(s), v) == CountAbove(s, v)
  {
    if s == [] {
    } else {
      CountSort(s[1..], v);
      CountInsert(Sort(s[1..]), s[0], v);
    }
  }

  lemma CountAboveRank(t: seq<u32>, k: nat)
    requires Ordered(t) && k < |t|
    ensures var v: int := t[k];
            CountAbove(t, v) < |t| - k <= CountAbove(t, v - 1)
  {
    CountPastPrefix(t, k + 1, t[k]);
    CountFromSuffix(t, k, t[k] as int - 1);
  }

  // A value of the window with more than k values at most it and at most k below it.
  predicate HasRank(s: seq<u32>, v: u32, k: nat) {
    v in s && CountAbove(s, v) < |s| - k <= CountAbove(s, v as int - 1)
  }

  lemma ElementOfRank(s: seq<u32>, k: nat)
    requires k < |s|
    ensures |Sort(s)| == |s| && HasRank(s, Sort(s)[k], k)
  {
    SortSorts(s);
    var t := Sort(s);
    var v: int := t[k];
    assert t[k] in multiset(t);
    CountSort(s, v);
    CountSort(s, v - 1);
    CountAboveRank(t, k);
  }

  lemma TimesMonotone(d: real, p: real, q: real)
    requires d >= 0.0 && p <= q
    ensures d * p <= d * q
  {
    var e := q - p;
    assert d * e >= 0.0;
    assert d * q == d * p + d * e;
  }

  lemma PositionMonotone(n: nat, p: real, q: real)
    requires n > 0 && p <= q
    ensures Position(n, p) <= Position(n, q)
  {
    TimesMonotone(n as real - 1.0, p, q);
  }

  lemma RoundMonotone(x: real, y: real)
    requires x <= y
    ensures Round(x) <= Round(y)
  {
  }

  // A rank is a nearest whole number to its share of the way to the last.
  lemma RankNearest(n: nat, p: real)
    requires n > 0 && 0.0 <= p <= 1.0
    ensures -0.5 <= Rank(n, p) as real - Position(n, p) <= 0.5
  {
    PositionBelow(n, p);
    RoundNearest(Position(n, p));
    RoundMonotone(Position(n, p), n as real - 1.0);
    FloorIs(n as real - 0.5, n - 1);
    assert Round(n as real - 1.0) == n - 1;
    assert Rank(n, p) == Round(Position(n, p));
  }

  lemma PositionBelow(n: nat, p: real)
    requires n > 0 && 0.0 <= p <= 1.0
    ensures 0.0 <= Position(n, p) <= n as real - 1.0
  {
    PositionMonotone(n, 0.0, p);
    PositionMonotone(n, p, 1.0);
    assert Position(n, 0.0) == 0.0 && Position(n, 1.0) == n as real - 1.0;
  }

  lemma RoundNearest(x: real)
    requires x >= 0.0
    ensures -0.5 <= Round(x) as real - x <= 0.5
  {
  }

  lemma RankMonotone(n: nat, p: real, q: real)
    requires n > 0 && 0.0 <= p <= q
    ensures Rank(n, p) <= Rank(n, q)
  {
    PositionMonotone(n, p, q);
    RoundMonotone(Position(n, p), Position(n, q));
  }

  lemma FloorIs(x: real, h: int)
    requires h as real <= x < h as real + 1.0
    ensures x.Floor == h
  {
  }

  lemma MiddleRank(n: nat)
    requires n > 0
    ensures Rank(n, 0.5) == n / 2
  {
    var x, h := Position(n, 0.5), n / 2;
    assert n == 2 * h || n == 2 * h + 1;
    FloorIs(x + 0.5, h);
    assert Round(x) == h;
  }

  lemma PercentileRank(s: seq<u32>, p: real)
    requires s != [] && p >= 0.0
    ensures HasRank(s, Percentile(Sort(s), p), Rank(|s|, p))
  {
    ElementOfRank(s, Rank(|s|, p));
  }

  // Every percentile of the snapshot, of intervals and of sends, is the value of its rank;
  // the middle rank is that of the upper median.
  lemma PercentilesByRank(w: Windows)
    ensures var s, iv := Summary(w), w.intervals;
            iv != [] ==> HasRank(iv, s.p50, |iv| / 2) && HasRank(iv, s.p95, Rank(|iv|, 0.95)) &&
                         HasRank(iv, s.p99, Rank(|iv|, 0.99))
    ensures var s, sv := Summary(w), w.sends;
            sv != [] ==> HasRank(sv, s.send50, |sv| / 2) && HasRank(sv, s.send95, Rank(|sv|, 0.95))
  {
    if w.intervals != [] {
      MiddleRank(|w.intervals|);
      PercentileRank(w.intervals, 0.5);
      PercentileRank(w.intervals, 0.95);
      PercentileRank(w.intervals, 0.99);
    }
    if w.sends != [] {
      MiddleRank(|w.sends|);
      PercentileRank(w.sends, 0.5);
      PercentileRank(w.sends, 0.95);
    }
  }

  lemma PercentilesOrdered(s: seq<u32>, p: real, q: real)
    requires s != [] && 0.0 <= p <= q
    ensures Percentile(Sort(s), p) <= Percentile(Sort(s), q)
  {
    SortSorts(s);
    RankMonotone(|s|, p, q);
  }

  // The percentiles are in order, and the dropped estimate counts the values above twice
  // p50, which is always less than half the window.
  lemma SnapshotIsSound(w: Windows)
    requires w.intervals != []
    ensures var s := Summary(w);
            s.samples == |w.intervals| && s.p50 <= s.p95 <= s.p99 && s.send50 <= s.send95 &&
            s.dropped == CountAbove(w.intervals, 2 * s.p50) && 2 * s.dropped < |w.intervals|
  {
    var iv := w.intervals;
    var p50: int := Summary(w).p50;
    SortSorts(iv);
    PercentilesOrdered(iv, 0.5, 0.95);
    PercentilesOrdered(iv, 0.95, 0.99);
    if w.sends != [] {
      PercentilesOrdered(w.sends, 0.5, 0.95);
    }
    PercentilesByRank(w);
    CountSort(iv, Doubled(Summary(w).p50));
    CountSaturated(iv, Summary(w).p50);
    CountFalls(iv, p50, 2 * p50);
  }

  // Nothing exceeds the largest word, so the saturated double counts like the true one.
  lemma {:induction false} CountSaturated(s: seq<u32>, v: u32)
    ensures CountAbove(s, Doubled(v)) == CountAbove(s, 2 * v)
  {
    if s == [] {
    } else {
      CountSaturated(s[1..], v);
    }
  }

  lemma {:induction false} CountFalls(s: seq<u32>, v: int, w: int)
    requires v <= w
    ensures CountAbove(s, w) <= CountAbove(s, v)
  {
    if s == [] {
    } else {
      CountFalls(s[1..], v, w);
    }
  }

  lemma TimesPositive(a: real, b: real)
    requires a > 0.0 && b > 0.0
    ensures Times(a, b) > 0.0
  {
  }

  lemma SquareSign(d: real)
    requires d >= 0.0
    ensures Times(d, d) >= 0.0 && (Times(d, d) == 0.0 <==> d == 0.0)
  {
    if d == 0.0 {
    } else {
      TimesPositive(d, d);
    }
  }

  lemma {:induction false} SpreadZeroIff(s: seq<u32>, mean: real)
    ensures Spread(s, mean) >= 0.0
    ensures Spread(s, mean) == 0.0 <==> forall i :: 0 <= i < |s| ==> s[i] as real == mean
  {
    if s == [] {
    } else {
      SquareSign(Distance(s[0] as real, mean));
      SpreadZeroIff(s[1..], mean);
      assert forall i :: 0 < i < |s| ==> s[i] == s[1..][i - 1];
    }
  }

  lemma {:induction false} SumOfEqual(s: seq<u32>, v: real)
    requires forall i :: 0 <= i < |s| ==> s[i] as real == v
    ensures Sum(s) == |s| as real * v
  {
    if s == [] {
    } else {
      SumOfEqual(s[1..], v);
      assert |s| as real * v == v + (|s| - 1) as real * v;
    }
  }

  lemma MeanOfEqual(s: seq<u32>, v: real)
    requires s != [] && forall i :: 0 <= i < |s| ==> s[i] as real == v
    ensures Sum(s) / |s| as real == v
  {
    SumOfEqual(s, v);
    var n := |s| as real;
    var q := Sum(s) / n;
    assert q * n == v * n;
    assert (q - v) * n == 0.0;
  }

  lemma QuotientSign(x: real, n: real)
    requires n > 0.0 && x >= 0.0
    ensures x / n >= 0.0 && (x / n == 0.0 <==> x == 0.0)
  {
    assert x / n * n == x;
  }

  predicate AllEqual(s: seq<u32>) {
    forall i :: 0 <= i < |s| ==> s[i] == s[0]
  }

  lemma VarianceZeroIff(s: seq<u32>)
    ensures Variance(s) >= 0.0 && (Variance(s) == 0.0 <==> AllEqual(s))
  {
    if |s| >= 2 {
      var mean := Sum(s) / |s| as real;
      SpreadZeroIff(s, mean);
      QuotientSign(Spread(s, mean), |s| as real - 1.0);
      if AllEqual(s) {
        MeanOfEqual(s, s[0] as real);
      }
    }
  }

  // The snapshot shows no jitter if and only if all intervals of the window are the same.
  lemma NoJitterIff(w: Windows)
    ensures Summary(w).variance >= 0.0 && (Summary(w).variance == 0.0 <==> AllEqual(w.intervals))
  {
    var iv := Sort(w.intervals);
    SortSorts(w.intervals);
    VarianceZeroIff(iv);
    SameMembers(iv, w.intervals);
  }

  lemma SameMembers(a: seq<u32>, b: seq<u32>)
    requires multiset(a) == multiset(b)
    ensures AllEqual(a) <==> AllEqual(b)
  {
    SameLength(a, b);
    EqualFrom(a, b);
    EqualFrom(b, a);
  }

  lemma EqualFrom(a: seq<u32>, b: seq<u32>)
    requires multiset(a) == multiset(b) && |a| == |b|
    ensures AllEqual(a) ==> AllEqual(b)
  {
    if AllEqual(a) {
      forall i | 0 <= i < |b|
        ensures b[i] == b[0]
      {
        assert b[i] in multiset(a) && b[0] in multiset(a);
      }
    }
  }

  /* ---------- the variance over pairs ---------- */

  function Square(x: real): real {
    x * x
  }

  // The squared differences from one value, added up.
  function SquaresFrom(x: real, s: seq<u32>): real {
    if s == [] then 0.0 else Square(x - s[0] as real) + SquaresFrom(x, s[1..])
  }

  // The squared differences over all unordered pairs, added up.
  function PairSquares(s: seq<u32>): real {
    if s == [] then 0.0 else SquaresFrom(s[0] as real, s[1..]) + PairSquares(s[1..])
  }

  function SumSquares(s: seq<u32>): real {
    if s == [] then 0.0 else Square(s[0] as real) + SumSquares(s[1..])
  }

  lemma SquareOfDifference(x: real, y: real)
    ensures Square(x - y) == Square(x) - 2.0 * (x * y) + Square(y)
    ensures Times(Distance(x, y), Distance(x, y)) == Square(x - y)
  {
  }

  // n values with this sum and these squares, seen from x, and against each other.
  function SeenFrom(n: real, x: real, sum: real, squares: real): real {
    n * Square(x) - 2.0 * (x * sum) + squares
  }

  function AmongThem(n: real, sum: real, squares: real): real {
    n * squares - Square(sum)
  }

  lemma SeenStep(n: real, x: real, y: real, sum: real, squares: real)
    ensures SeenFrom(n + 1.0, x, y + sum, Square(y) + squares) == Square(x - y) + SeenFrom(n, x, sum, squares)
  {
    SquareOfDifference(x, y);
    assert (n + 1.0) * Square(x) == n * Square(x) + Square(x);
    assert x * (y + sum) == x * y + x * sum;
  }

  lemma {:induction false} SquaresFromIs(x: real, s: seq<u32>)
    ensures SquaresFrom(x, s) == SeenFrom(|s| as real, x, Sum(s), SumSquares(s))
  {
    if s == [] {
    } else {
      SquaresFromIs(x, s[1..]);
      SeenStep(|s[1..]| as real, x, s[0] as real, Sum(s[1..]), SumSquares(s[1..]));
    }
  }

  lemma SquareOfSum(x: real, y: real)
    ensures Square(x + y) == Square(x) + 2.0 * (x * y) + Square(y)
  {
  }

  lemma OneMoreTimes(n: real, x: real, q: real)
    ensures (n + 1.0) * (x + q) == n * x + n * q + x + q
  {
  }

  // One more value makes a pair with each of the others.
  lemma AmongStep(n: real, x: real, sum: real, squares: real)
    ensures AmongThem(n + 1.0, x + sum, Square(x) + squares)
         == SeenFrom(n, x, sum, squares) + AmongThem(n, sum, squares)
  {
    SquareOfSum(x, sum);
    OneMoreTimes(n, Square(x), squares);
  }

  lemma {:induction false} PairSquaresIs(s: seq<u32>)
    ensures PairSquares(s) == AmongThem(|s| as real, Sum(s), SumSquares(s))
  {
    if s == [] {
    } else {
      var rest := s[1..];
      PairSquaresIs(rest);
      SquaresFromIs(s[0] as real, rest);
      AmongStep(|rest| as real, s[0] as real, Sum(rest), SumSquares(rest));
    }
  }

  lemma {:induction false} SpreadIs(s: seq<u32>, mean: real)
    ensures Spread(s, mean) == SquaresFrom(mean, s)
  {
    if s == [] {
    } else {
      SpreadIs(s[1..], mean);
      SquareOfDifference(s[0] as real, mean);
      SquareOfDifference(mean, s[0] as real);
    }
  }

  // Seen from their mean.
  lemma MeanCancels(n: real, sum: real, squares: real)
    requires n > 0.0
    ensures Times(n, SeenFrom(n, sum / n, sum, squares)) == AmongThem(n, sum, squares)
  {
    var mean := sum / n;
    assert mean * n == sum;
    assert n * (n * Square(mean)) == (mean * n) * (mean * n);
    assert n * (mean * sum) == (mean * n) * sum;
    assert n * SeenFrom(n, mean, sum, squares) == n * (n * Square(mean)) - 2.0 * (n * (mean * sum)) + n * squares;
  }

  lemma SpreadFromMean(s: seq<u32>)
    requires s != []
    ensures Times(|s| as real, Spread(s, Sum(s) / |s| as real)) == PairSquares(s)
  {
    var n := |s| as real;
    SpreadIs(s, Sum(s) / n);
    SquaresFromIs(Sum(s) / n, s);
    PairSquaresIs(s);
    MeanCancels(n, Sum(s), SumSquares(s));
  }

  lemma {:induction false} InsertSums(s: seq<u32>, v: u32)
    ensures Sum(Insert(s, v)) == v as real + Sum(s)
    ensures SumSquares(Insert(s, v)) == Square(v as real) + SumSquares(s)
  {
    if s == [] || v <= s[0] {
      assert ([v] + s)[1..] == s;
    } else {
      InsertSums(s[1..], v);
      assert ([s[0]] + Insert(s[1..], v))[1..] == Insert(s[1..], v);
    }
  }

  lemma {:induction false} SortSums(s: seq<u32>)
    ensures Sum(Sort(s)) == Sum(s) && SumSquares(Sort(s)) == SumSquares(s)
  {
    if s == [] {
    } else {
      SortSums(s[1..]);
      InsertSums(Sort(s[1..]), s[0]);
    }
  }

  function OrderedPairs(n: nat): real {
    n as real * (n as real - 1.0)
  }

  lemma Divided(n: nat, spread: real)
    requires n >= 2
    ensures Times(OrderedPairs(n), spread / (n as real - 1.0)) == Times(n as real, spread)
  {
    var r := n as real;
    var q := spread / (r - 1.0);
    assert (r - 1.0) * q == spread;
    assert r * (r - 1.0) * q == r * ((r - 1.0) * q);
  }

  lemma FewHaveNone(s: seq<u32>)
    requires |s| < 2
    ensures PairSquares(s) == 0.0 && Variance(s) == 0.0
  {
    if |s| == 1 {
      assert s[1..] == [];
    }
  }

  lemma TimesZero(x: real)
    ensures Times(x, 0.0) == 0.0
  {
  }

  lemma VarianceIs(s: seq<u32>)
    ensures Times(OrderedPairs(|s|), Variance(s)) == PairSquares(s)
  {
    if |s| < 2 {
      FewHaveNone(s);
      TimesZero(OrderedPairs(|s|));
    } else {
      SpreadFromMean(s);
      Divided(|s|, Spread(s, Sum(s) / |s| as real));
    }
  }

  lemma SamePairs(s: seq<u32>)
    ensures |Sort(s)| == |s| && PairSquares(Sort(s)) == PairSquares(s)
  {
    SortSorts(s);
    SameLength(Sort(s), s);
    SortSums(s);
    PairSquaresIs(s);
    PairSquaresIs(Sort(s));
  }

  lemma SummaryVariance(w: Windows)
    ensures Summary(w).variance == Variance(Sort(w.intervals))
  {
  }

  // The snapshot's variance: n (n - 1) times it is the sum of the squared differences over all
  // unordered pairs of intervals in the window.
  lemma VarianceOverPairs(w: Windows)
    ensures Times(OrderedPairs(|w.intervals|), Summary(w).variance) == PairSquares(w.intervals)
  {
    SummaryVariance(w);
    SamePairs(w.intervals);
    VarianceIs(Sort(w.intervals));
  }

  /* ---------- the tracker ---------- */

  class LatencyTracker {
    var intervals: seq<u32>
    var sends: seq<u32>
    var prevArrival: Option<nat>

    function View(): Windows
      reads this
    {
      Windows(intervals, sends, prevArrival)
    }

    constructor ()
      ensures View() == Run([])
    {
      intervals, sends, prevArrival := [], [], None;
    }

    method RecordArrival(now: nat) returns (dt: Option<nat>)
      modifies this
      ensures View() == Noted(old(View()), Arrival(now))
      ensures dt == if old(prevArrival).None? then None
                    else Some(if now >= old(prevArrival).value then now - old(prevArrival).value else 0)
    {
      var prev := prevArrival;
      prevArrival := Some(now);
      if prev.None? {
        return None;
      }
      var gap := if now >= prev.value then now - prev.value else 0;
      intervals := PushCapped(intervals, Micros(gap));
      dt := Some(gap);
    }

    method RecordSend(duration: nat)
      modifies this`sends
      ensures View() == Noted(old(View()), Send(duration))
    {
      sends := PushCapped(sends, Micros(duration));
    }

    method TakeSnapshot() returns (s: Snapshot)
      ensures s == Summary(View())
    {
      var p50, p95, p99, dropped, n := 0, 0, 0, 0, 0;
      var variance := 0.0;
      if intervals != [] {
        var iv := Sort(intervals);
        SortSorts(intervals);
        p50 := Percentile(iv, 0.5);
        dropped := CountAbove(iv, Doubled(p50));
        p95, p99, n := Percentile(iv, 0.95), Percentile(iv, 0.99), |iv|;
        variance := Variance(iv);
      }
      var send50, send95 := 0, 0;
      if sends != [] {
        var sv := Sort(sends);
        SortSorts(sends);
        send50, send95 := Percentile(sv, 0.5), Percentile(sv, 0.95);
      }
      s := Snapshot(p50, p95, p99, variance, send50, send95, dropped, n);
    }
  }
}
