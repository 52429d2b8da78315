/**
 The pipeline's timestep fields, updated batch by batch as samples arrive.
 */
module TimestepDrivers {
  import opened Bits
  import opened Wrappers
  import opened RateCalibration
  import opened HardwareClock

  class TimestepDriver {
    var gyrTsCurrent: real
    var firstBatch: Option<real>
    var windowStart: Option<real>
    var windowSamples: nat
    var emaHz: Option<pos>
    var lastHwTs: Option<u32>
    var hwDtEma: real

    function RateView(): Rate
      reads this
    {
      Rate(firstBatch, windowStart, windowSamples, emaHz, gyrTsCurrent)
    }

    function ClockView(): Clock
      reads this
    {
      Clock(lastHwTs, hwDtEma)
    }

    function View(): Driver
      reads this
    {
      Driver(RateView(), ClockView())
    }

    constructor (ts: real)
      ensures View() == Fresh(ts)
    {
      gyrTsCurrent := ts;
      firstBatch, windowStart, windowSamples, emaHz := None, None, 0, None;
      lastHwTs, hwDtEma := None, 0.0;
    }

    method Retime(measured: real)
      modifies this`gyrTsCurrent
      ensures gyrTsCurrent == Retimed(measured, old(gyrTsCurrent))
    {
      var corrected := CorrectedTimestep(measured, gyrTsCurrent, THRESHOLD);
      if corrected.Some? {
        gyrTsCurrent := corrected.value;
      }
    }

    method CalibrateRate(samples: nat, arrival: real)
      modifies this`gyrTsCurrent, this`firstBatch, this`windowStart, this`windowSamples, this`emaHz
      ensures RateView() == Calibrated(old(RateView()), Batch(samples, arrival))
    {
      if samples == 0 {
        return;
      }
      if firstBatch.None? {
        firstBatch := Some(arrival);
      }
      if Since(firstBatch.value, arrival) < WARMUP {
        return;
      }
      if windowStart.None? {
        windowStart := Some(arrival);
      }
      windowSamples := windowSamples + samples;
      var elapsed := Since(windowStart.value, arrival);
      if elapsed < WINDOW {
        return;
      }
      var rate: pos := windowSamples as real / elapsed;
      windowStart, windowSamples := Some(arrival), 0;
      var ema: pos := if emaHz.Some? then 0.25 * rate + 0.75 * emaHz.value else rate;
      emaHz := Some(ema);
      Retime(Clamp(1.0 / ema));
    }

    method Tick(ts: u64)
      modifies this`lastHwTs, this`hwDtEma
      ensures ClockView() == Ticked(old(ClockView()), ts)
    {
      if ts != 0 {
        var cur := Low32(ts);
        var prev := lastHwTs;
        lastHwTs := Some(cur);
        if prev.Some? {
          var dtUs := WrappingSub(cur, prev.value);
          if 0 < dtUs < 100_000 {
            var dt := dtUs as real / 1_000_000.0;
            hwDtEma := if hwDtEma <= 0.0 then dt else 0.1 * dt + 0.9 * hwDtEma;
          }
        }
      }
    }

    method HandleSamples(timestamps: seq<u64>, arrival: real)
      modifies this
      ensures View() == Handled(old(View()), Samples(timestamps, arrival))
    {
      if timestamps == [] {
        return;
      }
      for i := 0 to |timestamps|
        invariant ClockView() == TickedAll(old(ClockView()), timestamps[..i])
        invariant RateView() == old(RateView())
      {
        Tick(timestamps[i]);
        assert timestamps[..i + 1][..i] == timestamps[..i];
      }
      assert timestamps[..|timestamps|] == timestamps;
      if hwDtEma > 0.0 {
        Retime(hwDtEma);
      } else {
        CalibrateRate(|timestamps|, arrival);
      }
    }
  }
}
