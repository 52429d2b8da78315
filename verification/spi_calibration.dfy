/**
 A Joy-Con's IMU calibration blocks, as read from its SPI flash.  Offsets and sensitivities
 are signed 16-bit words; coefficients are exact quotients.
 */
module SpiCalibration {
  import opened Bits
  import opened Wrappers

  const ACCEL_OFFSET_LIMIT := 2000
  const GYRO_OFFSET_LIMIT := 1000
  const ACCEL_NUMERATOR: real := 4.0
  const GYRO_NUMERATOR: real := 936.0
  const ACCEL_DIVISOR: real := 16384.0
  const GYRO_DIVISOR: real := 13371.0
  const NOMINAL_ACCEL: real := ACCEL_NUMERATOR / ACCEL_DIVISOR
  const NOMINAL_GYRO: real := GYRO_NUMERATOR / GYRO_DIVISOR
  const OVERRIDE_MAGIC := 0xA1B2

  type Axes = s: seq<int> | |s| == 3 witness [0, 0, 0]
  type Scales = s: seq<real> | |s| == 3 witness [0.0, 0.0, 0.0]

  const NO_OFFSET: Axes := [0, 0, 0]

  function Uniform(c: real): Scales {
    [c, c, c]
  }

  datatype ImuCalibration = ImuCalibration(
    accelOffset: Axes, accelSensitivity: Option<Axes>, gyroOffset: Axes, gyroSensitivity: Option<Axes>,
    accelCoeff: Scales, gyroCoeff: Scales, implausible: bool)

  const ZERO :=
    ImuCalibration(NO_OFFSET, None, NO_OFFSET, None, Uniform(NOMINAL_ACCEL), Uniform(NOMINAL_GYRO), false)

  /* ---------- reading a block ---------- */

  function AxesAt(block: seq<u8>, at: nat): Axes
    requires at + 6 <= |block|
  {
    [ReadI16(block, at), ReadI16(block, at + 2), ReadI16(block, at + 4)]
  }

  predicate Blank(bytes: seq<u8>) {
    (forall i :: 0 <= i < |bytes| ==> bytes[i] == 0) || (forall i :: 0 <= i < |bytes| ==> bytes[i] == 0xFF)
  }

  predicate Within(v: Axes, limit: int) {
    forall i :: 0 <= i < 3 ==> -limit <= v[i] <= limit
  }

  // One axis: numerator over the span, unless that is degenerate or off by a factor of two.
  function AxisCoeff(sensitivity: int, offset: int, numerator: real, nominal: real): real {
    var span := (sensitivity - offset) as real;
    if -1.0 <= span <= 1.0 then nominal
    else
      var coeff := numerator / span;
      if coeff > nominal * 0.5 && coeff < nominal * 2.0 then coeff else nominal
  }

  function AxisCoeffs(sensitivity: Option<Axes>, offset: Axes, numerator: real, nominal: real): Scales {
    match sensitivity
    case None => Uniform(nominal)
    case Some(s) => seq(3, i requires 0 <= i < 3 => AxisCoeff(s[i], offset[i], numerator, nominal))
  }

  method FillAxisCoeffs(sensitivity: Option<Axes>, offset: Axes, numerator: real, nominal: real)
    returns (out: array<real>)
    ensures fresh(out) && out[..] == AxisCoeffs(sensitivity, offset, numerator, nominal)
  {
    out := new real[3](_ => nominal);
    if sensitivity.Some? {
      for i := 0 to 3
        invariant forall k :: 0 <= k < i ==> out[k] == AxisCoeff(sensitivity.value[k], offset[k], numerator, nominal)
        invariant forall k :: i <= k < 3 ==> out[k] == nominal
      {
        var span := sensitivity.value[i] as real - offset[i] as real;
        assert span == (sensitivity.value[i] - offset[i]) as real;
        if span < -1.0 || span > 1.0 {
          var coeff := numerator / span;
          if coeff > nominal * 0.5 && coeff < nominal * 2.0 {
            out[i] := coeff;
          }
        }
      }
    }
  }

  function ParseBlock(block: seq<u8>): Option<ImuCalibration> {
    if |block| < 24 then None
    else
      var accelOffset, gyroOffset := AxesAt(block, 0), AxesAt(block, 12);
      var accelSens := if Blank(block[6..12]) then None else Some(AxesAt(block, 6));
      var gyroSens := if Blank(block[18..24]) then None else Some(AxesAt(block, 18));
      if Within(accelOffset, ACCEL_OFFSET_LIMIT) && Within(gyroOffset, GYRO_OFFSET_LIMIT) then
        Some(ImuCalibration(accelOffset, accelSens, gyroOffset, gyroSens,
                            AxisCoeffs(accelSens, accelOffset, ACCEL_NUMERATOR, NOMINAL_ACCEL),
                            AxisCoeffs(gyroSens, gyroOffset, GYRO_NUMERATOR, NOMINAL_GYRO), false))
      else
        Some(ImuCalibration(NO_OFFSET, accelSens, NO_OFFSET, gyroSens,
                            Uniform(NOMINAL_ACCEL), Uniform(NOMINAL_GYRO), true))
  }

  predicate MagicPresent(data: seq<u8>) {
    |data| >= 2 && (data[0] as nat) + 0x100 * (data[1] as nat) == OVERRIDE_MAGIC
  }

  /* ---------- what is adopted is plausible ---------- */

  // The quotient is used exactly when the span is within a factor of two of the nominal divisor.
  lemma CoefficientIff(sensitivity: int, offset: int, numerator: real, divisor: real)
    requires numerator > 0.0 && divisor >= 2.0
    ensures var span := (sensitivity - offset) as real;
            AxisCoeff(sensitivity, offset, numerator, numerator / divisor) ==
            if divisor / 2.0 < span < 2.0 * divisor then numerator / span else numerator / divisor
  {
    var span := (sensitivity - offset) as real;
    if span > 1.0 {
      QuotientOrder(numerator, span, 2.0 * divisor);
      QuotientOrder(numerator, divisor / 2.0, span);
      Halved(numerator, divisor);
    } else if span < -1.0 {
      NegativeQuotient(numerator, span);
      NegativeQuotient(-numerator, -divisor);
    }
  }

  lemma NegativeQuotient(n: real, d: real)
    requires d < 0.0
    ensures n > 0.0 ==> n / d < 0.0
    ensures n < 0.0 ==> n / d > 0.0 && n / d == -n / -d
  {
    var q := n / d;
    assert q * d == n;
    var p := -n / -d;
    assert p * -d == -n;
    assert (p - q) * d == 0.0;
  }

  lemma QuotientOrder(n: real, a: real, b: real)
    requires n > 0.0 && a > 0.0 && b > 0.0
    ensures a < b <==> n / a > n / b
    ensures n / a > 0.0
  {
    var p, q := n / a, n / b;
    assert p * a == n && q * b == n;
    assert (p - q) * a * b == n * (b - a);
    SameSign(p - q, a, b, n, b - a);
  }

  lemma SameSign(x: real, a: real, b: real, n: real, y: real)
    requires a > 0.0 && b > 0.0 && n > 0.0 && x * a * b == n * y
    ensures x > 0.0 <==> y > 0.0
  {
    if x > 0.0 {
      assert x * a > 0.0;
      assert x * a * b > 0.0;
    } else {
      assert x * a <= 0.0;
      assert x * a * b <= 0.0;
    }
    if y > 0.0 {
      assert n * y > 0.0;
    } else {
      assert n * y <= 0.0;
    }
  }

  lemma Halved(n: real, d: real)
    requires n > 0.0 && d > 0.0
    ensures n / (d / 2.0) == n / d * 2.0 && n / (2.0 * d) == n / d * 0.5
  {
    var q := n / d;
    assert q * d == n;
    var twice, half := n / (d / 2.0), n / (2.0 * d);
    assert twice * (d / 2.0) == n && half * (2.0 * d) == n;
    assert (twice - 2.0 * q) * d == 0.0 && (half - 0.5 * q) * d == 0.0;
  }

  predicate ScaleNear(c: real, nominal: real) {
    nominal * 0.5 < c < nominal * 2.0
  }

  predicate Plausible(cal: ImuCalibration) {
    && Within(cal.accelOffset, ACCEL_OFFSET_LIMIT) && Within(cal.gyroOffset, GYRO_OFFSET_LIMIT)
    && (forall i :: 0 <= i < 3 ==>
          ScaleNear(cal.accelCoeff[i], NOMINAL_ACCEL) && ScaleNear(cal.gyroCoeff[i], NOMINAL_GYRO))
    && (cal.implausible ==> cal.accelOffset == cal.gyroOffset == NO_OFFSET &&
                            cal.accelCoeff == Uniform(NOMINAL_ACCEL) && cal.gyroCoeff == Uniform(NOMINAL_GYRO))
  }

  lemma CoeffNear(sensitivity: int, offset: int, numerator: real, nominal: real)
    requires nominal > 0.0
    ensures ScaleNear(AxisCoeff(sensitivity, offset, numerator, nominal), nominal)
  {
  }

  lemma CoeffsNear(sensitivity: Option<Axes>, offset: Axes, numerator: real, nominal: real)
    requires nominal > 0.0
    ensures forall i :: 0 <= i < 3 ==> ScaleNear(AxisCoeffs(sensitivity, offset, numerator, nominal)[i], nominal)
  {
    if sensitivity.Some? {
      forall i | 0 <= i < 3
        ensures ScaleNear(AxisCoeffs(sensitivity, offset, numerator, nominal)[i], nominal)
      {
        CoeffNear(sensitivity.value[i], offset[i], numerator, nominal);
      }
    }
  }

  lemma ParsedIsPlausible(block: seq<u8>)
    ensures ParseBlock(block).Some? <==> |block| >= 24
    ensures ParseBlock(block).Some? ==> Plausible(ParseBlock(block).value)
  {
    if |block| >= 24 {
      var cal := ParseBlock(block).value;
      CoeffsNear(cal.accelSensitivity, cal.accelOffset, ACCEL_NUMERATOR, NOMINAL_ACCEL);
      CoeffsNear(cal.gyroSensitivity, cal.gyroOffset, GYRO_NUMERATOR, NOMINAL_GYRO);
    }
  }

  /* ---------- the layout of a block ---------- */

  predicate Storable(v: Axes) {
    forall i :: 0 <= i < 3 ==> -0x8000 <= v[i] < 0x8000
  }

  function AxesBytes(v: Axes): (s: seq<u8>)
    requires Storable(v)
    ensures |s| == 6
  {
    WriteI16(v[0]) + WriteI16(v[1]) + WriteI16(v[2])
  }

  function BlockBytes(accelOffset: Axes, accelSens: Axes, gyroOffset: Axes, gyroSens: Axes): (s: seq<u8>)
    requires Storable(accelOffset) && Storable(accelSens) && Storable(gyroOffset) && Storable(gyroSens)
    ensures |s| == 24
  {
    AxesBytes(accelOffset) + AxesBytes(accelSens) + AxesBytes(gyroOffset) + AxesBytes(gyroSens)
  }

  // Flash that was never programmed reads as all zeros or all ones.
  function IfProgrammed(v: Axes): Option<Axes> {
    if v == [0, 0, 0] || v == [-1, -1, -1] then None else Some(v)
  }

  lemma WordReads(block: seq<u8>, at: nat, v: i16)
    requires at + 2 <= |block| && block[at..at + 2] == WriteI16(v)
    ensures ReadI16(block, at) == v
  {
    assert block[at] == block[at..at + 2][0] && block[at + 1] == block[at..at + 2][1];
    I16RoundTrip(block, at, v);
  }

  lemma AxesRead(block: seq<u8>, at: nat, v: Axes)
    requires at + 6 <= |block| && Storable(v) && block[at..at + 6] == AxesBytes(v)
    ensures AxesAt(block, at) == v
    ensures Blank(block[at..at + 6]) <==> v == [0, 0, 0] || v == [-1, -1, -1]
  {
    var b := block[at..at + 6];
    SliceOfSlice(block, at, 6, 0, 2);
    SliceOfSlice(block, at, 6, 2, 4);
    SliceOfSlice(block, at, 6, 4, 6);
    assert b[0..2] == WriteI16(v[0]) && b[2..4] == WriteI16(v[1]) && b[4..6] == WriteI16(v[2]);
    WordReads(block, at, v[0]);
    WordReads(block, at + 2, v[1]);
    WordReads(block, at + 4, v[2]);
    BlankWords(b, v);
  }

  lemma BlankWords(b: seq<u8>, v: Axes)
    requires Storable(v) && b == AxesBytes(v)
    ensures Blank(b) <==> v == [0, 0, 0] || v == [-1, -1, -1]
  {
    assert forall i :: 0 <= i < 3 ==> b[2 * i] == WriteI16(v[i])[0] && b[2 * i + 1] == WriteI16(v[i])[1];
    if v == [0, 0, 0] {
      assert forall j :: 0 <= j < 6 ==> b[j] == 0;
    }
    if v == [-1, -1, -1] {
      assert forall j :: 0 <= j < 6 ==> b[j] == 0xFF;
    }
    if forall j :: 0 <= j < 6 ==> b[j] == 0 {
      assert v[0] == 0 && v[1] == 0 && v[2] == 0;
    }
    if forall j :: 0 <= j < 6 ==> b[j] == 0xFF {
      assert v[0] == -1 && v[1] == -1 && v[2] == -1;
    }
  }

  // What an axis should be scaled by: the numerator over the span, if a sensitivity was
  // programmed and the span lies within a factor of two of the nominal divisor.
  function Scale(sensitivity: Axes, offset: Axes, i: nat, numerator: real, divisor: real): real
    requires i < 3 && divisor > 0.0
  {
    var span := (sensitivity[i] - offset[i]) as real;
    if IfProgrammed(sensitivity).Some? && divisor / 2.0 < span < 2.0 * divisor then numerator / span
    else numerator / divisor
  }

  lemma CoeffsAre(sensitivity: Axes, offset: Axes, numerator: real, divisor: real)
    requires numerator > 0.0 && divisor >= 2.0
    ensures forall i: nat :: i < 3 ==>
              AxisCoeffs(IfProgrammed(sensitivity), offset, numerator, numerator / divisor)[i]
              == Scale(sensitivity, offset, i, numerator, divisor)
  {
    forall i: nat | i < 3
      ensures AxisCoeffs(IfProgrammed(sensitivity), offset, numerator, numerator / divisor)[i]
           == Scale(sensitivity, offset, i, numerator, divisor)
    {
      CoefficientIff(sensitivity[i], offset[i], numerator, divisor);
    }
  }

  // What was programmed is what is used: plausible offsets as stored, implausible ones as
  // zeros, and a sensitivity only where one was programmed.
  lemma BlockRoundTrip(accelOffset: Axes, accelSens: Axes, gyroOffset: Axes, gyroSens: Axes, trailing: seq<u8>)
    requires Storable(accelOffset) && Storable(accelSens) && Storable(gyroOffset) && Storable(gyroSens)
    ensures var parsed := ParseBlock(BlockBytes(accelOffset, accelSens, gyroOffset, gyroSens) + trailing);
            var fine := Within(accelOffset, 2000) && Within(gyroOffset, 1000);
            parsed.Some? && parsed.value.implausible == !fine &&
            parsed.value.accelSensitivity == IfProgrammed(accelSens) &&
            parsed.value.gyroSensitivity == IfProgrammed(gyroSens) &&
            parsed.value.accelOffset == (if fine then accelOffset else [0, 0, 0]) &&
            parsed.value.gyroOffset == (if fine then gyroOffset else [0, 0, 0])
  {
    var block := BlockBytes(accelOffset, accelSens, gyroOffset, gyroSens) + trailing;
    assert block[0..6] == AxesBytes(accelOffset) && block[6..12] == AxesBytes(accelSens);
    assert block[12..18] == AxesBytes(gyroOffset) && block[18..24] == AxesBytes(gyroSens);
    AxesRead(block, 0, accelOffset);
    AxesRead(block, 6, accelSens);
    AxesRead(block, 12, gyroOffset);
    AxesRead(block, 18, gyroSens);
  }

  lemma ParsedScales(block: seq<u8>, cal: ImuCalibration)
    requires ParseBlock(block) == Some(cal)
    ensures cal.accelCoeff == if cal.implausible then Uniform(NOMINAL_ACCEL)
                              else AxisCoeffs(cal.accelSensitivity, cal.accelOffset, ACCEL_NUMERATOR, NOMINAL_ACCEL)
    ensures cal.gyroCoeff == if cal.implausible then Uniform(NOMINAL_GYRO)
                             else AxisCoeffs(cal.gyroSensitivity, cal.gyroOffset, GYRO_NUMERATOR, NOMINAL_GYRO)
  {
  }

  lemma NominalScales()
    ensures ACCEL_NUMERATOR == 4.0 && NOMINAL_ACCEL == 4.0 / 16384.0
    ensures GYRO_NUMERATOR == 936.0 && NOMINAL_GYRO == 936.0 / 13371.0
  {
  }

  lemma BlockCoefficients(accelOffset: Axes, accelSens: Axes, gyroOffset: Axes, gyroSens: Axes, trailing: seq<u8>,
                          cal: ImuCalibration)
    requires Storable(accelOffset) && Storable(accelSens) && Storable(gyroOffset) && Storable(gyroSens)
    requires ParseBlock(BlockBytes(accelOffset, accelSens, gyroOffset, gyroSens) + trailing) == Some(cal)
    ensures var fine := Within(accelOffset, 2000) && Within(gyroOffset, 1000);
            cal.accelCoeff == (if fine then AxisCoeffs(IfProgrammed(accelSens), accelOffset, 4.0, 4.0 / 16384.0)
                               else Uniform(4.0 / 16384.0)) &&
            cal.gyroCoeff == (if fine then AxisCoeffs(IfProgrammed(gyroSens), gyroOffset, 936.0, 936.0 / 13371.0)
                              else Uniform(936.0 / 13371.0))
  {
    BlockRoundTrip(accelOffset, accelSens, gyroOffset, gyroSens, trailing);
    ParsedScales(BlockBytes(accelOffset, accelSens, gyroOffset, gyroSens) + trailing, cal);
    NominalScales();
  }

  lemma AccelScale(coeff: Scales, fine: bool, sensitivity: Axes, offset: Axes, i: nat)
    requires i < 3
    requires coeff == if fine then AxisCoeffs(IfProgrammed(sensitivity), offset, 4.0, 4.0 / 16384.0)
                      else Uniform(4.0 / 16384.0)
    ensures var a := (sensitivity[i] - offset[i]) as real;
            coeff[i] ==
              if fine && IfProgrammed(sensitivity).Some? && 8192.0 < a < 32768.0 then 4.0 / a else 4.0 / 16384.0
  {
    CoeffsAre(sensitivity, offset, 4.0, 16384.0);
  }

  lemma GyroScale(coeff: Scales, fine: bool, sensitivity: Axes, offset: Axes, i: nat)
    requires i < 3
    requires coeff == if fine then AxisCoeffs(IfProgrammed(sensitivity), offset, 936.0, 936.0 / 13371.0)
                      else Uniform(936.0 / 13371.0)
    ensures var g := (sensitivity[i] - offset[i]) as real;
            coeff[i] ==
              if fine && IfProgrammed(sensitivity).Some? && 6685.5 < g < 26742.0 then 936.0 / g else 936.0 / 13371.0
  {
    CoeffsAre(sensitivity, offset, 936.0, 13371.0);
  }

  // And every axis of a plausible block is scaled by 4.0 (936.0 for the gyroscope) over its
  // span if a sensitivity was programmed and the span is strictly between 8192 and 32768
  // (6685.5 and 26742); every other axis by the nominal coefficient.
  lemma BlockScales(accelOffset: Axes, accelSens: Axes, gyroOffset: Axes, gyroSens: Axes, trailing: seq<u8>, i: nat,
                    cal: ImuCalibration)
    requires Storable(accelOffset) && Storable(accelSens) && Storable(gyroOffset) && Storable(gyroSens) && i < 3
    requires ParseBlock(BlockBytes(accelOffset, accelSens, gyroOffset, gyroSens) + trailing) == Some(cal)
    ensures var fine := Within(accelOffset, 2000) && Within(gyroOffset, 1000);
            var a, g := (accelSens[i] - accelOffset[i]) as real, (gyroSens[i] - gyroOffset[i]) as real;
            cal.accelCoeff[i] ==
              (if fine && IfProgrammed(accelSens).Some? && 8192.0 < a < 32768.0 then 4.0 / a else 4.0 / 16384.0) &&
            cal.gyroCoeff[i] ==
              (if fine && IfProgrammed(gyroSens).Some? && 6685.5 < g < 26742.0 then 936.0 / g else 936.0 / 13371.0)
  {
    var fine := Within(accelOffset, 2000) && Within(gyroOffset, 1000);
    BlockCoefficients(accelOffset, accelSens, gyroOffset, gyroSens, trailing, cal);
    AccelScale(cal.accelCoeff, fine, accelSens, accelOffset, i);
    GyroScale(cal.gyroCoeff, fine, gyroSens, gyroOffset, i);
  }

  /* ---------- the reply that carries a block ---------- */

  datatype SpiReply = SpiReply(addr: u32, data: seq<u8>)

  function ParseReply(buf: seq<u8>): (r: Option<SpiReply>)
    ensures r.Some? ==> |buf| >= 20 + |r.value.data| && r.value.data == buf[20..20 + |r.value.data|]
  {
    if |buf| < 20 || buf[0] != 0x21 || buf[13] != 0x90 || buf[14] != 0x10 || |buf| < 20 + (buf[19] as nat) then None
    else
      DecodeBound(buf[15..19]);
      Pow256Values();
      Some(SpiReply(DecodeLE(buf[15..19]), buf[20..20 + (buf[19] as nat)]))
  }

  function ReplyReport(head: seq<u8>, r: SpiReply): seq<u8>
    requires |head| == 12 && |r.data| < 0x100
  {
    [0x21] + head + [0x90, 0x10] + EncodeLE(4, r.addr) + [|r.data|] + r.data
  }

  // An acknowledged read is recovered whatever stands in the header and after the data.
  lemma ReplyRoundTrip(head: seq<u8>, r: SpiReply, trailing: seq<u8>)
    requires |head| == 12 && |r.data| < 0x100
    ensures ParseReply(ReplyReport(head, r) + trailing) == Some(r)
  {
    var buf := ReplyReport(head, r) + trailing;
    assert buf[15..19] == EncodeLE(4, r.addr);
    assert buf[20..20 + |r.data|] == r.data;
    Pow256Values();
    DecodeEncode(4, r.addr);
  }

  // Anything else is refused: a short report, another report id, a refused or failed command,
  // another command, or fewer bytes than announced.  The address is read low byte first.
  lemma ReplyAcceptedIff(buf: seq<u8>)
    ensures ParseReply(buf).Some? <==>
            |buf| >= 20 && buf[0] == 0x21 && buf[13] == 0x90 && buf[14] == 0x10 && |buf| >= 20 + (buf[19] as nat)
    ensures ParseReply(buf).Some? ==>
              var r := ParseReply(buf).value;
              r.addr == Word32(buf[15], buf[16], buf[17], buf[18]) &&
              r.data == buf[20..20 + (buf[19] as nat)]
  {
    if ParseReply(buf).Some? {
      FourDigits(buf[15..19]);
    }
  }

  // The magic is 0xA1B2, low byte first.
  lemma MagicIs(data: seq<u8>)
    ensures MagicPresent(data) <==> |data| >= 2 && data[0] == 0xB2 && data[1] == 0xA1
  {
  }
}
