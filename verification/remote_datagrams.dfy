/**
 The datagrams of a remote hub, byte by byte: a datagram parses to a message if and only if
 its bytes, at offsets from its very start, are as written out here.
 */
module RemoteDatagrams {
  import opened Bits
  import opened Wrappers
  import opened Utf8
  import opened RemoteProtocol

  /* ---------- the format in numbers ---------- */

  function Le16(buf: seq<u8>, at: nat): nat
    requires at + 2 <= |buf|
  {
    Word16(buf[at], buf[at + 1])
  }

  function Le32(buf: seq<u8>, at: nat): nat
    requires at + 4 <= |buf|
  {
    Word32(buf[at], buf[at + 1], buf[at + 2], buf[at + 3])
  }

  function Le64(buf: seq<u8>, at: nat): nat
    requires at + 8 <= |buf|
  {
    Le32(buf, at) + 0x1_0000_0000 * Le32(buf, at + 4)
  }

  predicate VectorIs(buf: seq<u8>, at: nat, v: Vec3)
    requires at + 12 <= |buf|
  {
    v.x == Le32(buf, at) && v.y == Le32(buf, at + 4) && v.z == Le32(buf, at + 8)
  }

  // 45 bytes: time, rotation, acceleration, a flag and the magnetic field, if the flag is not zero.
  predicate SampleIs(buf: seq<u8>, at: nat, s: ImuSample)
    requires at + 45 <= |buf|
  {
    && s.timestampUs == Le64(buf, at) && VectorIs(buf, at + 8, s.gyro) && VectorIs(buf, at + 20, s.accel)
    && (if buf[at + 32] == 0 then s.mag == None else s.mag.Some? && VectorIs(buf, at + 33, s.mag.value))
  }

  predicate BurstIs(buf: seq<u8>, at: nat, samples: seq<ImuSample>)
    requires at < |buf|
  {
    && |samples| == buf[at] && |buf| >= at + 1 + 45 * |samples|
    && forall i: nat :: i < |samples| ==> SampleIs(buf, at + 1 + 45 * i, samples[i])
  }

  // A length byte and that many bytes of UTF-8.
  predicate NameIs(buf: seq<u8>, at: nat, name: seq<u8>)
    requires at < |buf|
  {
    var n: nat := buf[at];
    |buf| >= at + 1 + n && name == buf[at + 1..at + 1 + n] && ValidUtf8(name)
  }

  function KindOf(b: u8): Option<DeviceKind> {
    if 1 <= b <= 12 then
      Some([Phone, Watch, JoyCon2L, JoyCon2R, ProController2, Hopx, DualSense, DualShock4, JoyConL, JoyConR,
            ProController, Gamepad][b - 1])
    else None
  }

  predicate HelloIs(buf: seq<u8>, uuid: seq<u8>, name: seq<u8>, ts: Option<u64>) {
    && |buf| >= 23 && uuid == buf[6..22] && NameIs(buf, 22, name)
    && ts == if |buf| >= 31 + |name| then Some(Le64(buf, 23 + |name|)) else None
  }

  predicate AnnounceIs(buf: seq<u8>, a: Announce) {
    && |buf| >= 21 && a.handle == Le16(buf, 6) && KindOf(buf[8]) == Some(a.kind) && a.mac == buf[9..15]
    && a.hasMag == (buf[15] != 0) && a.hasBattery == (buf[16] != 0) && a.hasRumble == (buf[17] != 0)
    && a.rateHz == Le16(buf, 18) && NameIs(buf, 20, a.name)
  }

  predicate ImuIs(buf: seq<u8>, handle: u16, seqNo: Option<u16>, samples: seq<ImuSample>) {
    if seqNo.None? then |buf| >= 9 && handle == Le16(buf, 6) && BurstIs(buf, 8, samples)
    else |buf| >= 11 && handle == Le16(buf, 6) && seqNo.value == Le16(buf, 8) && BurstIs(buf, 10, samples)
  }

  predicate Says(buf: seq<u8>, m: RemoteMsg) {
    && |buf| >= 6 && buf[..5] == [0x45, 0x49, 0x4D, 0x55, 1]
    && match m
       case Hello(uuid, name, ts) => buf[5] == 1 && HelloIs(buf, uuid, name, ts)
       case Announced(a) => buf[5] == 3 && AnnounceIs(buf, a)
       case Remove(handle) => buf[5] == 4 && |buf| >= 8 && handle == Le16(buf, 6)
       case Imu(handle, seqNo, samples) =>
         buf[5] == (if seqNo.None? then 5 else 9) && ImuIs(buf, handle, seqNo, samples)
       case Battery(handle, fraction, charging) =>
         buf[5] == 6 && |buf| >= 13 && handle == Le16(buf, 6) && fraction == Le32(buf, 8) && charging == (buf[12] != 0)
       case Button(handle, reset) =>
         buf[5] == 7 && |buf| >= 9 && handle == Le16(buf, 6) && reset == if buf[8] == 0 then Yaw else Full
  }

  /* ---------- the parser reads exactly that ---------- */

  lemma Read16(buf: seq<u8>, p: seq<u8>, at: nat)
    requires |buf| >= 6 && p == buf[6..] && at + 2 <= |p|
    ensures U16At(p, at) == Le16(buf, 6 + at)
  {
    TwoDigits(p[at..at + 2]);
  }

  lemma Read32(buf: seq<u8>, p: seq<u8>, at: nat)
    requires |buf| >= 6 && p == buf[6..] && at + 4 <= |p|
    ensures U32At(p, at) == Le32(buf, 6 + at)
  {
    FourDigits(p[at..at + 4]);
  }

  lemma Read64(buf: seq<u8>, p: seq<u8>, at: nat)
    requires |buf| >= 6 && p == buf[6..] && at + 8 <= |p|
    ensures U64At(p, at) == Le64(buf, 6 + at)
  {
    EightDigits(p[at..at + 8]);
  }

  lemma ReadVector(buf: seq<u8>, p: seq<u8>, at: nat, v: Vec3)
    requires |buf| >= 6 && p == buf[6..] && at + 12 <= |p|
    ensures Vec3At(p, at) == v <==> VectorIs(buf, 6 + at, v)
  {
    Read32(buf, p, at);
    Read32(buf, p, at + 4);
    Read32(buf, p, at + 8);
  }

  lemma ReadSample(buf: seq<u8>, p: seq<u8>, at: nat, s: ImuSample)
    requires |buf| >= 6 && p == buf[6..] && at + 45 <= |p|
    ensures SampleAt(p, at) == s <==> SampleIs(buf, 6 + at, s)
  {
    Read64(buf, p, at);
    ReadVector(buf, p, at + 8, s.gyro);
    ReadVector(buf, p, at + 20, s.accel);
    if s.mag.Some? {
      ReadVector(buf, p, at + 33, s.mag.value);
    }
    assert p[at + 32] == buf[6 + at + 32];
  }

  lemma ReadSamples(buf: seq<u8>, p: seq<u8>, base: nat, samples: seq<ImuSample>)
    requires |buf| >= 6 && p == buf[6..] && base + 45 * |samples| <= |p|
    ensures SamplesAt(p, base, |samples|) == samples <==>
            forall i: nat :: i < |samples| ==> SampleIs(buf, 6 + base + 45 * i, samples[i])
  {
    var read := SamplesAt(p, base, |samples|);
    forall i: nat | i < |samples|
      ensures read[i] == samples[i] <==> SampleIs(buf, 6 + base + 45 * i, samples[i])
    {
      ReadSample(buf, p, base + i * SAMPLE_LEN, samples[i]);
    }
  }

  // What the parser makes of the sample area, once its length byte is in.
  lemma ReadArea(buf: seq<u8>, p: seq<u8>, base: nat, samples: seq<ImuSample>)
    requires |buf| >= 6 && p == buf[6..] && 0 < base <= |p|
    ensures p[base - 1] == buf[5 + base]
    ensures |p| >= base + p[base - 1] * SAMPLE_LEN && SamplesAt(p, base, p[base - 1]) == samples <==>
            BurstIs(buf, 5 + base, samples)
  {
    if |p| >= base + p[base - 1] * SAMPLE_LEN && |samples| == p[base - 1] {
      ReadSamples(buf, p, base, samples);
    }
  }

  lemma ReadBurst(buf: seq<u8>, p: seq<u8>, extra: nat, handle: u16, samples: seq<ImuSample>)
    requires |buf| >= 6 && p == buf[6..]
    ensures ImuBurst(p, extra) == Some((handle, samples)) <==>
            |buf| >= 9 + extra && handle == Le16(buf, 6) && BurstIs(buf, 8 + extra, samples)
  {
    if |p| >= 3 + extra {
      Read16(buf, p, 0);
      ReadArea(buf, p, 3 + extra, samples);
    }
  }

  lemma ReadName(buf: seq<u8>, p: seq<u8>, at: nat)
    requires |buf| >= 6 && p == buf[6..] && at < |p|
    ensures p[at] == buf[6 + at]
    ensures |p| >= at + 1 + p[at] ==> p[at + 1..at + 1 + p[at]] == buf[7 + at..7 + at + p[at]]
  {
  }

  lemma ReadHello(buf: seq<u8>, p: seq<u8>, uuid: seq<u8>, name: seq<u8>, ts: Option<u64>)
    requires |buf| >= 6 && p == buf[6..]
    ensures ParseHello(p) == Some(Hello(uuid, name, ts)) <==> HelloIs(buf, uuid, name, ts)
  {
    if |p| >= 17 {
      ReadName(buf, p, 16);
      assert p[..16] == buf[6..22];
      var n: nat := p[16];
      if |p| >= 25 + n {
        var tail := p[17 + n..];
        assert tail[0..8] == p[17 + n..25 + n];
        Read64(buf, p, 17 + n);
      }
    }
  }

  lemma KindIs(b: u8)
    ensures KindFromWire(b) == KindOf(b)
  {
  }

  lemma ReadAnnounce(buf: seq<u8>, p: seq<u8>, a: Announce)
    requires |buf| >= 6 && p == buf[6..]
    ensures ParseAnnounce(p) == Some(Announced(a)) <==> AnnounceIs(buf, a)
  {
    if |p| >= 15 {
      Read16(buf, p, 0);
      Read16(buf, p, 12);
      ReadName(buf, p, 14);
      KindIs(p[2]);
      assert p[3..9] == buf[9..15];
    }
  }

  lemma ReadShort(buf: seq<u8>, p: seq<u8>)
    requires |buf| >= 6 && p == buf[6..]
    ensures |p| >= 2 ==> U16At(p, 0) == Le16(buf, 6)
    ensures |p| >= 4 ==> U16At(p, 2) == Le16(buf, 8)
    ensures |p| >= 6 ==> U32At(p, 2) == Le32(buf, 8)
  {
    if |p| >= 2 {
      Read16(buf, p, 0);
    }
    if |p| >= 4 {
      Read16(buf, p, 2);
    }
    if |p| >= 6 {
      Read32(buf, p, 2);
    }
  }

  lemma ReadHeader(buf: seq<u8>)
    ensures |buf| >= 6 && buf[..4] == MAGIC && buf[4] == VERSION <==>
            |buf| >= 6 && buf[..5] == [0x45, 0x49, 0x4D, 0x55, 1]
  {
    if |buf| >= 6 {
      assert buf[..5] == buf[..4] + [buf[4]];
    }
  }

  // A datagram parses to a message if and only if it says that message, byte for byte: what is
  // wrong in its magic, version, type, lengths, kind or UTF-8 is refused, and nothing else is.
  lemma ParseIff(buf: seq<u8>, m: RemoteMsg)
    ensures Parse(buf) == Some(m) <==> Says(buf, m)
  {
    ReadHeader(buf);
    if |buf| >= 6 {
      var p := buf[6..];
      ReadShort(buf, p);
      match m
      case Hello(uuid, name, ts) => ReadHello(buf, p, uuid, name, ts);
      case Announced(a) => ReadAnnounce(buf, p, a);
      case Imu(handle, seqNo, samples) => ReadBurst(buf, p, if seqNo.Some? then 2 else 0, handle, samples);
      case Remove(_) =>
      case Battery(_, _, _) =>
      case Button(_, _) =>
    }
  }

  /* ---------- what the hub gets back ---------- */

  // An acknowledgement: 7 bytes, or 15 if the hello carried a timestamp, which stands at the end.
  lemma AckSays(ts: Option<u64>)
    ensures var ack := HelloAckEcho(ts);
            |ack| == (if ts.Some? then 15 else 7) && ack[..7] == [0x45, 0x49, 0x4D, 0x55, 1, 2, 1] &&
            (ts.Some? ==> Le64(ack, 7) == ts.value)
  {
    var ack := HelloAckEcho(ts);
    assert ack[..7] == Header(MSG_HELLO_ACK) + [VERSION];
    if ts.Some? {
      assert ack[7..15] == EncodeLE(8, ts.value);
      EightDigits(ack[7..15]);
      Pow256Values();
      DecodeEncode(8, ts.value);
    }
  }

  lemma RumbleSays(handle: u16, intensity: u32)
    ensures var packet := RumblePacket(handle, intensity);
            packet[..6] == [0x45, 0x49, 0x4D, 0x55, 1, 8] && Le16(packet, 6) == handle && Le32(packet, 8) == intensity
  {
    var packet := RumblePacket(handle, intensity);
    RumbleRoundTrip(handle, intensity);
    TwoDigits(packet[6..8]);
    FourDigits(packet[8..12]);
  }
}
