/**
 The eimu remote protocol, version 1: one message per UDP datagram, an "EIMU" envelope
 and a little-endian payload.  Floats travel as opaque 32-bit words.
 */
module RemoteProtocol {
  import opened Bits
  import opened Wrappers
  import opened Utf8

  const MAGIC: seq<u8> := [0x45, 0x49, 0x4D, 0x55]
  const VERSION: u8 := 1

  const MSG_HELLO: u8 := 1
  const MSG_HELLO_ACK: u8 := 2
  const MSG_ANNOUNCE: u8 := 3
  const MSG_REMOVE: u8 := 4
  const MSG_IMU: u8 := 5
  const MSG_BATTERY: u8 := 6
  const MSG_BUTTON: u8 := 7
  const MSG_RUMBLE: u8 := 8
  const MSG_IMU2: u8 := 9

  const HEADER_LEN := 6
  const SAMPLE_LEN := 45
  const RECV_BUFFER := 16384

  datatype DeviceKind =
    | Phone | Watch | JoyCon2L | JoyCon2R | ProController2 | Hopx
    | DualSense | DualShock4 | JoyConL | JoyConR | ProController | Gamepad

  datatype ResetKind = Yaw | Full

  datatype Vec3 = Vec3(x: u32, y: u32, z: u32)

  datatype ImuSample = ImuSample(timestampUs: u64, gyro: Vec3, accel: Vec3, mag: Option<Vec3>)

  datatype Announce = Announce(
    handle: u16, kind: DeviceKind, mac: seq<u8>,
    hasMag: bool, hasBattery: bool, hasRumble: bool, rateHz: u16, name: seq<u8>)

  datatype RemoteMsg =
    | Hello(uuid: seq<u8>, name: seq<u8>, ts: Option<u64>)
    | Announced(announce: Announce)
    | Remove(handle: u16)
    | Imu(handle: u16, seqNo: Option<u16>, samples: seq<ImuSample>)
    | Battery(handle: u16, fraction: u32, charging: bool)
    | Button(handle: u16, reset: ResetKind)

  /* ---------- reading ---------- */

  function Field(p: seq<u8>, at: nat, n: nat): (w: nat)
    requires at + n <= |p|
    ensures w < Pow256(n)
  {
    DecodeBound(p[at..at + n]);
    DecodeLE(p[at..at + n])
  }

  function U16At(p: seq<u8>, at: nat): u16
    requires at + 2 <= |p|
  {
    Pow256Values();
    Field(p, at, 2)
  }

  function U32At(p: seq<u8>, at: nat): u32
    requires at + 4 <= |p|
  {
    Pow256Values();
    Field(p, at, 4)
  }

  function U64At(p: seq<u8>, at: nat): u64
    requires at + 8 <= |p|
  {
    Pow256Values();
    Field(p, at, 8)
  }

  function Vec3At(p: seq<u8>, at: nat): Vec3
    requires at + 12 <= |p|
  {
    Vec3(U32At(p, at), U32At(p, at + 4), U32At(p, at + 8))
  }

  function KindFromWire(b: u8): Option<DeviceKind> {
    match b
    case 1 => Some(Phone)
    case 2 => Some(Watch)
    case 3 => Some(JoyCon2L)
    case 4 => Some(JoyCon2R)
    case 5 => Some(ProController2)
    case 6 => Some(Hopx)
    case 7 => Some(DualSense)
    case 8 => Some(DualShock4)
    case 9 => Some(JoyConL)
    case 10 => Some(JoyConR)
    case 11 => Some(ProController)
    case 12 => Some(Gamepad)
    case _ => None
  }

  function SampleAt(p: seq<u8>, at: nat): ImuSample
    requires at + SAMPLE_LEN <= |p|
  {
    ImuSample(U64At(p, at), Vec3At(p, at + 8), Vec3At(p, at + 20),
              if p[at + 32] != 0 then Some(Vec3At(p, at + 33)) else None)
  }

  function SamplesAt(p: seq<u8>, base: nat, count: nat): (samples: seq<ImuSample>)
    requires base + count * SAMPLE_LEN <= |p|
    ensures |samples| == count
  {
    seq(count, i requires 0 <= i < count => SampleAt(p, base + i * SAMPLE_LEN))
  }

  // The body shared by both burst messages; extra is 0 for MSG_IMU and 2 for MSG_IMU2.
  function ImuBurst(p: seq<u8>, extra: nat): Option<(u16, seq<ImuSample>)> {
    if |p| < 3 + extra then None
    else
      var count := p[2 + extra];
      var base := 3 + extra;
      if |p| < base + count * SAMPLE_LEN then None
      else Some((U16At(p, 0), SamplesAt(p, base, count)))
  }

  method ParseImuSamples(p: seq<u8>, extra: nat) returns (r: Option<(u16, seq<ImuSample>)>)
    ensures r == ImuBurst(p, extra)
  {
    if |p| < 3 + extra {
      return None;
    }
    var handle := U16At(p, 0);
    var count := p[2 + extra];
    var base := 3 + extra;
    if |p| < base + count * SAMPLE_LEN {
      return None;
    }
    var samples := [];
    for i := 0 to count
      invariant samples == SamplesAt(p, base, i)
    {
      var off := base + i * SAMPLE_LEN;
      samples := samples + [SampleAt(p, off)];
    }
    return Some((handle, samples));
  }

  function ParseHello(p: seq<u8>): Option<RemoteMsg> {
    if |p| < 17 then None
    else
      var n: nat := p[16];
      if |p| < 17 + n || !ValidUtf8(p[17..17 + n]) then None
      else
        var tail := p[17 + n..];
        Some(Hello(p[..16], p[17..17 + n], if |tail| >= 8 then Some(U64At(tail, 0)) else None))
  }

  function ParseAnnounce(p: seq<u8>): Option<RemoteMsg> {
    if |p| < 15 then None
    else
      var kind := KindFromWire(p[2]);
      var n: nat := p[14];
      if kind.None? || |p| < 15 + n || !ValidUtf8(p[15..15 + n]) then None
      else Some(Announced(Announce(U16At(p, 0), kind.value, p[3..9],
                                   p[9] != 0, p[10] != 0, p[11] != 0, U16At(p, 12), p[15..15 + n])))
  }

  function Parse(buf: seq<u8>): Option<RemoteMsg> {
    if |buf| < HEADER_LEN || buf[..4] != MAGIC || buf[4] != VERSION then None
    else
      var msg, p := buf[5], buf[HEADER_LEN..];
      if msg == MSG_HELLO then ParseHello(p)
      else if msg == MSG_ANNOUNCE then ParseAnnounce(p)
      else if msg == MSG_REMOVE then
        if |p| < 2 then None else Some(Remove(U16At(p, 0)))
      else if msg == MSG_IMU then
        match ImuBurst(p, 0)
        case None => None
        case Some((handle, samples)) => Some(Imu(handle, None, samples))
      else if msg == MSG_IMU2 then
        if |p| < 5 then None
        else
          match ImuBurst(p, 2)
          case None => None
          case Some((handle, samples)) => Some(Imu(handle, Some(U16At(p, 2)), samples))
      else if msg == MSG_BATTERY then
        if |p| < 7 then None else Some(Battery(U16At(p, 0), U32At(p, 2), p[6] != 0))
      else if msg == MSG_BUTTON then
        if |p| < 3 then None else Some(Button(U16At(p, 0), if p[2] == 0 then Yaw else Full))
      else None
  }

  /* ---------- the sender's side, as a specification ---------- */

  function KindToWire(k: DeviceKind): u8 {
    match k
    case Phone => 1
    case Watch => 2
    case JoyCon2L => 3
    case JoyCon2R => 4
    case ProController2 => 5
    case Hopx => 6
    case DualSense => 7
    case DualShock4 => 8
    case JoyConL => 9
    case JoyConR => 10
    case ProController => 11
    case Gamepad => 12
  }

  function Flag(b: bool): u8 {
    if b then 1 else 0
  }

  function EncodeVec3(v: Vec3): (s: seq<u8>)
    ensures |s| == 12
  {
    EncodeLE(4, v.x) + EncodeLE(4, v.y) + EncodeLE(4, v.z)
  }

  function EncodeSample(s: ImuSample): (b: seq<u8>)
    ensures |b| == SAMPLE_LEN
  {
    EncodeLE(8, s.timestampUs) + EncodeVec3(s.gyro) + EncodeVec3(s.accel) + [Flag(s.mag.Some?)]
    + EncodeVec3(if s.mag.Some? then s.mag.value else Vec3(0, 0, 0))
  }

  function Flatten(blocks: seq<seq<u8>>): seq<u8> {
    if blocks == [] then [] else Flatten(blocks[..|blocks| - 1]) + blocks[|blocks| - 1]
  }

  function EncodedBlocks(samples: seq<ImuSample>): (blocks: seq<seq<u8>>)
    ensures |blocks| == |samples| && forall b :: b in blocks ==> |b| == SAMPLE_LEN
  {
    seq(|samples|, i requires 0 <= i < |samples| => EncodeSample(samples[i]))
  }

  function EncodeSamples(samples: seq<ImuSample>): (b: seq<u8>)
    ensures |b| == |samples| * SAMPLE_LEN
  {
    FlattenLength(EncodedBlocks(samples));
    Flatten(EncodedBlocks(samples))
  }

  predicate NameFits(name: seq<u8>) {
    |name| < 256 && ValidUtf8(name)
  }

  predicate WellFormed(m: RemoteMsg) {
    match m
    case Hello(uuid, name, _) => |uuid| == 16 && NameFits(name)
    case Announced(a) => |a.mac| == 6 && NameFits(a.name)
    case Imu(_, _, samples) => |samples| < 256
    case _ => true
  }

  function MsgType(m: RemoteMsg): u8 {
    match m
    case Hello(_, _, _) => MSG_HELLO
    case Announced(_) => MSG_ANNOUNCE
    case Remove(_) => MSG_REMOVE
    case Imu(_, seqNo, _) => if seqNo.Some? then MSG_IMU2 else MSG_IMU
    case Battery(_, _, _) => MSG_BATTERY
    case Button(_, _) => MSG_BUTTON
  }

  function Payload(m: RemoteMsg): seq<u8>
    requires WellFormed(m)
  {
    match m
    case Hello(uuid, name, ts) =>
      uuid + [|name|] + name + (if ts.Some? then EncodeLE(8, ts.value) else [])
    case Announced(a) =>
      EncodeLE(2, a.handle) + [KindToWire(a.kind)] + a.mac
      + [Flag(a.hasMag), Flag(a.hasBattery), Flag(a.hasRumble)] + EncodeLE(2, a.rateHz) + [|a.name|] + a.name
    case Remove(handle) => EncodeLE(2, handle)
    case Imu(handle, seqNo, samples) =>
      EncodeLE(2, handle) + (if seqNo.Some? then EncodeLE(2, seqNo.value) else []) + [|samples|]
      + EncodeSamples(samples)
    case Battery(handle, fraction, charging) => EncodeLE(2, handle) + EncodeLE(4, fraction) + [Flag(charging)]
    case Button(handle, reset) => EncodeLE(2, handle) + [if reset == Yaw then 0 else 1]
  }

  function Header(msg: u8): (h: seq<u8>)
    ensures |h| == HEADER_LEN
  {
    MAGIC + [VERSION, msg]
  }

  function Encode(m: RemoteMsg): seq<u8>
    requires WellFormed(m)
  {
    Header(MsgType(m)) + Payload(m)
  }

  /* ---------- parse inverts encode ---------- */

  lemma U16Reads(p: seq<u8>, at: nat, w: u16)
    requires at + 2 <= |p| && p[at..at + 2] == EncodeLE(2, w)
    ensures U16At(p, at) == w
  {
    Pow256Values();
    DecodeEncode(2, w);
  }

  lemma U32Reads(p: seq<u8>, at: nat, w: u32)
    requires at + 4 <= |p| && p[at..at + 4] == EncodeLE(4, w)
    ensures U32At(p, at) == w
  {
    Pow256Values();
    DecodeEncode(4, w);
  }

  lemma U64Reads(p: seq<u8>, at: nat, w: u64)
    requires at + 8 <= |p| && p[at..at + 8] == EncodeLE(8, w)
    ensures U64At(p, at) == w
  {
    Pow256Values();
    DecodeEncode(8, w);
  }

  lemma SplitSlice(p: seq<u8>, at: nat, x: seq<u8>, y: seq<u8>)
    requires at + |x| + |y| <= |p| && p[at..at + |x| + |y|] == x + y
    ensures p[at..at + |x|] == x && p[at + |x|..at + |x| + |y|] == y
  {
    SliceOfSlice(p, at, |x| + |y|, 0, |x|);
    SliceOfSlice(p, at, |x| + |y|, |x|, |x| + |y|);
    assert (x + y)[0..|x|] == x && (x + y)[|x|..|x| + |y|] == y;
  }

  lemma Vec3Reads(p: seq<u8>, at: nat, v: Vec3)
    requires at + 12 <= |p| && p[at..at + 12] == EncodeVec3(v)
    ensures Vec3At(p, at) == v
  {
    var s := p[at..at + 12];
    SliceOfSlice(p, at, 12, 0, 4);
    SliceOfSlice(p, at, 12, 4, 8);
    SliceOfSlice(p, at, 12, 8, 12);
    assert s[0..4] == EncodeLE(4, v.x) && s[4..8] == EncodeLE(4, v.y) && s[8..12] == EncodeLE(4, v.z);
    U32Reads(p, at, v.x);
    U32Reads(p, at + 4, v.y);
    U32Reads(p, at + 8, v.z);
  }

  lemma SampleReads(p: seq<u8>, at: nat, s: ImuSample)
    requires at + SAMPLE_LEN <= |p| && p[at..at + SAMPLE_LEN] == EncodeSample(s)
    ensures SampleAt(p, at) == s
  {
    var b := p[at..at + SAMPLE_LEN];
    SliceOfSlice(p, at, SAMPLE_LEN, 0, 8);
    SliceOfSlice(p, at, SAMPLE_LEN, 8, 20);
    SliceOfSlice(p, at, SAMPLE_LEN, 20, 32);
    SliceOfSlice(p, at, SAMPLE_LEN, 33, 45);
    assert b[0..8] == EncodeLE(8, s.timestampUs) && b[8..20] == EncodeVec3(s.gyro);
    assert b[20..32] == EncodeVec3(s.accel) && p[at + 32] == b[32] == Flag(s.mag.Some?);
    assert s.mag.Some? ==> b[33..45] == EncodeVec3(s.mag.value);
    U64Reads(p, at, s.timestampUs);
    Vec3Reads(p, at + 8, s.gyro);
    Vec3Reads(p, at + 20, s.accel);
    if s.mag.Some? {
      Vec3Reads(p, at + 33, s.mag.value);
    }
  }

  lemma {:induction false} BlockReads(p: seq<u8>, base: nat, blocks: seq<seq<u8>>, i: nat)
    requires i < |blocks| && forall b :: b in blocks ==> |b| == SAMPLE_LEN
    requires base + |blocks| * SAMPLE_LEN <= |p|
    requires p[base..base + |blocks| * SAMPLE_LEN] == Flatten(blocks)
    ensures p[base + i * SAMPLE_LEN..base + (i + 1) * SAMPLE_LEN] == blocks[i]
  {
    var n := |blocks| - 1;
    FlattenLength(blocks[..n]);
    SplitSlice(p, base, Flatten(blocks[..n]), blocks[n]);
    if i == n {
    } else {
      BlockReads(p, base, blocks[..n], i);
    }
  }

  lemma {:induction false} FlattenLength(blocks: seq<seq<u8>>)
    requires forall b :: b in blocks ==> |b| == SAMPLE_LEN
    ensures |Flatten(blocks)| == |blocks| * SAMPLE_LEN
  {
    if blocks == [] {
    } else {
      FlattenLength(blocks[..|blocks| - 1]);
    }
  }

  lemma BlockBounds(base: nat, n: nat, i: nat)
    requires i < n
    ensures base + i * SAMPLE_LEN + SAMPLE_LEN == base + (i + 1) * SAMPLE_LEN <= base + n * SAMPLE_LEN
  {
  }

  lemma SliceOfBlocks(p: seq<u8>, base: nat, blocks: seq<seq<u8>>, i: nat)
    requires i < |blocks| && forall b :: b in blocks ==> |b| == SAMPLE_LEN
    requires base + |blocks| * SAMPLE_LEN <= |p|
    requires p[base..base + |blocks| * SAMPLE_LEN] == Flatten(blocks)
    ensures base + i * SAMPLE_LEN + SAMPLE_LEN <= |p|
    ensures p[base + i * SAMPLE_LEN..base + i * SAMPLE_LEN + SAMPLE_LEN] == blocks[i]
  {
    BlockBounds(base, |blocks|, i);
    BlockReads(p, base, blocks, i);
  }

  lemma SliceInBurst(p: seq<u8>, base: nat, samples: seq<ImuSample>, i: nat)
    requires i < |samples| && base + |samples| * SAMPLE_LEN <= |p|
    requires p[base..base + |samples| * SAMPLE_LEN] == EncodeSamples(samples)
    ensures base + i * SAMPLE_LEN + SAMPLE_LEN <= |p|
    ensures p[base + i * SAMPLE_LEN..base + i * SAMPLE_LEN + SAMPLE_LEN] == EncodeSample(samples[i])
  {
    SliceOfBlocks(p, base, EncodedBlocks(samples), i);
  }

  lemma SampleInBurst(p: seq<u8>, base: nat, samples: seq<ImuSample>, i: nat)
    requires i < |samples| && base + |samples| * SAMPLE_LEN <= |p|
    requires p[base..base + |samples| * SAMPLE_LEN] == EncodeSamples(samples)
    ensures base + i * SAMPLE_LEN + SAMPLE_LEN <= |p|
    ensures SampleAt(p, base + i * SAMPLE_LEN) == samples[i]
  {
    SliceInBurst(p, base, samples, i);
    SampleReads(p, base + i * SAMPLE_LEN, samples[i]);
  }

  lemma SamplesRead(p: seq<u8>, base: nat, samples: seq<ImuSample>)
    requires base + |samples| * SAMPLE_LEN <= |p|
    requires p[base..base + |samples| * SAMPLE_LEN] == EncodeSamples(samples)
    ensures SamplesAt(p, base, |samples|) == samples
  {
    forall i | 0 <= i < |samples| ensures SamplesAt(p, base, |samples|)[i] == samples[i] {
      SampleInBurst(p, base, samples, i);
    }
  }

  lemma BurstReads(p: seq<u8>, extra: nat, handle: u16, samples: seq<ImuSample>)
    requires |samples| < 256 && 3 + extra + |samples| * SAMPLE_LEN <= |p|
    requires p[0..2] == EncodeLE(2, handle) && p[2 + extra] == |samples|
    requires p[3 + extra..3 + extra + |samples| * SAMPLE_LEN] == EncodeSamples(samples)
    ensures ImuBurst(p, extra) == Some((handle, samples))
  {
    var base := 3 + extra;
    U16Reads(p, 0, handle);
    SamplesRead(p, base, samples);
    assert SamplesAt(p, base, |samples|) == samples;
  }

  lemma HeaderIs(msg: u8)
    ensures var h := Header(msg); h[..4] == MAGIC && h[4] == VERSION && h[5] == msg
  {
  }

  lemma BehindHeader(h: seq<u8>, p: seq<u8>)
    requires |h| == HEADER_LEN
    ensures var buf := h + p;
            buf[..4] == h[..4] && buf[4] == h[4] && buf[5] == h[5] && buf[HEADER_LEN..] == p
  {
  }

  lemma HeaderReads(m: RemoteMsg, trailing: seq<u8>)
    requires WellFormed(m)
    ensures var buf := Encode(m) + trailing;
            |buf| >= HEADER_LEN && buf[..4] == MAGIC && buf[4] == VERSION && buf[5] == MsgType(m) &&
            buf[HEADER_LEN..] == Payload(m) + trailing
  {
    var h, p := Header(MsgType(m)), Payload(m);
    assert Encode(m) + trailing == h + (p + trailing);
    HeaderIs(MsgType(m));
    BehindHeader(h, p + trailing);
  }

  lemma HelloRoundTrip(m: RemoteMsg, trailing: seq<u8>)
    requires m.Hello? && WellFormed(m)
    ensures ParseHello(Payload(m) + trailing) == Some(m) <==> m.ts.Some? || |trailing| < 8
  {
    var p, n := Payload(m) + trailing, |m.name|;
    assert p[..16] == m.uuid && p[16] == n && p[17..17 + n] == m.name;
    var tail := p[17 + n..];
    if m.ts.Some? {
      assert tail[0..8] == EncodeLE(8, m.ts.value);
      U64Reads(tail, 0, m.ts.value);
    } else {
      assert tail == trailing;
    }
  }

  lemma AnnounceRoundTrip(a: Announce, trailing: seq<u8>)
    requires WellFormed(Announced(a))
    ensures ParseAnnounce(Payload(Announced(a)) + trailing) == Some(Announced(a))
  {
    var p, n := Payload(Announced(a)) + trailing, |a.name|;
    assert p[0..2] == EncodeLE(2, a.handle);
    U16Reads(p, 0, a.handle);
    assert p[2] == KindToWire(a.kind) && p[3..9] == a.mac;
    assert p[9] == Flag(a.hasMag) && p[10] == Flag(a.hasBattery) && p[11] == Flag(a.hasRumble);
    assert p[12..14] == EncodeLE(2, a.rateHz);
    U16Reads(p, 12, a.rateHz);
    assert p[14] == n && p[15..15 + n] == a.name;
  }

  lemma BurstLayout(m: RemoteMsg, trailing: seq<u8>)
    requires m.Imu? && WellFormed(m)
    ensures var p, extra := Payload(m) + trailing, if m.seqNo.Some? then 2 else 0;
            var end := 3 + extra + |m.samples| * SAMPLE_LEN;
            |p| >= end && p[0..2] == EncodeLE(2, m.handle) && p[2 + extra] == |m.samples| &&
            p[3 + extra..end] == EncodeSamples(m.samples) &&
            (m.seqNo.Some? ==> p[2..4] == EncodeLE(2, m.seqNo.value))
  {
    BurstFields(EncodeLE(2, m.handle), if m.seqNo.Some? then EncodeLE(2, m.seqNo.value) else [],
                |m.samples|, EncodeSamples(m.samples), trailing);
  }

  lemma BurstFields(handle: seq<u8>, seqNo: seq<u8>, count: u8, body: seq<u8>, trailing: seq<u8>)
    requires |handle| == 2
    ensures var p, extra := handle + seqNo + [count] + body + trailing, |seqNo|;
            p[0..2] == handle && p[2..2 + extra] == seqNo && p[2 + extra] == count &&
            p[3 + extra..3 + extra + |body|] == body
  {
  }

  lemma BurstRoundTrip(m: RemoteMsg, trailing: seq<u8>)
    requires m.Imu? && WellFormed(m)
    ensures Parse(Encode(m) + trailing) == Some(m)
  {
    HeaderReads(m, trailing);
    BurstLayout(m, trailing);
    var p := Payload(m) + trailing;
    BurstReads(p, if m.seqNo.Some? then 2 else 0, m.handle, m.samples);
    if m.seqNo.Some? {
      U16Reads(p, 2, m.seqNo.value);
    }
    ParseBurst(Encode(m) + trailing, p, m);
  }

  lemma ParseBurst(buf: seq<u8>, p: seq<u8>, m: RemoteMsg)
    requires m.Imu? && |buf| >= HEADER_LEN && buf[..4] == MAGIC && buf[4] == VERSION && buf[HEADER_LEN..] == p
    requires buf[5] == MsgType(m)
    requires ImuBurst(p, if m.seqNo.Some? then 2 else 0) == Some((m.handle, m.samples))
    requires m.seqNo.Some? ==> |p| >= 5 && U16At(p, 2) == m.seqNo.value
    ensures Parse(buf) == Some(m)
  {
  }

  lemma RemoveRoundTrip(m: RemoteMsg, trailing: seq<u8>)
    requires m.Remove?
    ensures Parse(Encode(m) + trailing) == Some(m)
  {
    HeaderReads(m, trailing);
    var p := Payload(m) + trailing;
    assert p[0..2] == EncodeLE(2, m.handle);
    U16Reads(p, 0, m.handle);
  }

  lemma BatteryRoundTrip(m: RemoteMsg, trailing: seq<u8>)
    requires m.Battery?
    ensures Parse(Encode(m) + trailing) == Some(m)
  {
    HeaderReads(m, trailing);
    var p := Payload(m) + trailing;
    assert p[0..2] == EncodeLE(2, m.handle) && p[2..6] == EncodeLE(4, m.fraction) && p[6] == Flag(m.charging);
    U16Reads(p, 0, m.handle);
    U32Reads(p, 2, m.fraction);
  }

  lemma ButtonRoundTrip(m: RemoteMsg, trailing: seq<u8>)
    requires m.Button?
    ensures Parse(Encode(m) + trailing) == Some(m)
  {
    HeaderReads(m, trailing);
    var p := Payload(m) + trailing;
    assert p[0..2] == EncodeLE(2, m.handle) && p[2] == (if m.reset == Yaw then 0 else 1);
    U16Reads(p, 0, m.handle);
  }

  // Every well-formed message survives the wire with any bytes behind it, except that a
  // hello without a timestamp takes eight or more trailing bytes for one.
  lemma RoundTrip(m: RemoteMsg, trailing: seq<u8>)
    requires WellFormed(m)
    ensures Parse(Encode(m) + trailing) == Some(m) <==> (m.Hello? && m.ts.None? ==> |trailing| < 8)
  {
    match m
    case Hello(_, _, _) =>
      HeaderReads(m, trailing);
      HelloRoundTrip(m, trailing);
    case Announced(a) =>
      HeaderReads(m, trailing);
      AnnounceRoundTrip(a, trailing);
    case Imu(_, _, _) => BurstRoundTrip(m, trailing);
    case Remove(_) => RemoveRoundTrip(m, trailing);
    case Battery(_, _, _) => BatteryRoundTrip(m, trailing);
    case Button(_, _) => ButtonRoundTrip(m, trailing);
  }

  // Whatever parses is a well-formed message no longer than the datagram, so parsing is
  // onto the sender's messages and re-encoding is a fixed point.
  lemma ParsedIsWellFormed(buf: seq<u8>)
    requires Parse(buf).Some?
    ensures var m := Parse(buf).value;
            WellFormed(m) && |Encode(m)| <= |buf| && Parse(Encode(m)) == Some(m)
  {
    var m := Parse(buf).value;
    assert WellFormed(m);
    RoundTrip(m, []);
    assert Encode(m) + [] == Encode(m);
  }

  // Different messages never share a datagram.
  lemma EncodeInjective(m: RemoteMsg, n: RemoteMsg)
    requires WellFormed(m) && WellFormed(n) && Encode(m) == Encode(n)
    ensures m == n
  {
    RoundTrip(m, []);
    RoundTrip(n, []);
    assert Encode(m) + [] == Encode(n) + [];
  }

  // The longest message is a 255-sample sequenced burst, and the receive buffer holds it.
  lemma LongestMessage(m: RemoteMsg)
    requires WellFormed(m)
    ensures |Encode(m)| <= 11486 < RECV_BUFFER
    ensures |Encode(m)| == 11486 <==> m.Imu? && m.seqNo.Some? && |m.samples| == 255
  {
  }

  /* ---------- what the hub gets back ---------- */

  function HelloAckEcho(ts: Option<u64>): seq<u8> {
    Header(MSG_HELLO_ACK) + [VERSION] + (if ts.Some? then EncodeLE(8, ts.value) else [])
  }

  function RumblePacket(handle: u16, intensity: u32): (s: seq<u8>)
    ensures |s| == 12
  {
    Header(MSG_RUMBLE) + EncodeLE(2, handle) + EncodeLE(4, intensity)
  }

  const ONE: u32 := 0x3F80_0000
  const INFINITY: u32 := 0x7F80_0000
  const SIGN: u32 := 0x8000_0000

  // A single-precision word with all exponent bits and some mantissa bit set.
  predicate IsNaN(w: u32) {
    w % SIGN > INFINITY
  }

  // Where a word that is a number stands among the others; both zeros stand at 0.
  function Order(w: u32): int {
    if w < SIGN then w else SIGN - w
  }

  // The single-precision clamp to 0.0..1.0: it lets NaN and the negative zero through.
  function ClampWord(w: u32): u32 {
    if IsNaN(w) then w else if Order(w) < 0 then 0 else if Order(w) > ONE then ONE else w
  }

  // The echo distinguishes every timestamp, and the absence of one.
  lemma AckEchoesTimestamp(s: Option<u64>, t: Option<u64>)
    ensures HelloAckEcho(s) == HelloAckEcho(t) <==> s == t
  {
    var x, y := HelloAckEcho(s), HelloAckEcho(t);
    if s.Some? && t.Some? {
      assert x[7..] == EncodeLE(8, s.value) && y[7..] == EncodeLE(8, t.value);
      Pow256Values();
      DecodeEncode(8, s.value);
      DecodeEncode(8, t.value);
    }
  }

  lemma RumbleRoundTrip(handle: u16, intensity: u32)
    ensures var s := RumblePacket(handle, intensity);
            s[..6] == Header(MSG_RUMBLE) && U16At(s, 6) == handle && U32At(s, 8) == intensity
  {
    var s := RumblePacket(handle, intensity);
    assert s[6..8] == EncodeLE(2, handle) && s[8..12] == EncodeLE(4, intensity);
    U16Reads(s, 6, handle);
    U32Reads(s, 8, intensity);
  }

  // Nothing the server sends is taken for an inbound message.
  lemma OutboundIsNotInbound(ts: Option<u64>, handle: u16, intensity: u32)
    ensures Parse(HelloAckEcho(ts)).None? && Parse(RumblePacket(handle, intensity)).None?
  {
    assert HelloAckEcho(ts)[5] == MSG_HELLO_ACK;
    assert RumblePacket(handle, intensity)[5] == MSG_RUMBLE;
  }
}
