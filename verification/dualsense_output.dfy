/**
 Output reports of a DualSense or DualShock 4.  Bluetooth reports end in a CRC-32
 over the transport byte 0xA2 and the 74 bytes before it.
 */
module DualSenseOutput {
  import opened Bits
  import opened Wrappers
  import Crc32

  datatype ControllerKind = DualSense | DualSenseEdge | DualShock4

  datatype OutputState = OutputState(ledMask4: u8, ledMask5: u8, rumble: u8)

  const BT_SEED: u8 := 0xA2

  function PopCount4(mask: u8): nat {
    mask % 2 + mask / 2 % 2 + mask / 4 % 2 + mask / 8 % 2
  }

  function PlayerLeds(mask: u8): u8 {
    match PopCount4(mask)
    case 0 => 0
    case 1 => 4
    case 2 => 10
    case 3 => 21
    case _ => 31
  }

  function Lightbar(mask: u8): (u8, u8, u8) {
    match PopCount4(mask)
    case 0 => (0, 0, 0)
    case 1 => (0, 0, 0xFF)
    case 2 => (0, 0xFF, 0xFF)
    case 3 => (0xFF, 0, 0xFF)
    case _ => (0xFF, 0xFF, 0xFF)
  }

  // The DualSense payload that follows the report header, by offset.
  function Ds5Payload(state: OutputState, i: nat): u8 {
    match i
    case 0 => 0xFF
    case 1 => 0xF7
    case 2 => state.rumble
    case 3 => state.rumble
    case 43 => state.ledMask5 % 32
    case 44 => Lightbar(state.ledMask4).0
    case 45 => Lightbar(state.ledMask4).1
    case 46 => Lightbar(state.ledMask4).2
    case _ => 0
  }

  // The 74 bytes in front of the checksum, by offset.
  function Ds5Byte(state: OutputState, i: nat): u8 {
    if i == 0 then 0x31 else if i == 1 then 0x02 else Ds5Payload(state, i - 2)
  }

  function Ds4Byte(state: OutputState, i: nat): u8 {
    match i
    case 0 => 0x11
    case 1 => 0xC0
    case 2 => 0x20
    case 3 => 0x07
    case 6 => state.rumble
    case 7 => state.rumble
    case 8 => Lightbar(state.ledMask4).0
    case 9 => Lightbar(state.ledMask4).1
    case 10 => Lightbar(state.ledMask4).2
    case _ => 0
  }

  function Ds5Body(state: OutputState): (body: seq<u8>)
    ensures |body| == 74
  {
    seq(74, i requires 0 <= i => Ds5Byte(state, i))
  }

  function Ds4Body(state: OutputState): (body: seq<u8>)
    ensures |body| == 74
  {
    seq(74, i requires 0 <= i => Ds4Byte(state, i))
  }

  function Ds5Usb(state: OutputState): (report: seq<u8>)
    ensures |report| == 48
  {
    seq(48, i requires 0 <= i => if i == 0 then 0x02 else Ds5Payload(state, i - 1))
  }

  function Ds4UsbByte(state: OutputState, i: nat): u8 {
    match i
    case 0 => 0x05
    case 1 => 0x07
    case 4 => state.rumble
    case 5 => state.rumble
    case 6 => Lightbar(state.ledMask4).0
    case 7 => Lightbar(state.ledMask4).1
    case 8 => Lightbar(state.ledMask4).2
    case _ => 0
  }

  function Ds4Usb(state: OutputState): (report: seq<u8>)
    ensures |report| == 32
  {
    seq(32, i requires 0 <= i => Ds4UsbByte(state, i))
  }

  // The player lights by number of bits: none, the middle one, two, three and all five.
  lemma PlayerPatterns()
    ensures PlayerLeds(0) == 0 && PlayerLeds(1) == 0x04 && PlayerLeds(3) == 0x0A && PlayerLeds(7) == 0x15
    ensures PlayerLeds(15) == 0x1F
    ensures Lightbar(0) == (0, 0, 0) && Lightbar(1) == (0, 0, 255) && Lightbar(3) == (0, 255, 255)
    ensures Lightbar(7) == (255, 0, 255) && Lightbar(15) == (255, 255, 255)
  {
  }

  // A Bluetooth report in numbers: where the amplitude, the lights and the colour stand.
  lemma BluetoothFields(state: OutputState)
    ensures var five, four := Ds5Body(state), Ds4Body(state);
            five[..6] == [0x31, 0x02, 0xFF, 0xF7, state.rumble, state.rumble] && five[45] == state.ledMask5 % 32 &&
            (five[46], five[47], five[48]) == Lightbar(state.ledMask4) &&
            four[..8] == [0x11, 0xC0, 0x20, 0x07, 0, 0, state.rumble, state.rumble] &&
            (four[8], four[9], four[10]) == Lightbar(state.ledMask4)
  {
  }

  lemma UsbFields(state: OutputState)
    ensures var five, four := Ds5Usb(state), Ds4Usb(state);
            five[..5] == [0x02, 0xFF, 0xF7, state.rumble, state.rumble] && five[44] == state.ledMask5 % 32 &&
            (five[45], five[46], five[47]) == Lightbar(state.ledMask4) &&
            four[..6] == [0x05, 0x07, 0, 0, state.rumble, state.rumble] &&
            (four[6], four[7], four[8]) == Lightbar(state.ledMask4)
  {
  }

  // What a receiver checks: the register over the seed and the whole frame.
  predicate ValidFrame(frame: seq<u8>) {
    |frame| == 78 && Crc32.Feed(Crc32.Update(Crc32.INIT, BT_SEED), frame) == Crc32.RESIDUE
  }

  // The checksum is laid over the last four bytes, low byte first.
  method SealFrame(report: array<u8>)
    requires report.Length == 78
    modifies report
    ensures report[..74] == old(report[..74])
    ensures ValidFrame(report[..])
  {
    var crc := Crc32.WithSeed(BT_SEED, report[..74]);
    ghost var body := report[..74];
    report[74] := crc % 256;
    report[75] := crc / 0x100 % 256;
    report[76] := crc / 0x1_0000 % 256;
    report[77] := crc / 0x100_0000 % 256;
    ghost var trailer := report[74..];
    FourBytes(crc);
    assert trailer == EncodeLE(4, crc);
    assert report[..] == body + trailer;
    Crc32.ResidueIffChecksum(BT_SEED, body, trailer);
  }

  lemma FourBytes(w: u32)
    ensures EncodeLE(4, w) == [w % 256, w / 0x100 % 256, w / 0x1_0000 % 256, w / 0x100_0000 % 256]
  {
    assert EncodeLE(4, w) == [w % 256] + EncodeLE(3, w / 256);
    assert EncodeLE(3, w / 256) == [w / 256 % 256] + EncodeLE(2, w / 256 / 256);
    assert EncodeLE(2, w / 256 / 256) == [w / 256 / 256 % 256] + EncodeLE(1, w / 256 / 256 / 256);
    assert EncodeLE(1, w / 256 / 256 / 256) == [w / 256 / 256 / 256 % 256];
  }

  // Writes the payload's nonzero bytes and its byte 38 from a given offset on, and nothing else.
  method FillDs5Payload(report: array<u8>, base: nat, state: OutputState)
    requires base + 47 <= report.Length
    modifies report
    ensures forall i :: 0 <= i < report.Length ==>
              report[i] == if i >= base && i - base in {0, 1, 2, 3, 38, 43, 44, 45, 46} then Ds5Payload(state, i - base)
                           else old(report[i])
  {
    report[base], report[base + 1] := 0xFF, 0xF7;
    report[base + 2], report[base + 3] := state.rumble, state.rumble;
    report[base + 38] := 0;
    report[base + 43] := state.ledMask5 % 32;
    var (r, g, b) := Lightbar(state.ledMask4);
    report[base + 44], report[base + 45], report[base + 46] := r, g, b;
  }

  method BuildDs5UsbReport(state: OutputState) returns (frame: seq<u8>)
    ensures frame == Ds5Usb(state)
  {
    var report := new u8[48](i => 0);
    report[0] := 0x02;
    FillDs5Payload(report, 1, state);
    frame := report[..];
  }

  method BuildDs4UsbReport(state: OutputState) returns (frame: seq<u8>)
    ensures frame == Ds4Usb(state)
  {
    var report := new u8[32](i => 0);
    report[0], report[1] := 0x05, 0x07;
    report[4], report[5] := state.rumble, state.rumble;
    var (r, g, b) := Lightbar(state.ledMask4);
    report[6], report[7], report[8] := r, g, b;
    frame := report[..];
  }

  method BuildDs5BtReport(state: OutputState) returns (frame: seq<u8>)
    ensures |frame| == 78 && frame[..74] == Ds5Body(state)
    ensures ValidFrame(frame) && frame[74..] == EncodeLE(4, Crc32.Checksum(0xA2, frame[..74]))
  {
    var report := new u8[78](i => 0);
    report[0], report[1] := 0x31, 0x02;
    FillDs5Payload(report, 2, state);
    assert forall i :: 0 <= i < 74 ==> report[i] == Ds5Byte(state, i);
    assert report[..74] == Ds5Body(state);
    SealFrame(report);
    frame := report[..];
    assert frame[..74] == report[..74];
    ValidFrameIff(frame);
  }

  method BuildDs4BtReport(state: OutputState) returns (frame: seq<u8>)
    ensures |frame| == 78 && frame[..74] == Ds4Body(state)
    ensures ValidFrame(frame) && frame[74..] == EncodeLE(4, Crc32.Checksum(0xA2, frame[..74]))
  {
    var report := new u8[78](i => 0);
    report[0], report[1], report[2], report[3] := 0x11, 0xC0, 0x20, 0x07;
    report[6], report[7] := state.rumble, state.rumble;
    var (r, g, b) := Lightbar(state.ledMask4);
    report[8], report[9], report[10] := r, g, b;
    assert report[..74] == Ds4Body(state);
    SealFrame(report);
    frame := report[..];
    assert frame[..74] == report[..74];
    ValidFrameIff(frame);
  }

  // A 78-byte frame passes the receiver's check exactly when its last four bytes
  // are the checksum of the first 74.
  lemma ValidFrameIff(frame: seq<u8>)
    requires |frame| == 78
    ensures ValidFrame(frame) <==> frame[74..] == EncodeLE(4, Crc32.Checksum(BT_SEED, frame[..74]))
  {
    assert frame == frame[..74] + frame[74..];
    Crc32.ResidueIffChecksum(BT_SEED, frame[..74], frame[74..]);
  }

  // Damage confined to any four consecutive bytes, checksum included, never passes.
  lemma DamagedFrameRejected(frame: seq<u8>, damaged: seq<u8>, at: nat)
    requires ValidFrame(frame) && |damaged| == 78 && damaged != frame
    requires forall j :: 0 <= j < 78 && !(at <= j < at + 4) ==> damaged[j] == frame[j]
    ensures !ValidFrame(damaged)
  {
    Crc32.FourByteWindowDetected(BT_SEED, frame, damaged, at);
  }

  /* ---------- the rumble amplitude ---------- */

  // An intensity is a number or not one; numbers are clamped to 0..1.
  function Clamp01(intensity: Option<real>): (x: real)
    ensures 0.0 <= x <= 1.0
  {
    match intensity
    case None => 0.0
    case Some(x) => if x < 0.0 then 0.0 else if x > 1.0 then 1.0 else x
  }

  function Amplitude(intensity: Option<real>): u8 {
    (Clamp01(intensity) * 255.0 + 0.5).Floor
  }

  // The motor byte is the nearest to 255 times the clamped intensity, and grows with it.
  lemma AmplitudeIsNearest(x: Option<real>, y: Option<real>)
    ensures -0.5 <= Amplitude(x) as real - Clamp01(x) * 255.0 <= 0.5
    ensures Clamp01(x) <= Clamp01(y) ==> Amplitude(x) <= Amplitude(y)
  {
    var a, b := Clamp01(x) * 255.0 + 0.5, Clamp01(y) * 255.0 + 0.5;
    assert a.Floor as real <= a < a.Floor as real + 1.0;
    assert Clamp01(x) <= Clamp01(y) ==> a <= b;
  }

  /* ---------- a started controller ---------- */

  function Body(kind: ControllerKind, state: OutputState): (body: seq<u8>)
    ensures |body| == 74
  {
    if kind.DualShock4? then Ds4Body(state) else Ds5Body(state)
  }

  function UsbReport(kind: ControllerKind, state: OutputState): seq<u8> {
    if kind.DualShock4? then Ds4Usb(state) else Ds5Usb(state)
  }

  // What an output command comes to: an error, a write put off until the transport is known, or a report.
  datatype Written = NotStarted | Deferred | Wrote(report: seq<u8>)

  /** The part of a controller that output commands update. */
  class OutputChannel {
    const kind: ControllerKind
    var state: OutputState
    var started: bool

    constructor (kind: ControllerKind)
      ensures this.kind == kind && state == OutputState(0, 0, 0) && !started
    {
      this.kind := kind;
      state := OutputState(0, 0, 0);
      started := false;
    }

    method Start()
      modifies this`started
      ensures started
    {
      started := true;
    }

    method Stop()
      modifies this`started
      ensures !started
    {
      started := false;
    }

    // The transport is recognised by the length of the last input report.
    predicate Sends(w: Written, lastReportLen: nat)
      reads this
    {
      if !started then w == NotStarted
      else if lastReportLen == 0 then w == Deferred
      else if lastReportLen < 78 then w == Wrote(UsbReport(kind, state))
      else w.Wrote? && ValidFrame(w.report) && w.report[..74] == Body(kind, state)
    }

    method BuildOutputReport(bt: bool) returns (report: seq<u8>)
      ensures if bt then ValidFrame(report) && report[..74] == Body(kind, state) else report == UsbReport(kind, state)
    {
      match kind {
        case DualSense | DualSenseEdge =>
          if bt {
            report := BuildDs5BtReport(state);
          } else {
            report := BuildDs5UsbReport(state);
          }
        case DualShock4 =>
          if bt {
            report := BuildDs4BtReport(state);
          } else {
            report := BuildDs4UsbReport(state);
          }
      }
    }

    method WriteOutput(lastReportLen: nat) returns (w: Written)
      ensures Sends(w, lastReportLen)
    {
      if !started {
        return NotStarted;
      }
      if lastReportLen == 0 {
        return Deferred;
      }
      var report := BuildOutputReport(lastReportLen >= 78);
      return Wrote(report);
    }

    // The masks are kept even when nothing can be sent yet.
    method SetLedMask(mask: u8, lastReportLen: nat) returns (w: Written)
      modifies this`state
      ensures state == OutputState(mask % 16, PlayerLeds(mask), old(state.rumble))
      ensures Sends(w, lastReportLen)
    {
      state := state.(ledMask4 := mask % 16, ledMask5 := PlayerLeds(mask));
      w := WriteOutput(lastReportLen);
    }

    method SetRumble(intensity: Option<real>, lastReportLen: nat) returns (w: Written)
      modifies this`state
      ensures state == old(state).(rumble := Amplitude(intensity))
      ensures Sends(w, lastReportLen)
    {
      state := state.(rumble := Amplitude(intensity));
      w := WriteOutput(lastReportLen);
    }
  }
}
