/**
 The HOPX tracker sends 14-byte IMU records over BLE notifications that may split a
 record anywhere.  The parser buffers bytes, resynchronises on the record marker and
 uses one byte of lookahead to tell a marker from payload.
 */
module HopxReframer {
  import opened Bits

  const FRAME_MARKER: u8 := 0x22
  const ALT_MARKER: u8 := 0x25
  const RECORD_LEN := 14

  predicate Boundary(b: u8) {
    b == FRAME_MARKER || b == ALT_MARKER
  }

  /* ---------- one pass over the buffer ---------- */

  type Chunk = s: seq<u8> | |s| == RECORD_LEN witness seq(RECORD_LEN, i => 0)

  // What became of each stretch of consumed input.
  datatype Segment = Emitted(chunk: Chunk) | Dropped(b: u8)

  datatype Drained = Drained(segments: seq<Segment>, residue: seq<u8>) {
    function After(s: Segment): Drained {
      Drained([s] + segments, residue)
    }

    function Then(next: Drained): Drained {
      Drained(segments + next.segments, next.residue)
    }
  }

  function Drain(s: seq<u8>): Drained
    decreases |s|
  {
    if s == [] then Drained([], [])
    else if s[0] != FRAME_MARKER then Drain(s[1..]).After(Dropped(s[0]))
    else if |s| < RECORD_LEN then Drained([], s)
    else if |s| > RECORD_LEN && !Boundary(s[RECORD_LEN]) then Drain(s[1..]).After(Dropped(s[0]))
    else Drain(s[RECORD_LEN..]).After(Emitted(s[..RECORD_LEN]))
  }

  function Records(segments: seq<Segment>): seq<Chunk> {
    if segments == [] then []
    else if segments[0].Emitted? then [segments[0].chunk] + Records(segments[1..])
    else Records(segments[1..])
  }

  function Bytes(segments: seq<Segment>): seq<u8> {
    if segments == [] then []
    else (if segments[0].Emitted? then segments[0].chunk else [segments[0].b]) + Bytes(segments[1..])
  }

  lemma {:induction false} RecordsConcat(x: seq<Segment>, y: seq<Segment>)
    ensures Records(x + y) == Records(x) + Records(y)
  {
    if x == [] {
      assert x + y == y;
    } else {
      assert (x + y)[1..] == x[1..] + y;
      RecordsConcat(x[1..], y);
    }
  }

  lemma {:induction false} BytesConcat(x: seq<Segment>, y: seq<Segment>)
    ensures Bytes(x + y) == Bytes(x) + Bytes(y)
  {
    if x == [] {
      assert x + y == y;
    } else {
      assert (x + y)[1..] == x[1..] + y;
      BytesConcat(x[1..], y);
    }
  }

  lemma AfterFacts(d: Drained, s: Segment)
    ensures var e := d.After(s);
            Bytes(e.segments) == (if s.Emitted? then s.chunk else [s.b]) + Bytes(d.segments) &&
            Records(e.segments) == (if s.Emitted? then [s.chunk] else []) + Records(d.segments) &&
            e.residue == d.residue
  {
    assert ([s] + d.segments)[1..] == d.segments;
  }

  // What comes before, conserved, in front of a drained rest.
  lemma ConservedAfter(d: Drained, g: Segment, before: seq<u8>, rest: seq<u8>)
    requires Bytes(d.segments) + d.residue == rest
    requires before == if g.Emitted? then g.chunk else [g.b]
    ensures Bytes(d.After(g).segments) + d.After(g).residue == before + rest
  {
    AfterFacts(d, g);
    assert (before + Bytes(d.segments)) + d.residue == before + (Bytes(d.segments) + d.residue);
  }

  // No byte is lost or duplicated, in order: input = emitted and dropped stretches, then residue.
  lemma {:induction false} DrainConserves(s: seq<u8>)
    ensures Bytes(Drain(s).segments) + Drain(s).residue == s
    decreases |s|
  {
    if s == [] {
    } else {
      if s[0] != FRAME_MARKER || (|s| > RECORD_LEN && !Boundary(s[RECORD_LEN])) {
        DrainConserves(s[1..]);
        ConservedAfter(Drain(s[1..]), Dropped(s[0]), [s[0]], s[1..]);
        assert s == [s[0]] + s[1..];
      } else if |s| >= RECORD_LEN {
        var record, rest := s[..RECORD_LEN], s[RECORD_LEN..];
        DrainConserves(rest);
        ConservedAfter(Drain(rest), Emitted(record), record, rest);
        assert s == record + rest;
      }
    }
  }

  predicate WellFramed(segments: seq<Segment>) {
    forall g :: g in segments && g.Emitted? ==> g.chunk[0] == 0x22
  }

  // Emitted chunks are whole marker-led records; what stays buffered is a marker-led
  // fragment or nothing, and draining it again changes nothing.
  lemma {:induction false} DrainShape(s: seq<u8>)
    ensures var d := Drain(s);
            WellFramed(d.segments) && |d.residue| < RECORD_LEN &&
            (d.residue == [] || d.residue[0] == FRAME_MARKER) && Drain(d.residue) == Drained([], d.residue)
    decreases |s|
  {
    if s == [] {
    } else {
      if s[0] != FRAME_MARKER || (|s| > RECORD_LEN && !Boundary(s[RECORD_LEN])) {
        DrainShape(s[1..]);
      } else if |s| >= RECORD_LEN {
        DrainShape(s[RECORD_LEN..]);
      }
    }
  }

  // Every decision looks right in hindsight: an emitted record is followed by a boundary
  // byte or by nothing yet, and a dropped byte was no marker or was refused by byte 15.
  predicate Justified(segments: seq<Segment>, residue: seq<u8>) {
    segments == [] ||
    (var rest := Bytes(segments[1..]) + residue;
     (match segments[0]
      case Emitted(_) => rest == [] || rest[0] in {0x22, 0x25}
      case Dropped(b) => b != 0x22 || (|rest| >= 14 && rest[13] !in {0x22, 0x25})) &&
     Justified(segments[1..], residue))
  }

  lemma JustifiedAfter(d: Drained, g: Segment, rest: seq<u8>)
    requires Justified(d.segments, d.residue) && Bytes(d.segments) + d.residue == rest
    requires match g
             case Emitted(_) => rest == [] || Boundary(rest[0])
             case Dropped(b) => b != FRAME_MARKER || (|rest| >= RECORD_LEN && !Boundary(rest[RECORD_LEN - 1]))
    ensures Justified(d.After(g).segments, d.residue)
  {
    assert ([g] + d.segments)[1..] == d.segments;
  }

  lemma {:induction false} DrainJustified(s: seq<u8>)
    ensures Justified(Drain(s).segments, Drain(s).residue)
    decreases |s|
  {
    if s == [] {
    } else {
      if s[0] != FRAME_MARKER || (|s| > RECORD_LEN && !Boundary(s[RECORD_LEN])) {
        DrainJustified(s[1..]);
        DrainConserves(s[1..]);
        JustifiedAfter(Drain(s[1..]), Dropped(s[0]), s[1..]);
      } else if |s| >= RECORD_LEN {
        DrainJustified(s[RECORD_LEN..]);
        DrainConserves(s[RECORD_LEN..]);
        JustifiedAfter(Drain(s[RECORD_LEN..]), Emitted(s[..RECORD_LEN]), s[RECORD_LEN..]);
      }
    }
  }

  function DropCount(segments: seq<Segment>): nat {
    if segments == [] then 0
    else (if segments[0].Dropped? then 1 else 0) + DropCount(segments[1..])
  }

  lemma {:induction false} ByteCount(segments: seq<Segment>)
    requires WellFramed(segments)
    ensures |Bytes(segments)| == RECORD_LEN * |Records(segments)| + DropCount(segments)
  {
    if segments == [] {
    } else {
      assert forall g :: g in segments[1..] ==> g in segments;
      ByteCount(segments[1..]);
    }
  }

  /* ---------- the parser ---------- */

  function FirstMarker(s: seq<u8>): (i: nat)
    ensures i <= |s|
    ensures forall j :: 0 <= j < i ==> s[j] != FRAME_MARKER
    ensures i < |s| ==> s[i] == FRAME_MARKER
  {
    if s == [] || s[0] == FRAME_MARKER then 0 else 1 + FirstMarker(s[1..])
  }

  lemma {:induction false} SkipGarbage(s: seq<u8>, n: nat)
    requires n <= |s| && forall j :: 0 <= j < n ==> s[j] != FRAME_MARKER
    ensures Records(Drain(s).segments) == Records(Drain(s[n..]).segments)
    ensures Drain(s).residue == Drain(s[n..]).residue
    ensures EmitsBare(s) == EmitsBare(s[n..])
    decreases n
  {
    if n != 0 {
      SkipGarbage(s[1..], n - 1);
      assert s[1..][n - 1..] == s[n..];
      AfterFacts(Drain(s[1..]), Dropped(s[0]));
    } else {
      assert s[0..] == s;
    }
  }

  class RecordParser {
    var buf: seq<u8>

    constructor ()
      ensures buf == []
    {
      buf := [];
    }

    method DrainChunks(data: seq<u8>) returns (chunks: seq<Chunk>)
      modifies this
      ensures buf == Drain(old(buf) + data).residue
      ensures chunks == Records(Drain(old(buf) + data).segments)
    {
      buf := buf + data;
      chunks := [];
      ghost var all := buf;
      while true
        invariant Drain(buf).residue == Drain(all).residue
        invariant chunks + Records(Drain(buf).segments) == Records(Drain(all).segments)
        decreases |buf|
      {
        var idx := FirstMarker(buf);
        SkipGarbage(buf, idx);
        if idx == |buf| {
          buf := [];
          break;
        }
        buf := buf[idx..];
        if |buf| < RECORD_LEN {
          break;
        }
        if |buf| > RECORD_LEN {
          var next := buf[RECORD_LEN];
          if next != FRAME_MARKER && next != ALT_MARKER {
            AfterFacts(Drain(buf[1..]), Dropped(buf[0]));
            buf := buf[1..];
            continue;
          }
        }
        AfterFacts(Drain(buf[RECORD_LEN..]), Emitted(buf[..RECORD_LEN]));
        chunks := chunks + [buf[..RECORD_LEN]];
        buf := buf[RECORD_LEN..];
      }
    }

    method FeedRaw(data: seq<u8>) returns (records: seq<RawRecord>)
      modifies this
      ensures buf == Drain(old(buf) + data).residue
      ensures records == Decoded(Records(Drain(old(buf) + data).segments))
    {
      var chunks := DrainChunks(data);
      records := [];
      for i := 0 to |chunks|
        invariant records == Decoded(chunks[..i])
      {
        assert chunks[..i + 1][..i] == chunks[..i];
        records := records + [ParseRaw(chunks[i])];
      }
      assert chunks[..|chunks|] == chunks;
    }
  }

  /* ---------- when a feed may be split ---------- */

  // The pass ended by emitting a record with nothing buffered behind it, so the
  // lookahead byte was never seen.
  predicate EmitsBare(s: seq<u8>)
    decreases |s|
  {
    if s == [] then false
    else if s[0] != FRAME_MARKER then EmitsBare(s[1..])
    else if |s| < RECORD_LEN then false
    else if |s| > RECORD_LEN && !Boundary(s[RECORD_LEN]) then EmitsBare(s[1..])
    else |s| == RECORD_LEN || EmitsBare(s[RECORD_LEN..])
  }

  predicate CleanCut(a: seq<u8>, b: seq<u8>) {
    EmitsBare(a) ==> b == [] || Boundary(b[0])
  }

  // A cut is invisible unless a record was emitted blind and the next byte would have refused it.
  lemma {:induction false} SplitInvariance(a: seq<u8>, b: seq<u8>)
    requires CleanCut(a, b)
    ensures Drain(a + b) == Drain(a).Then(Drain(Drain(a).residue + b))
    decreases |a|
  {
    var whole, second := a + b, Drain(Drain(a).residue + b);
    if a == [] {
      assert whole == b && [] + b == b;
    } else if a[0] != FRAME_MARKER || (|a| > RECORD_LEN && !Boundary(a[RECORD_LEN])) {
      assert whole[1..] == a[1..] + b;
      SplitInvariance(a[1..], b);
      AfterThen(Drain(a[1..]), Dropped(a[0]), second);
    } else if |a| >= RECORD_LEN {
      assert whole[..RECORD_LEN] == a[..RECORD_LEN];
      assert whole[RECORD_LEN..] == a[RECORD_LEN..] + b;
      SplitInvariance(a[RECORD_LEN..], b);
      AfterThen(Drain(a[RECORD_LEN..]), Emitted(a[..RECORD_LEN]), second);
    } else {
      assert [] + second.segments == second.segments;
    }
  }

  lemma AfterThen(d: Drained, s: Segment, next: Drained)
    ensures d.After(s).Then(next) == d.Then(next).After(s)
  {
    assert ([s] + d.segments) + next.segments == [s] + (d.segments + next.segments);
  }

  lemma ConsCancel<T>(c: T, x: seq<T>, y: seq<T>, z: seq<T>)
    requires x + y != z
    ensures ([c] + x) + y != [c] + z
  {
    assert (([c] + x) + y)[1..] == x + y;
    assert ([c] + z)[1..] == z;
  }

  // Feeding a then b gives what feeding them together would.
  predicate SplitAgrees(a: seq<u8>, b: seq<u8>) {
    var first, whole := Drain(a), Drain(a + b);
    var second := Drain(first.residue + b);
    Records(first.segments) + Records(second.segments) == Records(whole.segments) &&
    second.residue == whole.residue
  }

  lemma {:induction false} ShortEmitsNothing(s: seq<u8>)
    requires |s| < RECORD_LEN
    ensures Records(Drain(s).segments) == []
    decreases |s|
  {
    if s == [] || s[0] == FRAME_MARKER {
    } else {
      ShortEmitsNothing(s[1..]);
      AfterFacts(Drain(s[1..]), Dropped(s[0]));
    }
  }

  // After a blind emission a zero byte tells the two runs apart.
  lemma {:induction false} BareSplitVisible(a: seq<u8>)
    requires EmitsBare(a)
    ensures Records(Drain(a).segments) + Records(Drain(Drain(a).residue + [0]).segments)
            != Records(Drain(a + [0]).segments)
    decreases |a|
  {
    var whole := a + [0];
    if a[0] != FRAME_MARKER || (|a| > RECORD_LEN && !Boundary(a[RECORD_LEN])) {
      assert whole[1..] == a[1..] + [0];
      BareSplitVisible(a[1..]);
      AfterFacts(Drain(a[1..]), Dropped(a[0]));
      AfterFacts(Drain(whole[1..]), Dropped(a[0]));
    } else if |a| > RECORD_LEN {
      assert whole[RECORD_LEN..] == a[RECORD_LEN..] + [0];
      assert whole[..RECORD_LEN] == a[..RECORD_LEN];
      BareSplitVisible(a[RECORD_LEN..]);
      AfterFacts(Drain(a[RECORD_LEN..]), Emitted(a[..RECORD_LEN]));
      AfterFacts(Drain(whole[RECORD_LEN..]), Emitted(a[..RECORD_LEN]));
      ConsCancel(a[..RECORD_LEN], Records(Drain(a[RECORD_LEN..]).segments),
                 Records(Drain(Drain(a).residue + [0]).segments), Records(Drain(whole[RECORD_LEN..]).segments));
    } else {
      BareRecordRefused(a);
      ShortEmitsNothing([0]);
      assert a[..RECORD_LEN] == a && a[RECORD_LEN..] == [];
      AfterFacts(Drain([]), Emitted(a));
    }
  }

  lemma BareRecordRefused(a: seq<u8>)
    requires |a| == RECORD_LEN && a[0] == FRAME_MARKER
    ensures Records(Drain(a + [0]).segments) != [a]
  {
    var whole := a + [0];
    var t := whole[1..];
    AfterFacts(Drain(t), Dropped(whole[0]));
    if t[0] == FRAME_MARKER {
      assert t[..RECORD_LEN] == t && t[RECORD_LEN..] == [];
      AfterFacts(Drain([]), Emitted(t));
      assert Records(Drain(whole).segments) == [t];
      if t == a {
        ConstantIfShifted(a, 0);
      }
    } else {
      ShortEmitsNothing(t[1..]);
      AfterFacts(Drain(t[1..]), Dropped(t[0]));
    }
  }

  lemma {:induction false} ConstantIfShifted(a: seq<u8>, n: nat)
    requires n < |a| && (a + [0])[1..] == a
    ensures a[n] == 0
    decreases |a| - n
  {
    assert a[n] == (a + [0])[n + 1];
    if n + 1 == |a| {
    } else {
      ConstantIfShifted(a, n + 1);
    }
  }

  // Feeding a first is harmless for every continuation exactly when it emitted nothing blind.
  lemma SplitHarmlessIff(a: seq<u8>)
    ensures (forall b :: SplitAgrees(a, b)) <==> !EmitsBare(a)
  {
    if EmitsBare(a) {
      BareSplitVisible(a);
      assert !SplitAgrees(a, [0]);
    } else {
      forall b ensures SplitAgrees(a, b) {
        SplitInvariance(a, b);
        RecordsConcat(Drain(a).segments, Drain(Drain(a).residue + b).segments);
      }
    }
  }

  /* ---------- whole runs of feeds ---------- */

  function Run(buf: seq<u8>, feeds: seq<seq<u8>>): Drained
    decreases |feeds|
  {
    if feeds == [] then Drained([], buf)
    else
      var first := Drain(buf + feeds[0]);
      first.Then(Run(first.residue, feeds[1..]))
  }

  function Concat(feeds: seq<seq<u8>>): seq<u8> {
    if feeds == [] then [] else feeds[0] + Concat(feeds[1..])
  }

  lemma FlattenThen(first: Drained, next: Drained)
    ensures Bytes(first.Then(next).segments) + next.residue
         == Bytes(first.segments) + (Bytes(next.segments) + next.residue)
  {
    BytesConcat(first.segments, next.segments);
    SeqAssociates(Bytes(first.segments), Bytes(next.segments), next.residue);
  }

  lemma {:induction false} RunIsExact(buf: seq<u8>, feeds: seq<seq<u8>>)
    ensures WellFramed(Run(buf, feeds).segments)
    ensures Bytes(Run(buf, feeds).segments) + Run(buf, feeds).residue == buf + Concat(feeds)
    decreases |feeds|
  {
    if feeds == [] {
      assert buf + Concat(feeds) == buf;
    } else {
      var first := Drain(buf + feeds[0]);
      var rest := Run(first.residue, feeds[1..]);
      DrainConserves(buf + feeds[0]);
      DrainShape(buf + feeds[0]);
      RunIsExact(first.residue, feeds[1..]);
      FlattenThen(first, rest);
      SeqAssociates(Bytes(first.segments), first.residue, Concat(feeds[1..]));
      SeqAssociates(buf, feeds[0], Concat(feeds[1..]));
    }
  }

  lemma SeqAssociates<T>(x: seq<T>, y: seq<T>, z: seq<T>)
    ensures (x + y) + z == x + (y + z)
  {
  }

  // Over any run on any bytes: 14 * emitted + dropped + buffered = bytes fed.
  lemma RunConserves(feeds: seq<seq<u8>>)
    ensures var d := Run([], feeds);
            RECORD_LEN * |Records(d.segments)| + DropCount(d.segments) + |d.residue| == |Concat(feeds)|
  {
    RunIsExact([], feeds);
    ByteCount(Run([], feeds).segments);
  }

  predicate CleanCuts(a: seq<u8>, feeds: seq<seq<u8>>)
    decreases |feeds|
  {
    feeds == [] || (CleanCut(a, feeds[0]) && CleanCuts(a + feeds[0], feeds[1..]))
  }

  lemma ThenAssociates(x: Drained, y: Drained, z: Drained)
    ensures x.Then(y).Then(z) == x.Then(y.Then(z))
  {
    assert (x.segments + y.segments) + z.segments == x.segments + (y.segments + z.segments);
  }

  // A run over clean cuts is one pass over the concatenation.
  lemma {:induction false} RunIsOnePass(a: seq<u8>, feeds: seq<seq<u8>>)
    requires CleanCuts(a, feeds)
    ensures Drain(a + Concat(feeds)) == Drain(a).Then(Run(Drain(a).residue, feeds))
    decreases |feeds|
  {
    if feeds == [] {
      assert a + Concat(feeds) == a;
    } else {
      var residue := Drain(a).residue;
      var first := Drain(residue + feeds[0]);
      var rest := Run(first.residue, feeds[1..]);
      SplitInvariance(a, feeds[0]);
      assert Drain(a + feeds[0]) == Drain(a).Then(first);
      RunIsOnePass(a + feeds[0], feeds[1..]);
      ThenAssociates(Drain(a), first, rest);
      assert Run(residue, feeds) == first.Then(rest);
      SeqAssociates(a, feeds[0], Concat(feeds[1..]));
    }
  }

  /* ---------- streams a tracker sends ---------- */

  // A record, or a block with the second marker and no record marker inside.
  datatype Item = Record(chunk: Chunk) | Alternate(block: seq<u8>) {
    function Bytes(): seq<u8> {
      if Record? then chunk else block
    }
  }

  predicate Sendable(item: Item) {
    match item
    case Record(chunk) => chunk[0] == 0x22
    case Alternate(block) => block != [] && block[0] == 0x25 && 0x22 !in block
  }

  function Stream(items: seq<Item>): seq<u8> {
    if items == [] then [] else items[0].Bytes() + Stream(items[1..])
  }

  function SentRecords(items: seq<Item>): seq<Chunk> {
    if items == [] then []
    else if items[0].Record? then [items[0].chunk] + SentRecords(items[1..])
    else SentRecords(items[1..])
  }

  lemma StreamStarts(items: seq<Item>)
    requires forall i :: i in items ==> Sendable(i)
    ensures Stream(items) == [] || Boundary(Stream(items)[0])
  {
    if items != [] {
      assert Sendable(items[0]);
    }
  }

  lemma {:induction false} StreamDecodes(items: seq<Item>)
    requires forall i :: i in items ==> Sendable(i)
    ensures Records(Drain(Stream(items)).segments) == SentRecords(items)
    ensures Drain(Stream(items)).residue == []
  {
    if items == [] {
    } else {
      var s, rest := Stream(items), Stream(items[1..]);
      StreamDecodes(items[1..]);
      StreamStarts(items[1..]);
      assert Sendable(items[0]);
      var n := |items[0].Bytes()|;
      assert s[..n] == items[0].Bytes() && s[n..] == rest;
      if items[0].Record? {
        AfterFacts(Drain(rest), Emitted(s[..n]));
      } else {
        forall j | 0 <= j < n ensures s[j] != FRAME_MARKER {
          assert s[j] == items[0].Bytes()[j];
        }
        SkipGarbage(s, n);
      }
    }
  }

  // In a sent stream a blind emission can only fall on an item boundary.
  lemma {:induction false} StreamCutsAreClean(items: seq<Item>, a: seq<u8>, b: seq<u8>)
    requires forall i :: i in items ==> Sendable(i)
    requires a + b == Stream(items)
    ensures CleanCut(a, b)
  {
    if items == [] || a == [] {
    } else {
      var s, rest := Stream(items), Stream(items[1..]);
      assert Sendable(items[0]);
      var n := |items[0].Bytes()|;
      assert s[n..] == rest && s[..n] == items[0].Bytes();
      StreamStarts(items[1..]);
      if |a| <= n {
        assert a == items[0].Bytes()[..|a|];
        if items[0].Alternate? {
          SkipGarbage(a, |a|);
        } else if |a| == n {
          assert b == rest;
        }
      } else {
        assert a[n..] + b == rest;
        StreamCutsAreClean(items[1..], a[n..], b);
        if items[0].Alternate? {
          forall j | 0 <= j < n ensures a[j] != FRAME_MARKER {
            assert a[j] == items[0].Bytes()[j];
          }
          SkipGarbage(a, n);
        } else {
          assert a[n] == s[n] == rest[0];
        }
      }
    }
  }

  lemma {:induction false} StreamFeedsAreClean(items: seq<Item>, a: seq<u8>, feeds: seq<seq<u8>>, tail: seq<u8>)
    requires forall i :: i in items ==> Sendable(i)
    requires a + Concat(feeds) + tail == Stream(items)
    ensures CleanCuts(a, feeds)
    decreases |feeds|
  {
    if feeds == [] {
    } else {
      var b := feeds[0] + Concat(feeds[1..]) + tail;
      assert a + b == Stream(items);
      StreamCutsAreClean(items, a, b);
      assert feeds[0] != [] ==> b[0] == feeds[0][0];
      assert (a + feeds[0]) + Concat(feeds[1..]) + tail == Stream(items);
      StreamFeedsAreClean(items, a + feeds[0], feeds[1..], tail);
    }
  }

  // However the notifications cut a sent stream, exactly its records come out, in order.
  lemma AnyCutDecodes(items: seq<Item>, feeds: seq<seq<u8>>)
    requires forall i :: i in items ==> Sendable(i)
    requires Concat(feeds) == Stream(items)
    ensures Records(Run([], feeds).segments) == SentRecords(items)
    ensures Run([], feeds).residue == []
  {
    assert [] + Concat(feeds) + [] == Stream(items);
    StreamFeedsAreClean(items, [], feeds, []);
    RunIsOnePass([], feeds);
    assert [] + Concat(feeds) == Concat(feeds);
    assert Drain([]).segments + Run([], feeds).segments == Run([], feeds).segments;
    StreamDecodes(items);
  }

  /* ---------- the int16 channels ---------- */

  datatype RawRecord = RawRecord(seqNo: u8, channels: seq<i16>)

  function ParseRaw(chunk: Chunk): RawRecord {
    RawRecord(chunk[1], [ReadI16(chunk, 2), ReadI16(chunk, 4), ReadI16(chunk, 6),
                         ReadI16(chunk, 8), ReadI16(chunk, 10), ReadI16(chunk, 12)])
  }

  // The channels in numbers: signed words, low byte first, from the third byte on.
  lemma RawIs(chunk: Chunk, k: nat)
    requires k < 6
    ensures var r, w := ParseRaw(chunk), Word16(chunk[2 + 2 * k], chunk[3 + 2 * k]);
            r.seqNo == chunk[1] && |r.channels| == 6 && r.channels[k] == if w < 0x8000 then w else w - 0x1_0000
  {
  }

  function EncodeRaw(r: RawRecord): (s: Chunk)
    requires |r.channels| == 6
    ensures s[0] == FRAME_MARKER
  {
    [FRAME_MARKER, r.seqNo] + WriteI16(r.channels[0]) + WriteI16(r.channels[1]) + WriteI16(r.channels[2])
    + WriteI16(r.channels[3]) + WriteI16(r.channels[4]) + WriteI16(r.channels[5])
  }

  function Decoded(chunks: seq<Chunk>): seq<RawRecord> {
    if chunks == [] then []
    else Decoded(chunks[..|chunks| - 1]) + [ParseRaw(chunks[|chunks| - 1])]
  }

  lemma RawRoundTrip(r: RawRecord)
    requires |r.channels| == 6
    ensures ParseRaw(EncodeRaw(r)) == r
  {
    var s := EncodeRaw(r);
    forall k | 0 <= k < 6 ensures ReadI16(s, 2 + 2 * k) == r.channels[k] {
      assert s[2 + 2 * k] == WriteI16(r.channels[k])[0];
      assert s[3 + 2 * k] == WriteI16(r.channels[k])[1];
      I16RoundTrip(s, 2 + 2 * k, r.channels[k]);
    }
    assert ParseRaw(s).channels == r.channels by {
      assert ReadI16(s, 2 + 2 * 0) == r.channels[0] && ReadI16(s, 2 + 2 * 1) == r.channels[1];
      assert ReadI16(s, 2 + 2 * 2) == r.channels[2] && ReadI16(s, 2 + 2 * 3) == r.channels[3];
      assert ReadI16(s, 2 + 2 * 4) == r.channels[4] && ReadI16(s, 2 + 2 * 5) == r.channels[5];
    }
  }

  function EncodeAll(records: seq<RawRecord>): seq<Item>
    requires forall r :: r in records ==> |r.channels| == 6
  {
    if records == [] then []
    else EncodeAll(records[..|records| - 1]) + [Record(EncodeRaw(records[|records| - 1]))]
  }

  lemma {:induction false} SentConcat(x: seq<Item>, y: seq<Item>)
    ensures SentRecords(x + y) == SentRecords(x) + SentRecords(y)
  {
    if x == [] {
      assert x + y == y;
    } else {
      assert (x + y)[1..] == x[1..] + y;
      SentConcat(x[1..], y);
    }
  }

  lemma {:induction false} EncodedDecodes(records: seq<RawRecord>)
    requires forall r :: r in records ==> |r.channels| == 6
    ensures forall i :: i in EncodeAll(records) ==> Sendable(i)
    ensures Decoded(SentRecords(EncodeAll(records))) == records
  {
    if records == [] {
    } else {
      var n := |records| - 1;
      var last := EncodeRaw(records[n]);
      EncodedDecodes(records[..n]);
      SentConcat(EncodeAll(records[..n]), [Record(last)]);
      var sent := SentRecords(EncodeAll(records[..n]));
      assert SentRecords([Record(last)]) == [last];
      assert (sent + [last])[..|sent|] == sent;
      RawRoundTrip(records[n]);
      assert records[..n] + [records[n]] == records;
    }
  }

  // Sensor values survive the radio: any cut of the encoded records decodes to them.
  lemma ValuesSurviveAnyCut(records: seq<RawRecord>, feeds: seq<seq<u8>>)
    requires forall r :: r in records ==> |r.channels| == 6
    requires Concat(feeds) == Stream(EncodeAll(records))
    ensures Decoded(Records(Run([], feeds).segments)) == records
  {
    EncodedDecodes(records);
    AnyCutDecodes(EncodeAll(records), feeds);
  }
}
