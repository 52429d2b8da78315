/**
 Resynchronisation of the HOPX parser: what bytes of any kind in front of a stream can cost
 it.  A false record may reach over the first bytes of the stream, and what matters is
 where it lets the parser go on.
 */
module HopxResync {
  import opened Bits
  import opened HopxReframer

  predicate EndsWith<T(==)>(all: seq<T>, sent: seq<T>) {
    |sent| <= |all| && all[|all| - |sent|..] == sent
  }

  lemma EndsWithCons<T>(x: T, all: seq<T>, sent: seq<T>)
    ensures EndsWith(all, sent) ==> EndsWith([x] + all, sent)
    ensures EndsWith([x] + all, sent) ==> EndsWith(all, sent) || sent == [x] + all
  {
    if |sent| <= |all| {
      assert ([x] + all)[1 + |all| - |sent|..] == all[|all| - |sent|..];
    }
  }

  function RecordsOf(s: seq<u8>): seq<Chunk> {
    Records(Drain(s).segments)
  }

  lemma DroppedFirst(s: seq<u8>)
    requires s != [] && (s[0] != FRAME_MARKER || (|s| > RECORD_LEN && !Boundary(s[RECORD_LEN])))
    ensures RecordsOf(s) == RecordsOf(s[1..])
  {
    AfterFacts(Drain(s[1..]), Dropped(s[0]));
  }

  lemma EmittedFirst(s: seq<u8>)
    requires |s| >= RECORD_LEN && s[0] == FRAME_MARKER && (|s| > RECORD_LEN ==> Boundary(s[RECORD_LEN]))
    ensures RecordsOf(s) == [s[..RECORD_LEN]] + RecordsOf(s[RECORD_LEN..])
  {
    AfterFacts(Drain(s[RECORD_LEN..]), Emitted(s[..RECORD_LEN]));
  }

  /* ---------- exactly when noise costs nothing ---------- */

  // A false record can reach over the first k bytes of s, and no further.
  predicate Lands(s: seq<u8>, k: nat) {
    0 < k < RECORD_LEN && k <= |s| && (k == |s| || Boundary(s[k]))
  }

  // Going on from there all records of s come out.  A false record that takes a single byte
  // of noise is known, a marker and the first 13 bytes of s, and may itself be one of them.
  predicate Harmless(s: seq<u8>, k: nat)
    requires Lands(s, k)
  {
    EndsWith(if k == RECORD_LEN - 1 then [[FRAME_MARKER] + s[..k]] + RecordsOf(s[k..]) else RecordsOf(s[k..]),
             RecordsOf(s))
  }

  predicate LandingsHarmless(s: seq<u8>) {
    forall k :: 0 < k < RECORD_LEN && Lands(s, k) ==> Harmless(s, k)
  }

  predicate Survives(g: seq<u8>, s: seq<u8>) {
    EndsWith(RecordsOf(g + s), RecordsOf(s))
  }

  lemma FalseRecord(g: seq<u8>, s: seq<u8>)
    requires 0 < |g| < RECORD_LEN && g[0] == FRAME_MARKER && Lands(s, RECORD_LEN - |g|)
    ensures RecordsOf(g + s) == [g + s[..RECORD_LEN - |g|]] + RecordsOf(s[RECORD_LEN - |g|..])
  {
    var all, k := g + s, RECORD_LEN - |g|;
    assert |all| > RECORD_LEN ==> all[RECORD_LEN] == s[k];
    EmittedFirst(all);
    assert all[..RECORD_LEN] == g + s[..k] && all[RECORD_LEN..] == s[k..];
  }

  // Noise that ends inside a false record.
  lemma ReachSurvives(g: seq<u8>, s: seq<u8>)
    requires 0 < |g| < RECORD_LEN && g[0] == FRAME_MARKER && Lands(s, RECORD_LEN - |g|)
    requires Harmless(s, RECORD_LEN - |g|)
    ensures Survives(g, s)
  {
    var k := RECORD_LEN - |g|;
    FalseRecord(g, s);
    if |g| == 1 {
      assert g == [FRAME_MARKER];
    } else {
      EndsWithCons(g + s[..k], RecordsOf(s[k..]), RecordsOf(s));
    }
  }

  lemma {:induction false} NoiseSurvived(g: seq<u8>, s: seq<u8>)
    requires LandingsHarmless(s)
    ensures Survives(g, s)
    decreases |g|
  {
    var all := g + s;
    if g == [] {
      assert all == s;
    } else if g[0] != FRAME_MARKER || (|all| > RECORD_LEN && !Boundary(all[RECORD_LEN])) {
      assert all[1..] == g[1..] + s;
      DroppedFirst(all);
      NoiseSurvived(g[1..], s);
    } else if |all| < RECORD_LEN {
      ShortEmitsNothing(s);
    } else if |g| < RECORD_LEN {
      var k := RECORD_LEN - |g|;
      assert |all| > RECORD_LEN ==> all[RECORD_LEN] == s[k];
      assert Lands(s, k) && Harmless(s, k);
      ReachSurvives(g, s);
    } else {
      assert all[RECORD_LEN..] == g[RECORD_LEN..] + s;
      EmittedFirst(all);
      NoiseSurvived(g[RECORD_LEN..], s);
      EndsWithCons(all[..RECORD_LEN], RecordsOf(all[RECORD_LEN..]), RecordsOf(s));
    }
  }

  // A marker and a second byte that no record of s starts with, then zeros.
  function Probe(s: seq<u8>, n: nat): (g: seq<u8>)
    requires n > 0
    ensures |g| == n && g[0] == FRAME_MARKER
    ensures n > 1 && RecordsOf(s) != [] ==> g[1] != RecordsOf(s)[0][1]
  {
    var b: u8 := if RecordsOf(s) != [] && RecordsOf(s)[0][1] == 0 then 1 else 0;
    [FRAME_MARKER] + seq(n - 1, _ => b)
  }

  lemma OneMoreRecord(first: Chunk, rest: seq<Chunk>, sent: seq<Chunk>)
    requires !EndsWith(rest, sent) && (sent != [] ==> sent[0][1] != first[1])
    ensures !EndsWith([first] + rest, sent)
  {
    EndsWithCons(first, rest, sent);
  }

  lemma HarmBehindMarker(s: seq<u8>)
    requires Lands(s, RECORD_LEN - 1) && !Harmless(s, RECORD_LEN - 1)
    ensures !Survives([FRAME_MARKER], s)
  {
    FalseRecord([FRAME_MARKER], s);
  }

  lemma HarmBehindProbe(g: seq<u8>, s: seq<u8>)
    requires 1 < |g| < RECORD_LEN && g[0] == FRAME_MARKER && Lands(s, RECORD_LEN - |g|)
    requires !Harmless(s, RECORD_LEN - |g|) && (RecordsOf(s) != [] ==> g[1] != RecordsOf(s)[0][1])
    ensures !Survives(g, s)
  {
    var k := RECORD_LEN - |g|;
    var first: Chunk := g + s[..k];
    assert first[1] == g[1];
    FalseRecord(g, s);
    OneMoreRecord(first, RecordsOf(s[k..]), RecordsOf(s));
  }

  lemma HarmShows(s: seq<u8>, k: nat)
    requires Lands(s, k) && !Harmless(s, k)
    ensures !Survives(Probe(s, RECORD_LEN - k), s)
  {
    var g := Probe(s, RECORD_LEN - k);
    if |g| == 1 {
      assert g == [FRAME_MARKER];
      HarmBehindMarker(s);
    } else {
      HarmBehindProbe(g, s);
    }
  }

  // For every byte string: no noise in front costs it a record if and only if each of the
  // places, at most 13, where a false record can let the parser go on is harmless.
  lemma NoiseHarmlessIff(s: seq<u8>)
    ensures (forall g :: Survives(g, s)) <==> LandingsHarmless(s)
  {
    if LandingsHarmless(s) {
      forall g
        ensures Survives(g, s)
      {
        NoiseSurvived(g, s);
      }
    } else {
      var k :| Lands(s, k) && !Harmless(s, k);
      HarmShows(s, k);
    }
  }

  /* ---------- streams whose records hide no boundary byte ---------- */

  // No byte of a record after its marker looks like a boundary.
  predicate Guarded(item: Item) {
    item.Record? ==> forall j :: 0 < j < RECORD_LEN ==> !Boundary(item.chunk[j])
  }

  predicate AllGuarded(items: seq<Item>) {
    forall i :: i in items ==> Sendable(i) && Guarded(i)
  }

  lemma GuardedRecordHoldsNoLanding(items: seq<Item>, k: nat)
    requires items != [] && items[0].Record? && Guarded(items[0])
    ensures !Lands(Stream(items), k)
  {
    if 0 < k < RECORD_LEN {
      assert Stream(items)[k] == items[0].chunk[k];
    }
  }

  // From a boundary at or behind the first byte, inside a block or between items, no record is missing.
  lemma {:induction false} LandingDecodes(items: seq<Item>, k: nat)
    requires AllGuarded(items) && Lands(Stream(items), k)
    ensures RecordsOf(Stream(items)[k..]) == SentRecords(items)
  {
    if items == [] {
    } else {
      var s, rest, n := Stream(items), Stream(items[1..]), |items[0].Bytes()|;
      assert Sendable(items[0]) && Guarded(items[0]);
      assert s[n..] == rest && s[..n] == items[0].Bytes();
      if items[0].Record? {
        GuardedRecordHoldsNoLanding(items, k);
      } else if k < n {
        RestOfBlock(items[0].block, rest, k);
        assert s[k..] == items[0].block[k..] + rest;
        StreamDecodes(items[1..]);
      } else {
        assert s[k..] == rest[k - n..];
        if k == n {
          StreamDecodes(items[1..]);
        } else {
          LandingDecodes(items[1..], k - n);
        }
      }
    }
  }

  lemma RestOfBlock(block: seq<u8>, rest: seq<u8>, k: nat)
    requires k < |block| && FRAME_MARKER !in block
    ensures RecordsOf(block[k..] + rest) == RecordsOf(rest)
  {
    var s := block[k..] + rest;
    forall j | 0 <= j < |block| - k
      ensures s[j] != FRAME_MARKER
    {
      assert s[j] == block[k + j];
    }
    SkipGarbage(s, |block| - k);
    assert s[|block| - k..] == rest;
  }

  // Any bytes in front of such a stream: every record sent still comes out, in order, last.
  lemma NoiseCostsNoRecord(g: seq<u8>, items: seq<Item>)
    requires AllGuarded(items)
    ensures EndsWith(RecordsOf(g + Stream(items)), SentRecords(items))
  {
    var s := Stream(items);
    StreamDecodes(items);
    forall k: nat | Lands(s, k)
      ensures Harmless(s, k)
    {
      LandingDecodes(items, k);
      if k == RECORD_LEN - 1 {
        EndsWithCons([FRAME_MARKER] + s[..k], RecordsOf(s[k..]), RecordsOf(s));
      }
    }
    NoiseSurvived(g, s);
  }

  // A record that ends in the marker is lost behind a single marker byte.
  lemma UnguardedRecordLost()
    ensures var record: Chunk := [FRAME_MARKER] + seq(12, _ => 0) + [FRAME_MARKER];
            Sendable(Record(record)) && RecordsOf(record) == [record] && !Survives([FRAME_MARKER], record)
  {
    var record: Chunk := [FRAME_MARKER] + seq(12, _ => 0) + [FRAME_MARKER];
    EmittedFirst(record);
    assert record[..RECORD_LEN] == record && record[RECORD_LEN..] == [];
    FalseRecord([FRAME_MARKER], record);
    ShortEmitsNothing(record[RECORD_LEN - 1..]);
    var taken := [FRAME_MARKER] + record[..RECORD_LEN - 1];
    assert taken[1] == FRAME_MARKER && record[1] == 0;
    assert RecordsOf([FRAME_MARKER] + record) == [taken];
  }

  /* ---------- over feeds ---------- */

  lemma {:induction false} RunSplits(buf: seq<u8>, x: seq<seq<u8>>, y: seq<seq<u8>>)
    ensures Run(buf, x + y) == Run(buf, x).Then(Run(Run(buf, x).residue, y))
    decreases |x|
  {
    if x == [] {
      assert x + y == y;
      assert [] + Run(buf, y).segments == Run(buf, y).segments;
    } else {
      var first := Drain(buf + x[0]);
      assert (x + y)[1..] == x[1..] + y && (x + y)[0] == x[0];
      RunSplits(first.residue, x[1..], y);
      ThenAssociates(first, Run(first.residue, x[1..]), Run(Run(buf, x).residue, y));
    }
  }

  lemma {:induction false} RunSettles(buf: seq<u8>, feeds: seq<seq<u8>>)
    requires Drain(buf) == Drained([], buf)
    ensures var residue := Run(buf, feeds).residue; Drain(residue) == Drained([], residue)
    decreases |feeds|
  {
    if feeds == [] {
    } else {
      DrainShape(buf + feeds[0]);
      RunSettles(Drain(buf + feeds[0]).residue, feeds[1..]);
    }
  }

  lemma RunFromBuffer(before: seq<seq<u8>>, feeds: seq<seq<u8>>)
    requires CleanCuts(Run([], before).residue, feeds)
    ensures var buf := Run([], before).residue; Run(buf, feeds) == Drain(buf + Concat(feeds))
  {
    var buf := Run([], before).residue;
    var late := Run(buf, feeds);
    RunSettles([], before);
    RunIsOnePass(buf, feeds);
    assert [] + late.segments == late.segments;
  }

  // Whatever was fed before and however it was cut, and whatever noise still comes: once the
  // stream is there and its cuts are clean, no record of it is missing.
  lemma NoiseCostsNoRecordOverFeeds(before: seq<seq<u8>>, g: seq<u8>, items: seq<Item>, feeds: seq<seq<u8>>)
    requires AllGuarded(items) && Concat(feeds) == g + Stream(items)
    requires CleanCuts(Run([], before).residue, feeds)
    ensures EndsWith(Records(Run([], before + feeds).segments), SentRecords(items))
  {
    var early := Run([], before);
    var buf := early.residue;
    var late := Run(buf, feeds);
    RunSplits([], before, feeds);
    RecordsConcat(early.segments, late.segments);
    RunFromBuffer(before, feeds);
    SeqAssociates(buf, g, Stream(items));
    NoiseCostsNoRecord(buf + g, items);
    EndsWithConcat(Records(early.segments), Records(late.segments), SentRecords(items));
  }

  lemma EndsWithConcat<T>(x: seq<T>, all: seq<T>, sent: seq<T>)
    requires EndsWith(all, sent)
    ensures EndsWith(x + all, sent)
  {
    assert (x + all)[|x| + |all| - |sent|..] == all[|all| - |sent|..];
  }

  /* ---------- notifications of whole items ---------- */

  function Notifications(batches: seq<seq<Item>>): (feeds: seq<seq<u8>>)
    ensures |feeds| == |batches|
  {
    if batches == [] then [] else [Stream(batches[0])] + Notifications(batches[1..])
  }

  function Joined(batches: seq<seq<Item>>): seq<Item> {
    if batches == [] then [] else batches[0] + Joined(batches[1..])
  }

  lemma {:induction false} StreamConcat(x: seq<Item>, y: seq<Item>)
    ensures Stream(x + y) == Stream(x) + Stream(y)
  {
    if x == [] {
      assert x + y == y;
    } else {
      assert (x + y)[1..] == x[1..] + y;
      StreamConcat(x[1..], y);
      SeqAssociates(x[0].Bytes(), Stream(x[1..]), Stream(y));
    }
  }

  lemma {:induction false} WholeItemsAreClean(a: seq<u8>, batches: seq<seq<Item>>)
    requires AllGuarded(Joined(batches))
    ensures CleanCuts(a, Notifications(batches)) && Concat(Notifications(batches)) == Stream(Joined(batches))
    decreases |batches|
  {
    if batches == [] {
    } else {
      var first, rest := batches[0], Joined(batches[1..]);
      assert forall i :: i in first || i in rest ==> i in Joined(batches);
      StreamStarts(first);
      StreamConcat(first, rest);
      assert Notifications(batches)[1..] == Notifications(batches[1..]);
      WholeItemsAreClean(a + Stream(first), batches[1..]);
    }
  }

  // After feeds of any bytes at all, notifications that carry whole items lose nothing, from
  // the very first one on.
  lemma WholeItemsResyncAtOnce(before: seq<seq<u8>>, batches: seq<seq<Item>>)
    requires AllGuarded(Joined(batches))
    ensures EndsWith(Records(Run([], before + Notifications(batches)).segments), SentRecords(Joined(batches)))
  {
    WholeItemsAreClean(Run([], before).residue, batches);
    assert [] + Stream(Joined(batches)) == Stream(Joined(batches));
    NoiseCostsNoRecordOverFeeds(before, [], Joined(batches), Notifications(batches));
  }
}
