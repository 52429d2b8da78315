/**
 Per-route packet loss from the wrapping sequence number of MSG_IMU2.
 Times are microseconds on the receiver's monotonic clock.
 */
module PacketLoss {
  import opened Bits
  import opened Wrappers

  const WINDOW := 10_000_000
  const GAP_LIMIT := 1000

  datatype Loss = Loss(lastSeq: Option<u16>, received: nat, lost: nat, windowStart: Option<nat>)

  const FRESH := Loss(None, 0, 0, None)

  // Elapsed time saturates at zero when the clock reads earlier than the start.
  function Elapsed(since: nat, now: nat): nat {
    if now >= since then now - since else 0
  }

  function Gap(prev: u16, next: u16): nat {
    (next - prev) % 0x1_0000
  }

  function MissedBefore(last: Option<u16>, seqNo: u16): nat {
    match last
    case None => 0
    case Some(prev) => if 1 < Gap(prev, seqNo) < GAP_LIMIT then Gap(prev, seqNo) - 1 else 0
  }

  predicate ClosesWindow(l: Loss, now: nat) {
    l.windowStart.Some? && Elapsed(l.windowStart.value, now) >= WINDOW
  }

  function Recorded(l: Loss, seqNo: u16, now: nat): Loss {
    if ClosesWindow(l, now) then Loss(Some(seqNo), 0, 0, Some(now))
    else Loss(Some(seqNo), l.received + 1, l.lost + MissedBefore(l.lastSeq, seqNo),
              if l.windowStart.Some? then l.windowStart else Some(now))
  }

  class LossStats {
    var lastSeq: Option<u16>
    var received: nat
    var lost: nat
    var windowStart: Option<nat>
    ghost const owner: nat

    // The ghost owner tells the statistics of different routes apart.
    constructor (ghost owner: nat)
      ensures View() == FRESH && this.owner == owner
    {
      lastSeq, received, lost, windowStart := None, 0, 0, None;
      this.owner := owner;
    }

    function View(): Loss
      reads this
    {
      Loss(lastSeq, received, lost, windowStart)
    }

    method Record(seqNo: u16, now: nat)
      modifies this
      ensures View() == Recorded(old(View()), seqNo, now)
    {
      if lastSeq.Some? {
        var gap := (seqNo - lastSeq.value) % 0x1_0000;
        if gap > 1 && gap < GAP_LIMIT {
          lost := lost + (gap - 1);
        }
      }
      lastSeq := Some(seqNo);
      received := received + 1;
      if windowStart.None? {
        windowStart := Some(now);
      }
      if Elapsed(windowStart.value, now) >= WINDOW {
        received := 0;
        lost := 0;
        windowStart := Some(now);
      }
    }
  }

  /* ---------- conservation against the sender's true counter ---------- */

  // A packet as sent: the unwrapped counter, and when it arrived.
  datatype Packet = Packet(counter: nat, now: nat)

  function Run(packets: seq<Packet>): Loss {
    if packets == [] then FRESH
    else
      var last := packets[|packets| - 1];
      Recorded(Run(packets[..|packets| - 1]), last.counter % 0x1_0000, last.now)
  }

  // The packet whose arrival last reset the window, if any did.
  function LastReset(packets: seq<Packet>): (r: Option<nat>)
    ensures r.Some? ==> r.value < |packets|
  {
    if packets == [] then None
    else
      var n := |packets| - 1;
      if ClosesWindow(Run(packets[..n]), packets[n].now) then Some(n) else LastReset(packets[..n])
  }

  predicate AdvancesBySmallSteps(packets: seq<Packet>) {
    forall i :: 0 < i < |packets| ==> 1 <= packets[i].counter - packets[i - 1].counter < GAP_LIMIT
  }

  // What one received packet adds to received + lost is the counter's advance exactly
  // when that advance is between 1 and 999.
  lemma StepAccountsIff(prev: nat, next: nat)
    ensures 1 + MissedBefore(Some(prev % 0x1_0000), next % 0x1_0000) == next - prev <==>
            1 <= next - prev < GAP_LIMIT
  {
    var d := next - prev;
    WrappedDifference(prev, next, 0x1_0000);
    assert Gap(prev % 0x1_0000, next % 0x1_0000) == d % 0x1_0000;
  }

  // What received + lost counts from: the packet of the last reset, else the first and one more.
  function Distance(packets: seq<Packet>): int
    requires packets != []
  {
    var latest := packets[|packets| - 1].counter;
    match LastReset(packets)
    case None => latest - packets[0].counter + 1
    case Some(i) => latest - packets[i].counter
  }

  predicate Accounted(packets: seq<Packet>)
    requires packets != []
  {
    var l := Run(packets);
    && l.lastSeq == Some(packets[|packets| - 1].counter % 0x1_0000) && l.windowStart.Some?
    && l.received + l.lost == Distance(packets)
  }

  lemma StepConserves(before: seq<Packet>, p: Packet)
    requires before != [] && Accounted(before) && 1 <= p.counter - before[|before| - 1].counter < GAP_LIMIT
    ensures Accounted(before + [p])
  {
    var all, l := before + [p], Run(before);
    assert all[..|before|] == before;
    StepAccountsIff(before[|before| - 1].counter, p.counter);
    assert LastReset(all) == if ClosesWindow(l, p.now) then Some(|before|) else LastReset(before);
  }

  // received + lost is the true counter distance since the last reset; before the first
  // reset it also counts the first packet itself.  Wraps and resets do not disturb it.
  lemma {:induction false} Conservation(packets: seq<Packet>)
    requires packets != [] && AdvancesBySmallSteps(packets)
    ensures Accounted(packets)
  {
    var n := |packets| - 1;
    var before := packets[..n];
    assert packets == before + [packets[n]];
    if n == 0 {
      assert before == [];
    } else {
      assert AdvancesBySmallSteps(before);
      Conservation(before);
      StepConserves(before, packets[n]);
    }
  }

  /* ---------- any arrivals at all ---------- */

  // The packet that opened the current window: the first, and from then on the first to
  // arrive at least ten seconds after the one before.
  function Opener(packets: seq<Packet>): (o: nat)
    requires packets != []
    ensures o < |packets|
  {
    var n := |packets| - 1;
    if n == 0 then 0
    else
      var o := Opener(packets[..n]);
      if packets[n].now - packets[o].now >= 10_000_000 then n else o
  }

  // What a packet reveals as missing: an advance of 2 to 999 stands for that many less one,
  // and a duplicate, an overtaken packet or a restart for none.
  function MissedAt(packets: seq<Packet>, i: nat): nat
    requires 0 < i < |packets|
  {
    var advance := (packets[i].counter - packets[i - 1].counter) % 65_536;
    if 2 <= advance <= 999 then advance - 1 else 0
  }

  function MissedSince(packets: seq<Packet>, o: nat): nat {
    if |packets| <= o + 1 then 0
    else MissedSince(packets[..|packets| - 1], o) + MissedAt(packets, |packets| - 1)
  }

  // The statistics in terms of the window's opener: a resetting packet is not counted itself.
  predicate WindowIs(l: Loss, packets: seq<Packet>)
    requires packets != []
  {
    var o := Opener(packets);
    && l.lastSeq == Some(packets[|packets| - 1].counter % 65_536) && l.windowStart == Some(packets[o].now)
    && l.received == (if o == 0 then |packets| else |packets| - 1 - o)
    && l.lost == MissedSince(packets, o)
  }

  lemma AdvanceSeen(prev: nat, next: nat)
    ensures Gap(prev % 65_536, next % 65_536) == (next - prev) % 65_536
  {
    WrappedDifference(prev, next, 0x1_0000);
  }

  lemma NextWindow(before: seq<Packet>, p: Packet)
    requires before != [] && WindowIs(Run(before), before)
    ensures WindowIs(Run(before + [p]), before + [p])
  {
    var all, n := before + [p], |before|;
    assert all[..n] == before;
    AdvanceSeen(all[n - 1].counter, p.counter);
  }

  // For any arrivals, in order or not, over wraps, restarts and resets.
  lemma {:induction false} LossSinceOpener(packets: seq<Packet>)
    requires packets != []
    ensures WindowIs(Run(packets), packets)
  {
    var n := |packets| - 1;
    var before := packets[..n];
    assert packets == before + [packets[n]];
    if n == 0 {
      assert before == [];
    } else {
      LossSinceOpener(before);
      NextWindow(before, packets[n]);
    }
  }

  // The current window's opener is the last packet ten seconds or more after its own window's
  // opener: no packet since came that late, and unless it is the first it came that late itself.
  lemma {:induction false} OpenerIsLast(packets: seq<Packet>)
    requires packets != []
    ensures var o := Opener(packets);
            && (forall i :: o < i < |packets| ==> packets[i].now < packets[o].now + 10_000_000)
            && (o > 0 ==> packets[o].now >= packets[Opener(packets[..o])].now + 10_000_000)
  {
    var n := |packets| - 1;
    if n == 0 {
    } else {
      OpenerIsLast(packets[..n]);
      var o := Opener(packets[..n]);
      assert packets[..n][..o] == packets[..o];
    }
  }
}
