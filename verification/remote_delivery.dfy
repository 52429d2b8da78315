/**
 What a device's reader gets of the events sent to its hub, stated against the log of
 inputs: when its queue is open, what it takes, and exactly when nothing is lost.
 */
module RemoteDelivery {
  import opened Bits
  import opened Wrappers
  import opened RemoteProtocol
  import opened RemoteRouting
  import opened RemoteRuns

  /* ---------- one step ---------- */

  predicate TakesOne(h: Hub, input: Input, d: nat)
    requires d < |h.devs|
  {
    input == Consume(d) && h.devs[d].open && h.devs[d].taken < |h.devs[d].sent|
  }

  // Only the reader's own steps move what it has taken, and only its end closes its queue.
  lemma StepReader(h: Hub, input: Input, d: nat)
    requires Linked(h) && d < |h.devs|
    ensures var g := Step(h, input);
            d < |g.devs| && g.devs[d].open == (h.devs[d].open && input != CloseReceiver(d)) &&
            g.devs[d].taken == h.devs[d].taken + if TakesOne(h, input, d) then 1 else 0
  {
    if input.Datagram? && input.msg.Some? {
      HandleMsgDelivers(h, input, d);
    }
  }

  // A full open queue accepts again as soon as its reader has taken an event.
  lemma ConsumeMakesRoom(h: Hub, d: nat)
    requires Linked(h) && d < |h.devs| && h.devs[d].open && |h.devs[d].sent| == h.devs[d].taken + 256
    ensures QueueFull(h.devs[d]) && !QueueFull(Step(h, Consume(d)).devs[d])
  {
    StepReader(h, Consume(d), d);
  }

  /* ---------- when the queue is open ---------- */

  predicate NeverClosed(inputs: seq<Input>, n: nat, d: nat) {
    forall m: nat :: n <= m < |inputs| ==> inputs[m] != CloseReceiver(d)
  }

  lemma NeverClosedSnoc(front: seq<Input>, input: Input, n: nat, d: nat)
    requires n <= |front|
    ensures NeverClosed(front + [input], n, d) <==> NeverClosed(front, n, d) && input != CloseReceiver(d)
  {
    var all := front + [input];
    assert all[|front|] == input && forall m: nat :: m < |front| ==> all[m] == front[m];
  }

  // A device's queue is open if and only if its reader has not gone since its registration.
  lemma {:induction false} OpenIff(inputs: seq<Input>, d: nat)
    requires d < |Run(inputs).devs|
    ensures Run(inputs).devs[d].open <==> NeverClosed(inputs, Born(inputs, d), d)
  {
    if inputs == [] {
    } else {
      var front, last := inputs[..|inputs| - 1], inputs[|inputs| - 1];
      assert inputs == front + [last];
      BornSnoc(front, last, d);
      if d < |Run(front).devs| {
        OpenIff(front, d);
        RunLinked(front);
        StepReader(Run(front), last, d);
        NeverClosedSnoc(front, last, Born(front, d), d);
      } else {
        NewDevice(Run(front), last);
      }
    }
  }

  /* ---------- what the reader has received ---------- */

  function SentTo(inputs: seq<Input>, d: nat): seq<Event> {
    if d < |Run(inputs).devs| then Run(inputs).devs[d].sent else []
  }

  // Each time it asks while its queue is open and something is waiting, the oldest event it has not had.
  function Received(inputs: seq<Input>, n: nat, d: nat): seq<Event> {
    if |inputs| <= n then []
    else
      var front := inputs[..|inputs| - 1];
      var had, sent := Received(front, n, d), SentTo(front, d);
      if inputs[|inputs| - 1] == Consume(d) && NeverClosed(front, n, d) && |had| < |sent| then had + [sent[|had|]]
      else had
  }

  predicate ReaderIs(dev: Dev, received: seq<Event>) {
    dev.taken == |received| <= |dev.sent| && received == dev.sent[..dev.taken]
  }

  lemma ReceivedNext(dev: Dev, next: Dev, had: seq<Event>, more: seq<Event>, takes: bool)
    requires ReaderIs(dev, had) && next.sent == dev.sent + more && (takes ==> |had| < |dev.sent|)
    requires next.taken == dev.taken + if takes then 1 else 0
    ensures ReaderIs(next, if takes then had + [dev.sent[|had|]] else had)
  {
  }

  lemma ReceivedSnoc(front: seq<Input>, input: Input, n: nat, d: nat)
    requires n <= |front|
    ensures var had, sent := Received(front, n, d), SentTo(front, d);
            Received(front + [input], n, d)
            == if input == Consume(d) && NeverClosed(front, n, d) && |had| < |sent| then had + [sent[|had|]] else had
  {
    assert (front + [input])[..|front|] == front;
  }

  lemma StepReceives(front: seq<Input>, input: Input, d: nat)
    requires d < |Run(front).devs| && ReaderIs(Run(front).devs[d], Received(front, Born(front, d), d))
    ensures var all := front + [input];
            d < |Run(all).devs| && ReaderIs(Run(all).devs[d], Received(all, Born(front, d), d))
  {
    var h, n := Run(front), Born(front, d);
    RemoteRuns.RunSnoc(front, input);
    RunLinked(front);
    StepReader(h, input, d);
    StepDelivers(h, input, d);
    OpenIff(front, d);
    ReceivedSnoc(front, input, n, d);
    var more := if Accepts(h, d) then OfferedTo(input, h.devs[d].key) else [];
    ReceivedNext(h.devs[d], Step(h, input).devs[d], Received(front, n, d), more, TakesOne(h, input, d));
  }

  // The reader has received, in order, as many of the events sent as it has taken.
  lemma {:induction false} ReceivedIs(inputs: seq<Input>, d: nat)
    requires d < |Run(inputs).devs|
    ensures ReaderIs(Run(inputs).devs[d], Received(inputs, Born(inputs, d), d))
  {
    if inputs == [] {
    } else {
      var front, last := inputs[..|inputs| - 1], inputs[|inputs| - 1];
      assert inputs == front + [last];
      BornSnoc(front, last, d);
      if d < |Run(front).devs| {
        ReceivedIs(front, d);
        StepReceives(front, last, d);
      } else {
        NewDevice(Run(front), last);
      }
    }
  }

  /* ---------- delivery without loss ---------- */

  // The key's route is live and leads to the device.
  predicate LiveFor(inputs: seq<Input>, d: nat, k: Key) {
    k in Run(inputs).routes && Run(inputs).routes[k].dev == d
  }

  lemma LiveBefore(front: seq<Input>, input: Input, d: nat, k: Key)
    requires LiveFor(front + [input], d, k) && d < |Run(front).devs|
    ensures LiveFor(front, d, k) && Run(front).devs[d].key == k
  {
    RemoteRuns.RunSnoc(front, input);
    RunLinked(front);
    StepRoute(Run(front), input, k);
  }

  // How often the reader would have found an event, had every event been sent on.
  function Reads(inputs: seq<Input>, n: nat, d: nat, k: Key): nat {
    if |inputs| <= n then 0
    else
      var front := inputs[..|inputs| - 1];
      var had := Reads(front, n, d, k);
      if inputs[|inputs| - 1] == Consume(d) && had < |EventsSince(front, n, k)| then had + 1 else had
  }

  // No event since the n-th input was offered while 256 of them were waiting.
  predicate RoomAt(inputs: seq<Input>, n: nat, d: nat, k: Key, m: nat)
    requires m < |inputs|
  {
    OfferedTo(inputs[m], k) != [] ==> |EventsSince(inputs[..m], n, k)| < Reads(inputs[..m], n, d, k) + 256
  }

  predicate NeverFull(inputs: seq<Input>, n: nat, d: nat, k: Key) {
    forall m: nat :: n <= m < |inputs| ==> RoomAt(inputs, n, d, k, m)
  }

  lemma NeverFullSnoc(front: seq<Input>, input: Input, n: nat, d: nat, k: Key)
    requires n <= |front|
    ensures NeverFull(front + [input], n, d, k) <==>
            NeverFull(front, n, d, k) && RoomAt(front + [input], n, d, k, |front|)
  {
    var all := front + [input];
    forall m: nat | m < |front|
      ensures RoomAt(all, n, d, k, m) <==> RoomAt(front, n, d, k, m)
    {
      assert all[..m] == front[..m];
    }
  }

  // Nothing was lost, and then the reader has taken what it would have.
  predicate Complete(inputs: seq<Input>, d: nat, k: Key)
    requires d < |Run(inputs).devs|
  {
    var dev, born := Run(inputs).devs[d], Born(inputs, d);
    dev.sent == EventsSince(inputs, born, k) && dev.taken == Reads(inputs, born, d, k)
  }

  lemma EventsSnoc(front: seq<Input>, input: Input, n: nat, k: Key)
    requires n <= |front|
    ensures EventsSince(front + [input], n, k) == EventsSince(front, n, k) + OfferedTo(input, k)
  {
    assert (front + [input])[..|front|] == front;
  }

  lemma ReadsSnoc(front: seq<Input>, input: Input, n: nat, d: nat, k: Key)
    requires n <= |front|
    ensures var had := Reads(front, n, d, k);
            Reads(front + [input], n, d, k)
            == if input == Consume(d) && had < |EventsSince(front, n, k)| then had + 1 else had
  {
    assert (front + [input])[..|front|] == front;
  }

  lemma StaysComplete(front: seq<Input>, input: Input, d: nat, k: Key)
    requires d < |Run(front).devs| && LiveFor(front, d, k) && Run(front).devs[d].key == k && Run(front).devs[d].open
    requires Complete(front, d, k)
    ensures var all := front + [input];
            d < |Run(all).devs| && (Complete(all, d, k) <==> RoomAt(all, Born(front, d), d, k, |front|)) &&
            (!Complete(all, d, k) ==> |SentTo(all, d)| < |EventsSince(all, Born(front, d), k)|)
  {
    var h, n := Run(front), Born(front, d);
    assert (front + [input])[..|front|] == front;
    RemoteRuns.RunSnoc(front, input);
    RunLinked(front);
    BornSnoc(front, input, d);
    StepReader(h, input, d);
    StepDelivers(h, input, d);
    EventsSnoc(front, input, n, k);
    ReadsSnoc(front, input, n, d, k);
    assert Accepts(h, d) <==> |EventsSince(front, n, k)| < Reads(front, n, d, k) + 256;
  }

  lemma StaysIncomplete(front: seq<Input>, input: Input, d: nat, k: Key)
    requires d < |Run(front).devs| && |SentTo(front, d)| < |EventsSince(front, Born(front, d), k)|
    requires Run(front).devs[d].key == k
    ensures var all := front + [input]; |SentTo(all, d)| < |EventsSince(all, Born(front, d), k)|
  {
    RemoteRuns.RunSnoc(front, input);
    RunLinked(front);
    StepDelivers(Run(front), input, d);
    EventsSnoc(front, input, Born(front, d), k);
  }

  lemma {:induction false} CompleteIff(inputs: seq<Input>, d: nat, k: Key)
    requires d < |Run(inputs).devs| && LiveFor(inputs, d, k) && NeverClosed(inputs, Born(inputs, d), d)
    ensures Complete(inputs, d, k) <==> NeverFull(inputs, Born(inputs, d), d, k)
    ensures !Complete(inputs, d, k) ==> |SentTo(inputs, d)| < |EventsSince(inputs, Born(inputs, d), k)|
  {
    if inputs == [] {
    } else {
      var front, last := inputs[..|inputs| - 1], inputs[|inputs| - 1];
      var n := Born(inputs, d);
      assert inputs == front + [last];
      BornSnoc(front, last, d);
      if d < |Run(front).devs| {
        LiveBefore(front, last, d, k);
        NeverClosedSnoc(front, last, n, d);
        NeverFullSnoc(front, last, n, d, k);
        OpenIff(front, d);
        CompleteIff(front, d, k);
        if Complete(front, d, k) {
          StaysComplete(front, last, d, k);
        } else {
          StaysIncomplete(front, last, d, k);
        }
      } else {
        NewDevice(Run(front), last);
      }
    }
  }

  // While its route lives and its reader is there, a device has been sent exactly the events
  // offered to its key since its registration if and only if none of them came while 256 were
  // waiting, and whether that is so can be read off the log alone.
  lemma NothingLostIff(inputs: seq<Input>, d: nat, k: Key)
    requires d < |Run(inputs).devs| && LiveFor(inputs, d, k) && NeverClosed(inputs, Born(inputs, d), d)
    ensures SentTo(inputs, d) == EventsSince(inputs, Born(inputs, d), k) <==> NeverFull(inputs, Born(inputs, d), d, k)
  {
    CompleteIff(inputs, d, k);
  }

  /* ---------- a reader that keeps pace ---------- */

  predicate TakesBetween(inputs: seq<Input>, a: nat, b: nat, d: nat) {
    exists c: nat :: a < c < b && c < |inputs| && inputs[c] == Consume(d)
  }

  // Between any two events offered since the n-th input the reader asks at least once.
  predicate KeepsPace(inputs: seq<Input>, n: nat, d: nat, k: Key) {
    forall a: nat, b: nat :: n <= a < b < |inputs| && OfferedTo(inputs[a], k) != [] && OfferedTo(inputs[b], k) != [] ==>
      TakesBetween(inputs, a, b, d)
  }

  // An event offered since the n-th input and the reader has not asked after it.
  predicate Unasked(inputs: seq<Input>, n: nat, d: nat, k: Key, a: nat) {
    n <= a < |inputs| && OfferedTo(inputs[a], k) != [] && !TakesBetween(inputs, a, |inputs|, d)
  }

  lemma OfferOrConsume(input: Input, d: nat, k: Key)
    ensures |OfferedTo(input, k)| <= 1 && (input == Consume(d) ==> OfferedTo(input, k) == [])
  {
  }

  lemma AskedBefore(front: seq<Input>, input: Input, a: nat, d: nat)
    requires input != Consume(d) && TakesBetween(front + [input], a, |front| + 1, d)
    ensures TakesBetween(front, a, |front|, d)
  {
    var all := front + [input];
    var c: nat :| a < c < |all| && all[c] == Consume(d);
    assert all[|front|] == input && front[c] == Consume(d);
  }

  lemma UnaskedSnoc(front: seq<Input>, input: Input, n: nat, d: nat, k: Key, a: nat)
    requires Unasked(front, n, d, k, a) && input != Consume(d)
    ensures Unasked(front + [input], n, d, k, a)
  {
    var all := front + [input];
    assert all[a] == front[a];
    if TakesBetween(all, a, |all|, d) {
      AskedBefore(front, input, a, d);
    }
  }

  lemma PaceOfFront(front: seq<Input>, input: Input, n: nat, d: nat, k: Key)
    requires KeepsPace(front + [input], n, d, k)
    ensures KeepsPace(front, n, d, k)
    ensures OfferedTo(input, k) != [] ==> forall a: nat :: !Unasked(front, n, d, k, a)
  {
    var all := front + [input];
    forall a: nat, b: nat | n <= a < b < |front| && OfferedTo(front[a], k) != [] && OfferedTo(front[b], k) != []
      ensures TakesBetween(front, a, b, d)
    {
      assert all[a] == front[a] && all[b] == front[b];
      var c: nat :| a < c < b && all[c] == Consume(d);
      assert front[c] == Consume(d);
    }
    if OfferedTo(input, k) != [] {
      forall a: nat
        ensures !Unasked(front, n, d, k, a)
      {
        if n <= a < |front| && OfferedTo(front[a], k) != [] {
          assert all[a] == front[a] && all[|front|] == input;
          assert TakesBetween(all, a, |front|, d);
          var c: nat :| a < c < |front| && all[c] == Consume(d);
          assert front[c] == Consume(d);
        }
      }
    }
  }

  // At most one event waits, and only while the reader has not asked after it.
  lemma {:induction false} AtMostOneWaits(inputs: seq<Input>, n: nat, d: nat, k: Key)
    requires n <= |inputs| && KeepsPace(inputs, n, d, k)
    ensures Reads(inputs, n, d, k) <= |EventsSince(inputs, n, k)| <= Reads(inputs, n, d, k) + 1
    ensures |EventsSince(inputs, n, k)| == Reads(inputs, n, d, k) ||
            exists a: nat :: Unasked(inputs, n, d, k, a)
    ensures NeverFull(inputs, n, d, k)
  {
    if |inputs| == n {
    } else {
      var front, last := inputs[..|inputs| - 1], inputs[|inputs| - 1];
      assert inputs == front + [last];
      PaceOfFront(front, last, n, d, k);
      AtMostOneWaits(front, n, d, k);
      EventsSnoc(front, last, n, k);
      ReadsSnoc(front, last, n, d, k);
      NeverFullSnoc(front, last, n, d, k);
      assert inputs[..|front|] == front;
      OfferOrConsume(last, d, k);
      if OfferedTo(last, k) != [] {
        assert Unasked(inputs, n, d, k, |front|);
      } else if last != Consume(d) && |EventsSince(front, n, k)| != Reads(front, n, d, k) {
        var a: nat :| Unasked(front, n, d, k, a);
        UnaskedSnoc(front, last, n, d, k, a);
      }
    }
  }

  // So a reader that asks at least once between any two events is sent every one of them.
  lemma PacedReaderLosesNothing(inputs: seq<Input>, d: nat, k: Key)
    requires d < |Run(inputs).devs| && LiveFor(inputs, d, k) && NeverClosed(inputs, Born(inputs, d), d)
    requires KeepsPace(inputs, Born(inputs, d), d, k)
    ensures SentTo(inputs, d) == EventsSince(inputs, Born(inputs, d), k)
  {
    AtMostOneWaits(inputs, Born(inputs, d), d, k);
    NothingLostIff(inputs, d, k);
  }
}
