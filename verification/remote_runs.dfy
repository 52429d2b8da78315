/**
 What holds of every run of the remote hub, stated against the log of inputs alone.
 */
module RemoteRuns {
  import opened Bits
  import opened Wrappers
  import opened RemoteProtocol
  import opened RemoteRouting
  import PacketLoss

  /* ---------- reading a datagram's intent off the log ---------- */

  // The event a datagram carries for a handle of its sender.
  function EventOf(m: RemoteMsg): Option<(u16, Event)> {
    match m
    case Imu(handle, _, samples) => Some((handle, ImuEvent(samples)))
    case Battery(handle, fraction, charging) => Some((handle, BatteryEvent(fraction, charging)))
    case Button(handle, reset) => Some((handle, ResetEvent(reset)))
    case _ => None
  }

  function OfferedTo(input: Input, key: Key): seq<Event> {
    if input.Datagram? && input.msg.Some? && EventOf(input.msg.value).Some? &&
       Key(input.from.ip, EventOf(input.msg.value).value.0) == key
    then [EventOf(input.msg.value).value.1] else []
  }

  predicate AnnouncesKey(input: Input, key: Key) {
    input.Datagram? && input.msg.Some? && input.msg.value.Announced? &&
    Key(input.from.ip, input.msg.value.announce.handle) == key
  }

  /* ---------- one step, seen from one key ---------- */

  function SequencedFor(input: Input, key: Key): seq<PacketLoss.Packet> {
    if input.Datagram? && input.msg.Some? && input.msg.value.Imu? && input.msg.value.seqNo.Some? &&
       Key(input.from.ip, input.msg.value.handle) == key
    then [PacketLoss.Packet(input.msg.value.seqNo.value, input.now)] else []
  }

  // Each route names a device, and that device was registered under the route's key.
  predicate Linked(h: Hub) {
    forall k :: k in h.routes ==> h.routes[k].dev < |h.devs| && h.devs[h.routes[k].dev].key == k
  }

  lemma RunLinked(inputs: seq<Input>)
    ensures Linked(Run(inputs))
  {
    RunInv(inputs);
  }

  // The three ways a live route ends.
  predicate EndsRoute(h: Hub, input: Input, k: Key)
    requires Linked(h) && k in h.routes
  {
    match input
    case Datagram(_, from, msg, _) =>
      (msg.Some? && msg.value.Remove? && Key(from.ip, msg.value.handle) == k) ||
      (OfferedTo(input, k) != [] && !h.devs[h.routes[k].dev].open)
    case Sweep(now) => Stale(h.routes[k], now)
    case _ => false
  }

  predicate Touches(input: Input, k: Key) {
    AnnouncesKey(input, k) || OfferedTo(input, k) != []
  }

  function RouteOf(h: Hub, k: Key): Option<Route> {
    if k in h.routes then Some(h.routes[k]) else None
  }

  // The fate of one key's route, without looking at any other key.
  function RouteAfter(h: Hub, input: Input, k: Key): Option<Route>
    requires Linked(h)
  {
    if k in h.routes then
      if EndsRoute(h, input, k) then None
      else
        var r, s := h.routes[k], SequencedFor(input, k);
        Some(Route(r.dev, if Touches(input, k) then input.now else r.lastSeen,
                   if s == [] then r.loss else PacketLoss.Recorded(r.loss, s[0].counter % 0x1_0000, s[0].now)))
    else if AnnouncesKey(input, k) && input.registryOpen then Some(Route(|h.devs|, input.now, PacketLoss.FRESH))
    else None
  }

  lemma RouteEventRoute(h: Hub, now: nat, from: SocketAddr, handle: u16, e: Event, k: Key)
    requires Linked(h)
    ensures RouteOf(RouteEvent(h, now, from, handle, e), k) ==
            if k == Key(from.ip, handle) && k in h.routes then
              if h.devs[h.routes[k].dev].open then Some(h.routes[k].(lastSeen := now)) else None
            else RouteOf(h, k)
  {
  }

  lemma RegisterRoute(h: Hub, now: nat, from: SocketAddr, a: Announce, registryOpen: bool, k: Key)
    requires Linked(h)
    ensures RouteOf(Register(h, now, from, a, registryOpen), k) ==
            if k != Key(from.ip, a.handle) then RouteOf(h, k)
            else if k in h.routes then Some(h.routes[k].(lastSeen := now))
            else if registryOpen then Some(Route(|h.devs|, now, PacketLoss.FRESH))
            else None
  {
  }

  lemma RecordSeqRoute(h: Hub, key: Key, seqNo: Option<u16>, now: nat, k: Key)
    requires Linked(h)
    ensures Linked(RecordSeq(h, key, seqNo, now)) && RecordSeq(h, key, seqNo, now).devs == h.devs
    ensures RouteOf(RecordSeq(h, key, seqNo, now), k) ==
            if k == key && k in h.routes && seqNo.Some? then
              Some(h.routes[k].(loss := PacketLoss.Recorded(h.routes[k].loss, seqNo.value, now)))
            else RouteOf(h, k)
  {
  }

  lemma ImuRoute(h: Hub, input: Input, k: Key)
    requires Linked(h) && input.Datagram? && input.msg.Some? && input.msg.value.Imu?
    ensures RouteOf(HandleMsg(h, input.now, input.from, input.msg.value, input.registryOpen), k)
         == RouteAfter(h, input, k)
  {
    var now, from, m := input.now, input.from, input.msg.value;
    var key := Key(from.ip, m.handle);
    RecordSeqRoute(h, key, m.seqNo, now, k);
    RouteEventRoute(RecordSeq(h, key, m.seqNo, now), now, from, m.handle, ImuEvent(m.samples), k);
    assert SequencedFor(input, k) == if k == key && m.seqNo.Some? then [PacketLoss.Packet(m.seqNo.value, now)] else [];
    assert Touches(input, k) <==> k == key;
  }

  lemma PlainEventRoute(h: Hub, input: Input, k: Key)
    requires Linked(h) && input.Datagram? && input.msg.Some? && (input.msg.value.Battery? || input.msg.value.Button?)
    ensures RouteOf(HandleMsg(h, input.now, input.from, input.msg.value, input.registryOpen), k)
         == RouteAfter(h, input, k)
  {
    var (handle, e) := EventOf(input.msg.value).value;
    RouteEventRoute(h, input.now, input.from, handle, e, k);
  }

  lemma HandleMsgRoute(h: Hub, input: Input, k: Key)
    requires Linked(h) && input.Datagram? && input.msg.Some?
    ensures RouteOf(HandleMsg(h, input.now, input.from, input.msg.value, input.registryOpen), k)
         == RouteAfter(h, input, k)
  {
    match input.msg.value
    case Hello(_, _, _) => assert OfferedTo(input, k) == [];
    case Announced(a) => RegisterRoute(h, input.now, input.from, a, input.registryOpen, k);
    case Remove(_) => assert OfferedTo(input, k) == [];
    case Imu(_, _, _) => ImuRoute(h, input, k);
    case Battery(_, _, _) => PlainEventRoute(h, input, k);
    case Button(_, _) => PlainEventRoute(h, input, k);
  }

  // A step does to each key's route what RouteAfter says, and nothing else.
  lemma StepRoute(h: Hub, input: Input, k: Key)
    requires Linked(h)
    ensures RouteOf(Step(h, input), k) == RouteAfter(h, input, k)
  {
    if input.Datagram? && input.msg.Some? {
      HandleMsgRoute(h, input, k);
    }
  }

  /* ---------- the rumble target ---------- */

  // A hello, an announce, or an event that found a route.
  function Contact(h: Hub, input: Input): Option<SocketAddr> {
    if !input.Datagram? || input.msg.None? then None
    else
      match input.msg.value
      case Hello(_, _, _) => Some(input.from)
      case Announced(_) => Some(input.from)
      case Remove(_) => None
      case Imu(handle, _, _) => if Key(input.from.ip, handle) in h.routes then Some(input.from) else None
      case Battery(handle, _, _) => if Key(input.from.ip, handle) in h.routes then Some(input.from) else None
      case Button(handle, _) => if Key(input.from.ip, handle) in h.routes then Some(input.from) else None
  }

  function LastContact(inputs: seq<Input>, ip: Ip): Option<SocketAddr> {
    if inputs == [] then None
    else
      var n := |inputs| - 1;
      var c := Contact(Run(inputs[..n]), inputs[n]);
      if c.Some? && c.value.ip == ip then c else LastContact(inputs[..n], ip)
  }

  // What the cell stored for a hub holds.
  function CellOf(h: Hub, ip: Ip): Option<SocketAddr> {
    if ip in h.peers && h.peers[ip] < |h.cells| then Some(h.cells[h.peers[ip]]) else None
  }

  // What one step leaves in the cell of a surviving or new route's hub.
  predicate CellStep(h: Hub, g: Hub, contact: Option<SocketAddr>, k: Key) {
    if contact.Some? && contact.value.ip == k.ip then CellOf(g, k.ip) == contact
    else k in h.routes && CellOf(g, k.ip) == CellOf(h, k.ip)
  }

  // A hub's cell holds an address of that hub.
  predicate CellsAreOwn(h: Hub) {
    forall ip :: ip in h.peers ==> h.peers[ip] < |h.cells| && h.cells[h.peers[ip]].ip == ip
  }

  // A touch sets its own hub's cell and no other's: cells are not shared between hubs.
  lemma TouchCells(h: Hub, from: SocketAddr, ip: Ip)
    requires CellsAreOwn(h)
    ensures CellOf(TouchPeer(h, from), ip) == if ip == from.ip then Some(from) else CellOf(h, ip)
  {
  }

  lemma RouteEventCells(h: Hub, now: nat, from: SocketAddr, handle: u16, e: Event, k: Key)
    requires CellsAreOwn(h) && k in RouteEvent(h, now, from, handle, e).routes
    ensures CellStep(h, RouteEvent(h, now, from, handle, e),
                     if Key(from.ip, handle) in h.routes then Some(from) else None, k)
  {
    var key := Key(from.ip, handle);
    if key in h.routes {
      var refreshed := Refresh(h, key, now);
      assert CellOf(refreshed, k.ip) == CellOf(h, k.ip);
      TouchCells(refreshed, from, k.ip);
      var touched := TouchPeer(refreshed, from);
      var g := TrySend(touched, key, e);
      assert g.peers == touched.peers && g.cells == touched.cells;
      assert k in touched.routes && (k in refreshed.routes <==> k in h.routes);
    }
  }

  lemma RegisterCells(h: Hub, now: nat, from: SocketAddr, a: Announce, registryOpen: bool, k: Key)
    requires CellsAreOwn(h) && k in Register(h, now, from, a, registryOpen).routes
    ensures CellStep(h, Register(h, now, from, a, registryOpen), Some(from), k)
  {
    TouchCells(h, from, k.ip);
  }

  lemma HelloCells(h: Hub, from: SocketAddr, k: Key)
    requires CellsAreOwn(h) && k in h.routes
    ensures var g := if HasRoute(h, from.ip) then TouchPeer(h, from) else h;
            k in g.routes && CellStep(h, g, Some(from), k)
  {
    TouchCells(h, from, k.ip);
    assert k.ip == from.ip ==> HasRoute(h, from.ip);
  }

  lemma EventCells(h: Hub, input: Input, k: Key)
    requires CellsAreOwn(h) && input.Datagram? && input.msg.Some? && EventOf(input.msg.value).Some?
    requires k in Step(h, input).routes
    ensures CellStep(h, Step(h, input), Contact(h, input), k)
  {
    var from, now, m := input.from, input.now, input.msg.value;
    var (handle, e) := EventOf(m).value;
    if m.Imu? {
      var recorded := RecordSeq(h, Key(from.ip, handle), m.seqNo, now);
      assert recorded.peers == h.peers && recorded.cells == h.cells && recorded.routes.Keys == h.routes.Keys;
      RouteEventCells(recorded, now, from, handle, e, k);
    } else {
      RouteEventCells(h, now, from, handle, e, k);
    }
  }

  lemma StepCells(h: Hub, input: Input, k: Key)
    requires CellsAreOwn(h) && k in Step(h, input).routes
    ensures CellStep(h, Step(h, input), Contact(h, input), k)
  {
    if input.Datagram? && input.msg.Some? {
      match input.msg.value
      case Hello(_, _, _) => HelloCells(h, input.from, k);
      case Announced(a) => RegisterCells(h, input.now, input.from, a, input.registryOpen, k);
      case Remove(_) =>
      case _ => EventCells(h, input, k);
    }
  }

  // The cell a live device rumbles through holds the address its hub last used to say
  // hello, announce or deliver a routed event, whichever handle that was for.
  lemma {:induction false} RumbleFollowsHub(inputs: seq<Input>, k: Key)
    requires k in Run(inputs).routes
    ensures Inv(Run(inputs))
    ensures var h := Run(inputs);
            var dev := h.devs[h.routes[k].dev];
            dev.cell == h.peers[k.ip] && LastContact(inputs, k.ip) == Some(h.cells[dev.cell])
  {
    RunInv(inputs);
    if inputs == [] {
    } else {
      var n := |inputs| - 1;
      RunInv(inputs[..n]);
      StepCells(Run(inputs[..n]), inputs[n], k);
      if k in Run(inputs[..n]).routes {
        RumbleFollowsHub(inputs[..n], k);
      }
    }
  }

  /* ---------- freshness and the sweep ---------- */

  // When the log last shows an announce or an event for the key.
  function LastTouch(inputs: seq<Input>, key: Key): Option<nat> {
    if inputs == [] then None
    else
      var n := |inputs| - 1;
      if Touches(inputs[n], key) then Some(inputs[n].now)
      else LastTouch(inputs[..n], key)
  }

  lemma {:induction false} LastSeenIsLastTouch(inputs: seq<Input>, k: Key)
    requires k in Run(inputs).routes
    ensures LastTouch(inputs, k) == Some(Run(inputs).routes[k].lastSeen)
  {
    if inputs == [] {
    } else {
      var n := |inputs| - 1;
      RunLinked(inputs[..n]);
      StepRoute(Run(inputs[..n]), inputs[n], k);
      if k in Run(inputs[..n]).routes {
        LastSeenIsLastTouch(inputs[..n], k);
      }
    }
  }

  function RouteIps(h: Hub): set<Ip> {
    set k | k in h.routes :: k.ip
  }

  lemma SweptPeers(h: Hub, now: nat)
    requires Inv(h)
    ensures SweepAt(h, now).peers.Keys == RouteIps(SweepAt(h, now))
  {
    var kept := h.(routes := FreshRoutes(h.routes, now));
    forall ip ensures ip in SweepAt(h, now).peers <==> ip in RouteIps(kept) {
      assert HasRoute(kept, ip) <==> ip in RouteIps(kept);
    }
  }

  // A sweep keeps exactly the routes touched within 15 s, unchanged, and exactly their hubs' cells.
  lemma SweepExact(inputs: seq<Input>, now: nat, k: Key)
    ensures var before, after := Run(inputs), Run(inputs + [Sweep(now)]);
            (k in after.routes <==>
               k in before.routes && LastTouch(inputs, k).Some? &&
               now < LastTouch(inputs, k).value + 15_000_000) &&
            (k in after.routes ==> after.routes[k] == before.routes[k]) &&
            after.peers.Keys == RouteIps(after) && after.cells == before.cells && after.devs == before.devs
    ensures var before, after := Run(inputs), Run(inputs + [Sweep(now)]);
            forall ip :: ip in after.peers ==> ip in before.peers && after.peers[ip] == before.peers[ip]
  {
    var all := inputs + [Sweep(now)];
    assert all[..|inputs|] == inputs;
    var before, after := Run(inputs), Run(all);
    assert after == SweepAt(before, now);
    if k in before.routes {
      LastSeenIsLastTouch(inputs, k);
    }
    RunInv(inputs);
    SweptPeers(before, now);
  }

  /* ---------- registration and removal ---------- */

  lemma RouteEndsIff(h: Hub, input: Input, k: Key)
    requires Linked(h) && k in h.routes
    ensures k !in Step(h, input).routes <==> EndsRoute(h, input, k)
  {
    StepRoute(h, input, k);
  }

  function At(inputs: seq<Input>, n: nat): Hub
    requires n <= |inputs|
  {
    Run(inputs[..n])
  }

  lemma NextState(inputs: seq<Input>, n: nat)
    requires n < |inputs|
    ensures At(inputs, n + 1) == Step(At(inputs, n), inputs[n])
  {
    assert inputs[..n + 1][..n] == inputs[..n];
  }

  predicate EndsAt(inputs: seq<Input>, n: nat, k: Key)
    requires n < |inputs|
  {
    var h := At(inputs, n);
    k in h.routes && Linked(h) && EndsRoute(h, inputs[n], k)
  }

  lemma {:induction false} LostMeansEnded(inputs: seq<Input>, s: nat, t: nat, k: Key) returns (n: nat)
    requires s <= t <= |inputs| && k in At(inputs, s).routes && k !in At(inputs, t).routes
    ensures s <= n < t && EndsAt(inputs, n, k)
    decreases t - s
  {
    NextState(inputs, s);
    RunLinked(inputs[..s]);
    RouteEndsIff(At(inputs, s), inputs[s], k);
    if k in At(inputs, s + 1).routes {
      n := LostMeansEnded(inputs, s + 1, t, k);
    } else {
      n := s;
    }
  }

  predicate Registers(inputs: seq<Input>, n: nat, k: Key)
    requires n < |inputs|
  {
    k !in At(inputs, n).routes && k in At(inputs, n + 1).routes
  }

  // Between two registrations of a key one of the three endings happened to its route.
  lemma RegistrationsAreSeparated(inputs: seq<Input>, s: nat, t: nat, k: Key)
    requires s < t < |inputs| && Registers(inputs, s, k) && Registers(inputs, t, k)
    ensures exists n: nat :: s < n < t && EndsAt(inputs, n, k)
  {
    var n := LostMeansEnded(inputs, s + 1, t, k);
  }

  /* ---------- what reaches a device ---------- */

  // Everything offered to the key from the n-th input on.
  function EventsSince(inputs: seq<Input>, n: nat, key: Key): seq<Event> {
    if |inputs| <= n then []
    else EventsSince(inputs[..|inputs| - 1], n, key) + OfferedTo(inputs[|inputs| - 1], key)
  }

  // How many inputs had been processed when the device was registered.
  function Born(inputs: seq<Input>, d: nat): (n: nat)
    ensures n <= |inputs|
  {
    if inputs == [] || d >= |Run(inputs[..|inputs| - 1]).devs| then |inputs|
    else Born(inputs[..|inputs| - 1], d)
  }

  predicate Subsequence<T(==)>(x: seq<T>, y: seq<T>) {
    x == [] ||
    (y != [] &&
     ((x[|x| - 1] == y[|y| - 1] && Subsequence(x[..|x| - 1], y[..|y| - 1])) || Subsequence(x, y[..|y| - 1])))
  }

  predicate Accepts(h: Hub, d: nat)
    requires d < |h.devs|
  {
    var key := h.devs[d].key;
    key in h.routes && h.routes[key].dev == d && h.devs[d].open && !QueueFull(h.devs[d])
  }

  predicate SameDevices(h: Hub, g: Hub) {
    g.devs == h.devs
  }

  lemma TouchKeepsDevices(h: Hub, from: SocketAddr)
    ensures SameDevices(h, TouchPeer(h, from))
  {
  }

  lemma RouteEventDelivers(h: Hub, now: nat, from: SocketAddr, handle: u16, e: Event, d: nat)
    requires Linked(h) && d < |h.devs|
    ensures var g := RouteEvent(h, now, from, handle, e);
            |g.devs| == |h.devs| &&
            g.devs[d] == if Accepts(h, d) && Key(from.ip, handle) == h.devs[d].key
                         then h.devs[d].(sent := h.devs[d].sent + [e]) else h.devs[d]
  {
    var key := Key(from.ip, handle);
    if key in h.routes {
      TouchKeepsDevices(Refresh(h, key, now), from);
    }
  }

  // Nothing was sent to it or taken from it, and its reader is there.
  predicate Untouched(dev: Dev) {
    dev.sent == [] && dev.taken == 0 && dev.open
  }

  lemma RegisterDelivers(h: Hub, now: nat, from: SocketAddr, a: Announce, registryOpen: bool)
    ensures var g := Register(h, now, from, a, registryOpen);
            g.devs == h.devs ||
            (|g.devs| == |h.devs| + 1 && g.devs[..|h.devs|] == h.devs && Untouched(g.devs[|h.devs|]))
  {
    TouchKeepsDevices(h, from);
  }

  lemma EventDelivers(h: Hub, input: Input, d: nat)
    requires Linked(h) && d < |h.devs| && input.Datagram? && input.msg.Some? && EventOf(input.msg.value).Some?
    ensures var g := HandleMsg(h, input.now, input.from, input.msg.value, input.registryOpen);
            |g.devs| == |h.devs| &&
            g.devs[d] == if Accepts(h, d) && OfferedTo(input, h.devs[d].key) != []
                         then h.devs[d].(sent := h.devs[d].sent + OfferedTo(input, h.devs[d].key)) else h.devs[d]
  {
    var now, from, m := input.now, input.from, input.msg.value;
    var (handle, e) := EventOf(m).value;
    if m.Imu? {
      var r := RecordSeq(h, Key(from.ip, handle), m.seqNo, now);
      assert r.devs == h.devs && Linked(r) && (Accepts(r, d) <==> Accepts(h, d));
      RouteEventDelivers(r, now, from, handle, e, d);
    } else {
      RouteEventDelivers(h, now, from, handle, e, d);
    }
  }

  lemma HandleMsgDelivers(h: Hub, input: Input, d: nat)
    requires Linked(h) && d < |h.devs| && input.Datagram? && input.msg.Some?
    ensures var g := HandleMsg(h, input.now, input.from, input.msg.value, input.registryOpen);
            d < |g.devs| &&
            g.devs[d] == if Accepts(h, d) && OfferedTo(input, h.devs[d].key) != []
                         then h.devs[d].(sent := h.devs[d].sent + OfferedTo(input, h.devs[d].key)) else h.devs[d]
  {
    match input.msg.value
    case Hello(_, _, _) => TouchKeepsDevices(h, input.from);
    case Announced(a) =>
      RegisterDelivers(h, input.now, input.from, a, input.registryOpen);
      var g := Register(h, input.now, input.from, a, input.registryOpen);
      assert g.devs[..|h.devs|][d] == g.devs[d];
    case Remove(_) =>
    case _ => EventDelivers(h, input, d);
  }

  // A step hands a device the event offered to its key exactly when its route is live,
  // its receiver open and its queue below capacity; nothing else is ever handed over.
  lemma StepDelivers(h: Hub, input: Input, d: nat)
    requires Linked(h) && d < |h.devs|
    ensures var g := Step(h, input);
            d < |g.devs| && g.devs[d].key == h.devs[d].key && g.devs[d].cell == h.devs[d].cell &&
            g.devs[d].sent == h.devs[d].sent + if Accepts(h, d) then OfferedTo(input, h.devs[d].key) else []
  {
    assert h.devs[d].sent + [] == h.devs[d].sent;
    if input.Datagram? && input.msg.Some? {
      HandleMsgDelivers(h, input, d);
    }
  }

  lemma NewDevice(h: Hub, input: Input)
    ensures var g := Step(h, input);
            |h.devs| <= |g.devs| && forall d :: |h.devs| <= d < |g.devs| ==> Untouched(g.devs[d])
  {
    if input.Datagram? && input.msg.Some? {
      match input.msg.value
      case Hello(_, _, _) => TouchKeepsDevices(h, input.from);
      case Announced(a) => RegisterDelivers(h, input.now, input.from, a, input.registryOpen);
      case Remove(_) =>
      case Imu(handle, seqNo, samples) =>
        RouteEventDevices(RecordSeq(h, Key(input.from.ip, handle), seqNo, input.now), input.now, input.from, handle,
                          ImuEvent(samples));
      case Battery(handle, fraction, charging) =>
        RouteEventDevices(h, input.now, input.from, handle, BatteryEvent(fraction, charging));
      case Button(handle, reset) => RouteEventDevices(h, input.now, input.from, handle, ResetEvent(reset));
    }
  }

  lemma RouteEventDevices(h: Hub, now: nat, from: SocketAddr, handle: u16, e: Event)
    ensures |RouteEvent(h, now, from, handle, e).devs| == |h.devs|
  {
  }

  lemma {:induction false} SubsequenceGrows<T>(x: seq<T>, y: seq<T>, e: T)
    requires Subsequence(x, y)
    ensures Subsequence(x + [e], y + [e]) && Subsequence(x, y + [e])
  {
    assert (x + [e])[..|x|] == x && (y + [e])[..|y|] == y;
  }

  lemma SubsequenceExtends(x: seq<Event>, y: seq<Event>, offered: seq<Event>, accepted: bool)
    requires Subsequence(x, y) && |offered| <= 1
    ensures Subsequence(x + if accepted then offered else [], y + offered)
  {
    assert x + [] == x && y + [] == y;
    if offered != [] {
      SubsequenceGrows(x, y, offered[0]);
      assert offered == [offered[0]];
    }
  }

  predicate InOrder(inputs: seq<Input>, d: nat)
    requires d < |Run(inputs).devs|
  {
    var dev := Run(inputs).devs[d];
    Subsequence(dev.sent, EventsSince(inputs, Born(inputs, d), dev.key))
  }

  lemma StaysInOrder(inputs: seq<Input>, input: Input, d: nat)
    requires d < |Run(inputs).devs| && InOrder(inputs, d)
    ensures d < |Run(inputs + [input]).devs| && InOrder(inputs + [input], d)
  {
    var all, h := inputs + [input], Run(inputs);
    assert all[..|inputs|] == inputs;
    RunLinked(inputs);
    StepDelivers(h, input, d);
    var dev, born := h.devs[d], Born(inputs, d);
    var before, offered := EventsSince(inputs, born, dev.key), OfferedTo(input, dev.key);
    assert Born(all, d) == born && EventsSince(all, born, dev.key) == before + offered;
    SubsequenceExtends(dev.sent, before, offered, Accepts(h, d));
  }

  lemma NothingSentYet(inputs: seq<Input>, d: nat)
    requires d < |Run(inputs).devs| && Run(inputs).devs[d].sent == []
    ensures InOrder(inputs, d)
  {
  }

  // A device is sent an in-order subsequence of the events for its own key since registration.
  lemma {:induction false} DeliveredInOrder(inputs: seq<Input>, d: nat)
    requires d < |Run(inputs).devs|
    ensures InOrder(inputs, d)
  {
    if inputs == [] {
    } else {
      var front, last := inputs[..|inputs| - 1], inputs[|inputs| - 1];
      assert inputs == front + [last];
      if d < |Run(front).devs| {
        DeliveredInOrder(front, d);
        StaysInOrder(front, last, d);
      } else {
        NewDevice(Run(front), last);
        NothingSentYet(inputs, d);
      }
    }
  }

  /* ---------- a device that outlives its route ---------- */

  // The device's cell is the one stored for its IP.
  predicate HoldsHubCell(h: Hub, d: nat)
    requires d < |h.devs|
  {
    h.devs[d].key.ip in h.peers && h.peers[h.devs[d].key.ip] == h.devs[d].cell
  }

  lemma RouteEventPeers(h: Hub, now: nat, from: SocketAddr, handle: u16, e: Event, ip: Ip)
    requires CellsAreOwn(h)
    ensures var g := RouteEvent(h, now, from, handle, e);
            if ip in h.peers then ip in g.peers && g.peers[ip] == h.peers[ip]
            else ip in g.peers ==> g.peers[ip] == |h.cells|
  {
  }

  // Only a sweep takes a stored cell away, and a cell stored anew is a new one.
  lemma StepPeers(h: Hub, input: Input, ip: Ip)
    requires CellsAreOwn(h)
    ensures var g := Step(h, input);
            if input.Sweep? then
              (ip in g.peers <==> ip in h.peers && HasRoute(g, ip)) && (ip in g.peers ==> g.peers[ip] == h.peers[ip])
            else if ip in h.peers then ip in g.peers && g.peers[ip] == h.peers[ip]
            else ip in g.peers ==> g.peers[ip] == |h.cells|
  {
    match input
    case Sweep(now) =>
      var g, kept := Step(h, input), h.(routes := FreshRoutes(h.routes, now));
      assert g.routes == kept.routes;
      assert HasRoute(g, ip) <==> HasRoute(kept, ip);
    case Datagram(now, from, msg, _) =>
      if msg.Some? && EventOf(msg.value).Some? {
        var (handle, e) := EventOf(msg.value).value;
        if msg.value.Imu? {
          var recorded := RecordSeq(h, Key(from.ip, handle), msg.value.seqNo, now);
          assert recorded.peers == h.peers && recorded.cells == h.cells;
          RouteEventPeers(recorded, now, from, handle, e, ip);
        } else {
          RouteEventPeers(h, now, from, handle, e, ip);
        }
      }
    case _ =>
  }

  lemma StepHoldsHubCell(h: Hub, input: Input, d: nat)
    requires Inv(h) && d < |h.devs|
    ensures d < |Step(h, input).devs| && Step(h, input).devs[d].key == h.devs[d].key
    ensures HoldsHubCell(Step(h, input), d) <==>
            HoldsHubCell(h, d) && (input.Sweep? ==> HasRoute(Step(h, input), h.devs[d].key.ip))
  {
    StepDelivers(h, input, d);
    StepPeers(h, input, h.devs[d].key.ip);
  }

  lemma NewHoldsHubCell(h: Hub, input: Input, d: nat)
    requires |h.devs| <= d < |Step(h, input).devs|
    ensures HoldsHubCell(Step(h, input), d)
  {
    NewDevice(h, input);
    assert input.Datagram? && input.msg.Some?;
    match input.msg.value
    case Announced(a) => TouchKeepsDevices(h, input.from);
    case Imu(handle, seqNo, samples) =>
      RouteEventDevices(RecordSeq(h, Key(input.from.ip, handle), seqNo, input.now), input.now, input.from, handle,
                        ImuEvent(samples));
    case Battery(handle, fraction, charging) =>
      RouteEventDevices(h, input.now, input.from, handle, BatteryEvent(fraction, charging));
    case Button(handle, reset) => RouteEventDevices(h, input.now, input.from, handle, ResetEvent(reset));
    case Hello(_, _, _) => TouchKeepsDevices(h, input.from);
    case Remove(_) =>
  }

  // If the n-th input is a sweep, it left the IP a route.
  predicate KeptAt(inputs: seq<Input>, n: nat, ip: Ip)
    requires n < |inputs|
  {
    inputs[n].Sweep? ==> HasRoute(Run(inputs[..n + 1]), ip)
  }

  predicate KeptSince(inputs: seq<Input>, from: nat, ip: Ip) {
    forall n: nat :: from <= n < |inputs| ==> KeptAt(inputs, n, ip)
  }

  lemma KeptSinceSnoc(inputs: seq<Input>, input: Input, from: nat, ip: Ip)
    requires from <= |inputs|
    ensures KeptSince(inputs + [input], from, ip)
       <==> KeptSince(inputs, from, ip) && KeptAt(inputs + [input], |inputs|, ip)
  {
    var all := inputs + [input];
    forall n: nat | n < |inputs|
      ensures KeptAt(all, n, ip) <==> KeptAt(inputs, n, ip)
    {
      assert all[..n + 1] == inputs[..n + 1];
    }
  }

  lemma HoldsHubCellSnoc(inputs: seq<Input>, input: Input, d: nat)
    requires d < |Run(inputs).devs|
    requires HoldsHubCell(Run(inputs), d) <==> KeptSince(inputs, Born(inputs, d), Run(inputs).devs[d].key.ip)
    ensures var all := inputs + [input];
            d < |Run(all).devs| &&
            (HoldsHubCell(Run(all), d) <==> KeptSince(all, Born(all, d), Run(all).devs[d].key.ip))
  {
    var all, ip := inputs + [input], Run(inputs).devs[d].key.ip;
    assert all[..|inputs|] == inputs && all[..|inputs| + 1] == all;
    RunInv(inputs);
    StepHoldsHubCell(Run(inputs), input, d);
    KeptSinceSnoc(inputs, input, Born(inputs, d), ip);
    assert Born(all, d) == Born(inputs, d);
  }

  // Whether its route is still live or not, a device holds the cell stored for its IP if and
  // only if its IP has kept a route at every sweep since it was registered.
  lemma {:induction false} HoldsHubCellIff(inputs: seq<Input>, d: nat)
    requires d < |Run(inputs).devs|
    ensures HoldsHubCell(Run(inputs), d) <==> KeptSince(inputs, Born(inputs, d), Run(inputs).devs[d].key.ip)
  {
    if inputs == [] {
    } else {
      var front, last := inputs[..|inputs| - 1], inputs[|inputs| - 1];
      assert inputs == front + [last];
      if d < |Run(front).devs| {
        HoldsHubCellIff(front, d);
        HoldsHubCellSnoc(front, last, d);
      } else {
        NewHoldsHubCell(Run(front), last, d);
      }
    }
  }

  lemma RunSnoc(front: seq<Input>, last: Input)
    ensures Run(front + [last]) == Step(Run(front), last)
  {
    assert (front + [last])[..|front|] == front;
  }

  // A hub that comes back after its routes went stale gets a new cell, and the device of its
  // earlier announce is left with the old address.
  lemma SweptDeviceIsLeftBehind(ip: Ip, a: Announce)
    ensures var early, late := SocketAddr(ip, 1), SocketAddr(ip, 2);
            var h := Run([Datagram(0, early, Some(Announced(a)), true)] + [Sweep(20_000_000)]
                         + [Datagram(21_000_000, late, Some(Announced(a)), true)]);
            && |h.devs| == 2 && h.devs[0].key == h.devs[1].key == Key(ip, a.handle)
            && !HoldsHubCell(h, 0) && HoldsHubCell(h, 1)
            && h.devs[0].cell < |h.cells| && h.cells[h.devs[0].cell] == early
  {
    var early, key := SocketAddr(ip, 1), Key(ip, a.handle);
    var first, sweep := Datagram(0, early, Some(Announced(a)), true), Sweep(20_000_000);
    var one, two := Run([first]), Run([first] + [sweep]);
    assert [first] == [] + [first];
    RunSnoc([], first);
    assert TouchPeer(EMPTY, early) == Hub(map[], map[ip := 0], [early], []);
    assert one == Hub(map[key := Route(0, 0, PacketLoss.FRESH)], map[ip := 0], [early], [Dev(key, 0, [], 0, true)]);
    RunSnoc([first], sweep);
    assert two.routes == map[] && two.peers == map[];
    RunSnoc([first] + [sweep], Datagram(21_000_000, SocketAddr(ip, 2), Some(Announced(a)), true));
  }

  // So rumble for a device without a route of its own still follows its hub while another
  // route of that IP is live.
  lemma OutlivingDeviceFollowsHub(inputs: seq<Input>, d: nat, k: Key)
    requires d < |Run(inputs).devs| && k in Run(inputs).routes && k.ip == Run(inputs).devs[d].key.ip
    requires KeptSince(inputs, Born(inputs, d), k.ip)
    ensures var h := Run(inputs);
            h.devs[d].cell < |h.cells| && LastContact(inputs, k.ip) == Some(h.cells[h.devs[d].cell])
  {
    RunInv(inputs);
    HoldsHubCellIff(inputs, d);
    RumbleFollowsHub(inputs, k);
  }

  /* ---------- per-route loss accounting ---------- */

  function PacketsSince(inputs: seq<Input>, n: nat, key: Key): seq<PacketLoss.Packet> {
    if |inputs| <= n then []
    else PacketsSince(inputs[..|inputs| - 1], n, key) + SequencedFor(inputs[|inputs| - 1], key)
  }

  lemma RecordedNext(before: seq<PacketLoss.Packet>, input: Input, k: Key)
    ensures var s, loss := SequencedFor(input, k), PacketLoss.Run(before);
            PacketLoss.Run(before + s)
            == if s == [] then loss else PacketLoss.Recorded(loss, s[0].counter % 0x1_0000, s[0].now)
  {
    var s := SequencedFor(input, k);
    if s == [] {
      assert before + s == before;
    } else {
      assert (before + s)[..|before|] == before;
    }
  }

  lemma PacketsSnoc(front: seq<Input>, input: Input, n: nat, k: Key)
    requires n <= |front|
    ensures PacketsSince(front + [input], n, k) == PacketsSince(front, n, k) + SequencedFor(input, k)
  {
    assert (front + [input])[..|front|] == front;
  }

  lemma BornSnoc(front: seq<Input>, input: Input, d: nat)
    ensures Born(front + [input], d) == if d < |Run(front).devs| then Born(front, d) else |front| + 1
  {
    assert (front + [input])[..|front|] == front;
  }

  lemma LossKept(front: seq<Input>, input: Input, k: Key)
    requires var h := Run(front);
             k in h.routes && h.routes[k].loss == PacketLoss.Run(PacketsSince(front, Born(front, h.routes[k].dev), k))
    requires k in Step(Run(front), input).routes
    ensures var r := Step(Run(front), input).routes[k];
            r.loss == PacketLoss.Run(PacketsSince(front + [input], Born(front + [input], r.dev), k))
  {
    var h := Run(front);
    var d := h.routes[k].dev;
    RunLinked(front);
    StepRoute(h, input, k);
    BornSnoc(front, input, d);
    PacketsSnoc(front, input, Born(front, d), k);
    RecordedNext(PacketsSince(front, Born(front, d), k), input, k);
  }

  lemma LossStarts(front: seq<Input>, input: Input, k: Key)
    requires k !in Run(front).routes && k in Step(Run(front), input).routes
    ensures var r := Step(Run(front), input).routes[k];
            r.loss == PacketLoss.Run(PacketsSince(front + [input], Born(front + [input], r.dev), k))
  {
    RunLinked(front);
    StepRoute(Run(front), input, k);
    BornSnoc(front, input, Step(Run(front), input).routes[k].dev);
  }

  // A live route's statistics are those of the numbered bursts for its key since registration.
  lemma {:induction false} LossIsPerRegistration(inputs: seq<Input>, k: Key)
    requires k in Run(inputs).routes
    ensures var r := Run(inputs).routes[k];
            r.loss == PacketLoss.Run(PacketsSince(inputs, Born(inputs, r.dev), k))
  {
    if inputs == [] {
    } else {
      var n := |inputs| - 1;
      var front, last := inputs[..n], inputs[n];
      assert inputs == front + [last];
      RunSnoc(front, last);
      if k in Run(front).routes {
        LossIsPerRegistration(front, k);
        LossKept(front, last, k);
      } else {
        LossStarts(front, last, k);
      }
    }
  }
}
