/**
 The remote hub's routing state as a value, with cells and devices named by index so
 that sharing is visible.  A run is a sequence of datagrams, sweeps and consumer steps.
 */
module RemoteRouting {
  import opened Bits
  import opened Wrappers
  import opened RemoteProtocol
  import PacketLoss

  const STALE_AFTER := 15_000_000
  const QUEUE_CAPACITY := 256

  datatype Ip = Ip(octets: seq<u8>)
  datatype SocketAddr = SocketAddr(ip: Ip, port: u16)
  datatype Key = Key(ip: Ip, handle: u16)

  datatype Event =
    | ImuEvent(samples: seq<ImuSample>)
    | BatteryEvent(fraction: u32, charging: bool)
    | ResetEvent(reset: ResetKind)

  // A registered device: the rumble cell it shares, what its route accepted for it, how
  // much of that its reader consumed, and whether the receiving half still exists.
  datatype Dev = Dev(key: Key, cell: nat, sent: seq<Event>, taken: nat, open: bool)

  datatype Route = Route(dev: nat, lastSeen: nat, loss: PacketLoss.Loss)

  datatype Hub = Hub(routes: map<Key, Route>, peers: map<Ip, nat>, cells: seq<SocketAddr>, devs: seq<Dev>)

  const EMPTY := Hub(map[], map[], [], [])

  datatype Input =
    | Datagram(now: nat, from: SocketAddr, msg: Option<RemoteMsg>, registryOpen: bool)
    | Sweep(now: nat)
    | Consume(dev: nat)
    | CloseReceiver(dev: nat)

  /* ---------- one step ---------- */

  predicate HasRoute(h: Hub, ip: Ip) {
    exists k :: k in h.routes && k.ip == ip
  }

  function TouchPeer(h: Hub, from: SocketAddr): Hub {
    if from.ip in h.peers && h.peers[from.ip] < |h.cells| then
      h.(cells := h.cells[h.peers[from.ip] := from])
    else
      h.(peers := h.peers[from.ip := |h.cells|], cells := h.cells + [from])
  }

  function Refresh(h: Hub, key: Key, now: nat): Hub
    requires key in h.routes
  {
    h.(routes := h.routes[key := h.routes[key].(lastSeen := now)])
  }

  function Unroute(h: Hub, key: Key): Hub {
    h.(routes := map k | k in h.routes && k != key :: h.routes[k])
  }

  predicate QueueFull(d: Dev) {
    |d.sent| >= d.taken + QUEUE_CAPACITY
  }

  // The non-blocking send: a closed receiver drops the route, a full queue drops the event.
  function TrySend(h: Hub, key: Key, e: Event): Hub
    requires key in h.routes
  {
    var i := h.routes[key].dev;
    if i >= |h.devs| then h
    else if !h.devs[i].open then Unroute(h, key)
    else if QueueFull(h.devs[i]) then h
    else h.(devs := h.devs[i := h.devs[i].(sent := h.devs[i].sent + [e])])
  }

  function RouteEvent(h: Hub, now: nat, from: SocketAddr, handle: u16, e: Event): Hub {
    var key := Key(from.ip, handle);
    if key in h.routes then TrySend(TouchPeer(Refresh(h, key, now), from), key, e) else h
  }

  function RecordSeq(h: Hub, key: Key, seqNo: Option<u16>, now: nat): Hub {
    if seqNo.None? || key !in h.routes then h
    else
      var r := h.routes[key];
      h.(routes := h.routes[key := r.(loss := PacketLoss.Recorded(r.loss, seqNo.value, now))])
  }

  // A known key is refreshed; a new one gets a device, if anyone is there to take it.
  function Place(h: Hub, now: nat, key: Key, registryOpen: bool): Hub
    requires key.ip in h.peers
  {
    if key in h.routes then Refresh(h, key, now)
    else if !registryOpen then h
    else
      h.(devs := h.devs + [Dev(key, h.peers[key.ip], [], 0, true)],
         routes := h.routes[key := Route(|h.devs|, now, PacketLoss.FRESH)])
  }

  function Register(h: Hub, now: nat, from: SocketAddr, a: Announce, registryOpen: bool): Hub {
    Place(TouchPeer(h, from), now, Key(from.ip, a.handle), registryOpen)
  }

  function HandleMsg(h: Hub, now: nat, from: SocketAddr, m: RemoteMsg, registryOpen: bool): Hub {
    match m
    case Hello(_, _, _) => if HasRoute(h, from.ip) then TouchPeer(h, from) else h
    case Announced(a) => Register(h, now, from, a, registryOpen)
    case Remove(handle) => Unroute(h, Key(from.ip, handle))
    case Imu(handle, seqNo, samples) =>
      RouteEvent(RecordSeq(h, Key(from.ip, handle), seqNo, now), now, from, handle, ImuEvent(samples))
    case Battery(handle, fraction, charging) =>
      RouteEvent(h, now, from, handle, BatteryEvent(fraction, charging))
    case Button(handle, reset) => RouteEvent(h, now, from, handle, ResetEvent(reset))
  }

  predicate Stale(r: Route, now: nat) {
    PacketLoss.Elapsed(r.lastSeen, now) >= STALE_AFTER
  }

  function FreshRoutes(routes: map<Key, Route>, now: nat): map<Key, Route> {
    map k | k in routes && !Stale(routes[k], now) :: routes[k]
  }

  function LivePeers(h: Hub): map<Ip, nat> {
    map ip | ip in h.peers && HasRoute(h, ip) :: h.peers[ip]
  }

  function SweepAt(h: Hub, now: nat): Hub {
    var swept := h.(routes := FreshRoutes(h.routes, now));
    swept.(peers := LivePeers(swept))
  }

  function Step(h: Hub, input: Input): Hub {
    match input
    case Datagram(now, from, msg, registryOpen) =>
      if msg.None? then h else HandleMsg(h, now, from, msg.value, registryOpen)
    case Sweep(now) => SweepAt(h, now)
    case Consume(i) =>
      if i < |h.devs| && h.devs[i].open && h.devs[i].taken < |h.devs[i].sent|
      then h.(devs := h.devs[i := h.devs[i].(taken := h.devs[i].taken + 1)]) else h
    case CloseReceiver(i) =>
      if i < |h.devs| then h.(devs := h.devs[i := h.devs[i].(open := false)]) else h
  }

  function Run(inputs: seq<Input>): Hub {
    if inputs == [] then EMPTY else Step(Run(inputs[..|inputs| - 1]), inputs[|inputs| - 1])
  }

  /* ---------- the invariant of every run ---------- */

  predicate Inv(h: Hub) {
    && (forall k :: k in h.routes ==>
          && h.routes[k].dev < |h.devs|
          && h.devs[h.routes[k].dev].key == k
          && k.ip in h.peers
          && h.devs[h.routes[k].dev].cell == h.peers[k.ip])
    && (forall ip :: ip in h.peers ==> h.peers[ip] < |h.cells| && h.cells[h.peers[ip]].ip == ip)
    && (forall i :: 0 <= i < |h.devs| ==>
          && h.devs[i].cell < |h.cells|
          && h.cells[h.devs[i].cell].ip == h.devs[i].key.ip
          && h.devs[i].taken <= |h.devs[i].sent| <= h.devs[i].taken + QUEUE_CAPACITY)
  }

  lemma TouchPeerInv(h: Hub, from: SocketAddr)
    requires Inv(h)
    ensures var t := TouchPeer(h, from);
            Inv(t) && from.ip in t.peers && t.cells[t.peers[from.ip]] == from &&
            t.routes == h.routes && t.devs == h.devs
    ensures var t := TouchPeer(h, from);
            |h.cells| <= |t.cells| &&
            forall ip :: ip in h.peers && ip != from.ip ==>
                           ip in t.peers && t.peers[ip] == h.peers[ip] && t.cells[t.peers[ip]] == h.cells[h.peers[ip]]
  {
  }

  lemma RefreshInv(h: Hub, key: Key, now: nat)
    requires Inv(h) && key in h.routes
    ensures Inv(Refresh(h, key, now))
  {
  }

  lemma TrySendInv(h: Hub, key: Key, e: Event)
    requires Inv(h) && key in h.routes
    ensures Inv(TrySend(h, key, e))
  {
  }

  lemma RouteEventInv(h: Hub, now: nat, from: SocketAddr, handle: u16, e: Event)
    requires Inv(h)
    ensures Inv(RouteEvent(h, now, from, handle, e))
  {
    var key := Key(from.ip, handle);
    if key in h.routes {
      RefreshInv(h, key, now);
      TouchPeerInv(Refresh(h, key, now), from);
      TrySendInv(TouchPeer(Refresh(h, key, now), from), key, e);
    }
  }

  lemma NewRouteInv(h: Hub, key: Key, now: nat)
    requires Inv(h) && key.ip in h.peers && key !in h.routes
    ensures Inv(h.(devs := h.devs + [Dev(key, h.peers[key.ip], [], 0, true)],
                   routes := h.routes[key := Route(|h.devs|, now, PacketLoss.FRESH)]))
  {
  }

  lemma RegisterInv(h: Hub, now: nat, from: SocketAddr, a: Announce, registryOpen: bool)
    requires Inv(h)
    ensures Inv(Register(h, now, from, a, registryOpen))
  {
    var touched, key := TouchPeer(h, from), Key(from.ip, a.handle);
    TouchPeerInv(h, from);
    if key in touched.routes {
      RefreshInv(touched, key, now);
    } else {
      NewRouteInv(touched, key, now);
    }
  }

  lemma HandleMsgInv(h: Hub, now: nat, from: SocketAddr, m: RemoteMsg, registryOpen: bool)
    requires Inv(h)
    ensures Inv(HandleMsg(h, now, from, m, registryOpen))
  {
    match m
    case Hello(_, _, _) => TouchPeerInv(h, from);
    case Announced(a) => RegisterInv(h, now, from, a, registryOpen);
    case Remove(_) =>
    case Imu(handle, seqNo, samples) =>
      var key := Key(from.ip, handle);
      assert Inv(RecordSeq(h, key, seqNo, now));
      RouteEventInv(RecordSeq(h, key, seqNo, now), now, from, handle, ImuEvent(samples));
    case Battery(handle, fraction, charging) =>
      RouteEventInv(h, now, from, handle, BatteryEvent(fraction, charging));
    case Button(handle, reset) => RouteEventInv(h, now, from, handle, ResetEvent(reset));
  }

  lemma SweepInv(h: Hub, now: nat)
    requires Inv(h)
    ensures Inv(SweepAt(h, now))
  {
    var s := SweepAt(h, now);
    forall k | k in s.routes ensures k.ip in s.peers {
      assert HasRoute(h.(routes := s.routes), k.ip);
    }
  }

  lemma StepInv(h: Hub, input: Input)
    requires Inv(h)
    ensures Inv(Step(h, input))
  {
    match input
    case Datagram(now, from, msg, registryOpen) =>
      if msg.Some? {
        HandleMsgInv(h, now, from, msg.value, registryOpen);
      }
    case Sweep(now) => SweepInv(h, now);
    case Consume(_) =>
    case CloseReceiver(_) =>
  }

  lemma {:induction false} RunInv(inputs: seq<Input>)
    ensures Inv(Run(inputs))
  {
    if inputs == [] {
    } else {
      RunInv(inputs[..|inputs| - 1]);
      StepInv(Run(inputs[..|inputs| - 1]), inputs[|inputs| - 1]);
    }
  }
}
