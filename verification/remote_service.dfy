/**
 The listener loop: raw datagrams, sweeps and consumer steps in any order, from an
 empty hub.  What the value model proves of runs is read back off the live objects.
 */
module RemoteService {
  import opened Bits
  import Wrappers
  import opened RemoteProtocol
  import opened RemoteRouting
  import opened RemoteHubs
  import opened RemoteRuns

  datatype Arrival =
    | Packet(now: nat, from: SocketAddr, bytes: seq<u8>, registryOpen: bool)
    | SweepTick(now: nat)
    | Taken(dev: nat)
    | ReceiverGone(dev: nat)

  function AsInput(a: Arrival): Input {
    match a
    case Packet(now, from, bytes, registryOpen) => Datagram(now, from, Parse(bytes), registryOpen)
    case SweepTick(now) => Sweep(now)
    case Taken(dev) => Input.Consume(dev)
    case ReceiverGone(dev) => Input.CloseReceiver(dev)
  }

  function AsInputs(arrivals: seq<Arrival>): (inputs: seq<Input>)
    ensures |inputs| == |arrivals|
  {
    seq(|arrivals|, i requires 0 <= i < |arrivals| => AsInput(arrivals[i]))
  }

  method Apply(hub: RemoteHub, a: Arrival)
    requires hub.Valid()
    modifies hub, hub.cells, hub.queues, hub.losses
    ensures hub.Valid() && hub.Model() == Step(old(hub.Model()), AsInput(a))
    ensures forall o :: o in hub.cells ==> o in old(hub.cells) || fresh(o)
    ensures forall o :: o in hub.queues ==> o in old(hub.queues) || fresh(o)
    ensures forall o :: o in hub.losses ==> o in old(hub.losses) || fresh(o)
  {
    match a {
      case Packet(now, from, bytes, registryOpen) =>
        var m := Parse(bytes);
        if m.Some? {
          var _, _ := hub.HandleMsg(now, from, m.value, registryOpen);
        }
      case SweepTick(now) => hub.SweepRoutes(now);
      case Taken(dev) =>
        var _ := hub.Consume(dev);
      case ReceiverGone(dev) => hub.CloseReceiver(dev);
    }
  }

  method Serve(arrivals: seq<Arrival>) returns (hub: RemoteHub)
    ensures fresh(hub) && hub.Valid()
    ensures hub.Model() == Run(AsInputs(arrivals))
  {
    hub := new RemoteHub();
    for i := 0 to |arrivals|
      invariant fresh(hub) && hub.Valid() && hub.Model() == Run(AsInputs(arrivals[..i]))
      invariant forall o :: o in hub.cells ==> fresh(o)
      invariant forall o :: o in hub.queues ==> fresh(o)
      invariant forall o :: o in hub.losses ==> fresh(o)
    {
      RunSnoc(arrivals, i);
      Apply(hub, arrivals[i]);
    }
    assert arrivals[..|arrivals|] == arrivals;
  }

  lemma RunSnoc(arrivals: seq<Arrival>, i: nat)
    requires i < |arrivals|
    ensures Run(AsInputs(arrivals[..i + 1])) == Step(Run(AsInputs(arrivals[..i])), AsInput(arrivals[i]))
  {
    assert AsInputs(arrivals[..i + 1])[..i] == AsInputs(arrivals[..i]);
  }

  // The device behind a live route: it has the route's key and holds the very cell stored for its IP.
  lemma DeviceOfRoute(hub: RemoteHub, k: Key, d: RemoteDevice)
    requires hub.Valid() && k in hub.routes && d in hub.devObjs && d.queue == hub.routes[k].tx
    ensures hub.modelRoutes[k].dev < |hub.devObjs| && d == hub.devObjs[hub.modelRoutes[k].dev]
    ensures d.key == k && k.ip in hub.hubPeers && d.peer == hub.hubPeers[k.ip]
  {
    var n := hub.modelRoutes[k].dev;
    assert RouteMatches(hub.routes[k], hub.modelRoutes[k], k, hub.devObjs);
    var i :| 0 <= i < |hub.devObjs| && hub.devObjs[i] == d;
    assert DeviceMatches(hub.devObjs[i], hub.modelDevs[i], i, hub.cellObjs);
    assert DeviceMatches(hub.devObjs[n], hub.modelDevs[n], n, hub.cellObjs);
  }

  // And in a run the cell holds the last contact of that IP.
  lemma CellIsLastContact(hub: RemoteHub, inputs: seq<Input>, k: Key)
    requires hub.Valid() && hub.Model() == Run(inputs) && k in hub.routes
    ensures k.ip in hub.hubPeers && LastContact(inputs, k.ip) == Wrappers.Some(hub.hubPeers[k.ip].addr)
  {
    RumbleFollowsHub(inputs, k);
    var i := hub.modelPeers[k.ip];
    assert CellMatches(hub.cellObjs[i], hub.modelCells[i], i);
  }

  // Every live route belongs to a device that holds the very cell the hub stores for its
  // IP, and that cell holds that IP's last contact.
  lemma LiveDeviceRumblesToLastContact(hub: RemoteHub, inputs: seq<Input>, k: Key)
    requires hub.Valid() && hub.Model() == Run(inputs) && k in hub.routes
    ensures k.ip in hub.hubPeers
    ensures exists d :: d in hub.devObjs && d.key == k && d.queue == hub.routes[k].tx &&
                   d.peer == hub.hubPeers[k.ip] && LastContact(inputs, k.ip) == Wrappers.Some(d.peer.addr)
  {
    CellIsLastContact(hub, inputs, k);
    assert RouteMatches(hub.routes[k], hub.modelRoutes[k], k, hub.devObjs);
    var d := hub.devObjs[hub.modelRoutes[k].dev];
    assert d in hub.devObjs;
    DeviceOfRoute(hub, k, d);
  }

  // Rumble for a live device: a packet that reads back to its own handle and the intensity
  // asked for, or the end of 0.0..1.0 it lies beyond, sent to wherever its hub was last heard from.
  method RumbleLiveDevice(hub: RemoteHub, ghost inputs: seq<Input>, ghost k: Key, d: RemoteDevice, intensity: u32)
    returns (packet: seq<u8>, target: SocketAddr)
    requires hub.Valid() && hub.Model() == Run(inputs)
    requires k in hub.routes && d in hub.devObjs && d.queue == hub.routes[k].tx
    ensures |packet| == 12 && packet[..6] == Header(MSG_RUMBLE)
    ensures U16At(packet, 6) == k.handle
    ensures var sent := U32At(packet, 8);
            if IsNaN(intensity) || 0 <= Order(intensity) <= Order(ONE) then sent == intensity
            else sent == if Order(intensity) < 0 then 0 else ONE
    ensures LastContact(inputs, k.ip) == Wrappers.Some(target)
  {
    DeviceOfRoute(hub, k, d);
    CellIsLastContact(hub, inputs, k);
    packet, target := d.SetRumble(intensity);
    RumbleRoundTrip(k.handle, ClampWord(intensity));
  }

  // Two devices of one hub share one cell object, so one handle's traffic moves both.
  lemma DevicesOfOneHubShareACell(hub: RemoteHub, k: Key, l: Key)
    requires hub.Valid() && k in hub.routes && l in hub.routes && k.ip == l.ip
    ensures forall d, e | d in hub.devObjs && e in hub.devObjs ::
              d.queue == hub.routes[k].tx && e.queue == hub.routes[l].tx ==> d.peer == e.peer
  {
    forall d, e | d in hub.devObjs && e in hub.devObjs && d.queue == hub.routes[k].tx && e.queue == hub.routes[l].tx
      ensures d.peer == e.peer
    {
      DeviceOfRoute(hub, k, d);
      DeviceOfRoute(hub, l, e);
    }
  }
}
