/**
 The remote hub as it lives in memory: two maps updated per datagram, one shared
 address cell per hub IP, one bounded event queue per device.  A ghost value of the
 routing model is kept beside the objects, and Valid() ties each object to its index.
 */
module RemoteHubs {
  import opened Bits
  import opened Wrappers
  import opened RemoteProtocol
  import opened RemoteRouting
  import opened PacketLoss

  /** A shared, rewritable rumble target; the ghost index names it in the model. */
  class AddrCell {
    var addr: SocketAddr
    ghost const index: nat

    constructor (addr: SocketAddr, ghost index: nat)
      ensures this.addr == addr && this.index == index
    {
      this.addr := addr;
      this.index := index;
    }
  }

  datatype SendResult = Sent | QueueIsFull | ReceiverClosed

  /** The bounded channel between a route and its device's reader. */
  class EventQueue {
    var sent: seq<Event>
    var taken: nat
    var open: bool
    ghost const index: nat

    constructor (ghost index: nat)
      ensures sent == [] && taken == 0 && open && this.index == index
    {
      sent, taken, open := [], 0, true;
      this.index := index;
    }

    method TrySend(e: Event) returns (r: SendResult)
      modifies this
      ensures taken == old(taken) && open == old(open)
      ensures r == if !old(open) then ReceiverClosed
                   else if |old(sent)| >= old(taken) + QUEUE_CAPACITY then QueueIsFull else Sent
      ensures sent == if r == Sent then old(sent) + [e] else old(sent)
    {
      if !open {
        return ReceiverClosed;
      }
      if |sent| >= taken + QUEUE_CAPACITY {
        return QueueIsFull;
      }
      sent := sent + [e];
      return Sent;
    }
  }

  /** A registered device: its rumble goes wherever the shared cell points. */
  class RemoteDevice {
    const key: Key
    const peer: AddrCell
    const queue: EventQueue

    constructor (key: Key, peer: AddrCell, queue: EventQueue)
      ensures this.key == key && this.peer == peer && this.queue == queue
    {
      this.key, this.peer, this.queue := key, peer, queue;
    }

    method SetRumble(intensity: u32) returns (packet: seq<u8>, target: SocketAddr)
      ensures packet == RumblePacket(key.handle, ClampWord(intensity)) && target == peer.addr
    {
      packet := RumblePacket(key.handle, ClampWord(intensity));
      target := peer.addr;
    }
  }

  datatype LiveRoute = LiveRoute(tx: EventQueue, lastSeen: nat, loss: LossStats)

  /* ---------- object for index, the heap is the model ---------- */

  ghost predicate CellMatches(c: AddrCell, addr: SocketAddr, i: nat)
    reads c
  {
    c.index == i && c.addr == addr
  }

  ghost predicate CellsMatch(cellObjs: seq<AddrCell>, cells: seq<SocketAddr>, owned: set<AddrCell>)
    reads owned
  {
    && |cellObjs| == |cells|
    && (forall i {:trigger CellMatches(cellObjs[i], cells[i], i)} ::
          0 <= i < |cellObjs| ==> cellObjs[i] in owned && CellMatches(cellObjs[i], cells[i], i))
  }

  ghost predicate DeviceMatches(o: RemoteDevice, d: Dev, i: nat, cellObjs: seq<AddrCell>)
    reads o.queue
  {
    && o.queue.index == i && o.queue.sent == d.sent && o.queue.taken == d.taken && o.queue.open == d.open
    && o.key == d.key && d.cell < |cellObjs| && o.peer == cellObjs[d.cell]
  }

  ghost predicate DevicesMatch(devObjs: seq<RemoteDevice>, devs: seq<Dev>, cellObjs: seq<AddrCell>,
                               owned: set<EventQueue>)
    reads owned
  {
    && |devObjs| == |devs|
    && (forall i {:trigger DeviceMatches(devObjs[i], devs[i], i, cellObjs)} ::
          0 <= i < |devObjs| ==> devObjs[i].queue in owned && DeviceMatches(devObjs[i], devs[i], i, cellObjs))
  }

  ghost predicate RouteMatches(r: LiveRoute, m: Route, k: Key, devObjs: seq<RemoteDevice>)
    reads r.loss
  {
    && m.dev < |devObjs| && devObjs[m.dev].key == k && r.loss.owner == m.dev
    && r.tx == devObjs[m.dev].queue && r.lastSeen == m.lastSeen && r.loss.View() == m.loss
  }

  ghost predicate RoutesMatch(routes: map<Key, LiveRoute>, model: map<Key, Route>, devObjs: seq<RemoteDevice>,
                              owned: set<LossStats>)
    reads owned
  {
    && routes.Keys == model.Keys
    && (forall k :: k in routes ==> routes[k].loss in owned && RouteMatches(routes[k], model[k], k, devObjs))
  }

  ghost predicate PeersMatch(hubPeers: map<Ip, AddrCell>, peers: map<Ip, nat>, cellObjs: seq<AddrCell>) {
    && hubPeers.Keys == peers.Keys
    && (forall ip :: ip in hubPeers ==> peers[ip] < |cellObjs| && hubPeers[ip] == cellObjs[peers[ip]])
  }

  lemma FewerRoutes(routes: map<Key, LiveRoute>, model: map<Key, Route>, devObjs: seq<RemoteDevice>,
                    owned: set<LossStats>, kept: map<Key, LiveRoute>, keptModel: map<Key, Route>)
    requires RoutesMatch(routes, model, devObjs, owned)
    requires kept.Keys == keptModel.Keys && kept.Keys <= routes.Keys
    requires forall k :: k in kept ==> kept[k] == routes[k] && keptModel[k] == model[k]
    ensures RoutesMatch(kept, keptModel, devObjs, owned)
  {
  }

  lemma SetRoute(routes: map<Key, LiveRoute>, model: map<Key, Route>, devObjs: seq<RemoteDevice>,
                 owned: set<LossStats>, key: Key, r: LiveRoute, m: Route)
    requires RoutesMatch(routes, model, devObjs, owned)
    requires r.loss in owned && RouteMatches(r, m, key, devObjs)
    ensures RoutesMatch(routes[key := r], model[key := m], devObjs, owned)
  {
  }

  lemma MoreObjects(routes: map<Key, LiveRoute>, model: map<Key, Route>, devObjs: seq<RemoteDevice>,
                    owned: set<LossStats>, dev: RemoteDevice)
    requires RoutesMatch(routes, model, devObjs, owned)
    ensures RoutesMatch(routes, model, devObjs + [dev], owned)
  {
    forall k | k in routes ensures RouteMatches(routes[k], model[k], k, devObjs + [dev]) {
      assert RouteMatches(routes[k], model[k], k, devObjs);
    }
  }

  lemma MoreLosses(routes: map<Key, LiveRoute>, model: map<Key, Route>, devObjs: seq<RemoteDevice>,
                   owned: set<LossStats>, loss: LossStats)
    requires RoutesMatch(routes, model, devObjs, owned)
    ensures RoutesMatch(routes, model, devObjs, owned + {loss})
  {
  }

  lemma AppendCell(cellObjs: seq<AddrCell>, cells: seq<SocketAddr>, owned: set<AddrCell>, c: AddrCell)
    requires CellsMatch(cellObjs, cells, owned) && c.index == |cellObjs|
    ensures CellsMatch(cellObjs + [c], cells + [c.addr], owned + {c})
  {
    forall i | 0 <= i < |cellObjs| + 1
      ensures (cellObjs + [c])[i] in owned + {c} && CellMatches((cellObjs + [c])[i], (cells + [c.addr])[i], i)
    {
      if i < |cellObjs| {
        assert CellMatches(cellObjs[i], cells[i], i);
      }
    }
  }

  lemma MoreCells(devObjs: seq<RemoteDevice>, devs: seq<Dev>, cellObjs: seq<AddrCell>, owned: set<EventQueue>,
                  c: AddrCell)
    requires DevicesMatch(devObjs, devs, cellObjs, owned)
    ensures DevicesMatch(devObjs, devs, cellObjs + [c], owned)
  {
    forall i | 0 <= i < |devObjs|
      ensures devObjs[i].queue in owned && DeviceMatches(devObjs[i], devs[i], i, cellObjs + [c])
    {
      assert DeviceMatches(devObjs[i], devs[i], i, cellObjs);
    }
  }

  lemma MorePeers(hubPeers: map<Ip, AddrCell>, peers: map<Ip, nat>, cellObjs: seq<AddrCell>, c: AddrCell)
    requires PeersMatch(hubPeers, peers, cellObjs)
    ensures PeersMatch(hubPeers, peers, cellObjs + [c])
  {
  }

  lemma SetPeer(hubPeers: map<Ip, AddrCell>, peers: map<Ip, nat>, cellObjs: seq<AddrCell>, ip: Ip, c: AddrCell)
    requires PeersMatch(hubPeers, peers, cellObjs) && cellObjs != [] && cellObjs[|cellObjs| - 1] == c
    ensures PeersMatch(hubPeers[ip := c], peers[ip := |cellObjs| - 1], cellObjs)
  {
  }

  lemma AppendDevice(devObjs: seq<RemoteDevice>, devs: seq<Dev>, cellObjs: seq<AddrCell>, owned: set<EventQueue>,
                     dev: RemoteDevice, d: Dev)
    requires DevicesMatch(devObjs, devs, cellObjs, owned)
    requires dev.queue.index == |devObjs| && dev.queue.sent == d.sent && dev.queue.taken == d.taken
    requires dev.queue.open == d.open && dev.key == d.key && d.cell < |cellObjs| && dev.peer == cellObjs[d.cell]
    ensures DevicesMatch(devObjs + [dev], devs + [d], cellObjs, owned + {dev.queue})
  {
    var objs, values := devObjs + [dev], devs + [d];
    forall i | 0 <= i < |objs|
      ensures objs[i].queue in owned + {dev.queue} && DeviceMatches(objs[i], values[i], i, cellObjs)
    {
      if i < |devObjs| {
        assert DeviceMatches(devObjs[i], devs[i], i, cellObjs);
      }
    }
  }

  lemma DistinctLosses(routes: map<Key, LiveRoute>, model: map<Key, Route>, devObjs: seq<RemoteDevice>,
                       owned: set<LossStats>, key: Key)
    requires RoutesMatch(routes, model, devObjs, owned) && key in routes
    ensures forall k :: k in routes && k != key ==> routes[k].loss != routes[key].loss
  {
    forall k | k in routes && k != key ensures routes[k].loss != routes[key].loss {
      assert RouteMatches(routes[k], model[k], k, devObjs);
      assert RouteMatches(routes[key], model[key], key, devObjs);
    }
  }

  // The routes and cells a sweep keeps.
  function FreshOnly(routes: map<Key, LiveRoute>, now: nat): map<Key, LiveRoute> {
    map k | k in routes && Elapsed(routes[k].lastSeen, now) < STALE_AFTER :: routes[k]
  }

  function LiveCells(hubPeers: map<Ip, AddrCell>, routes: map<Key, LiveRoute>): map<Ip, AddrCell> {
    map ip | ip in hubPeers && (exists k :: k in routes && k.ip == ip) :: hubPeers[ip]
  }

  lemma FreshMatch(routes: map<Key, LiveRoute>, model: map<Key, Route>, devObjs: seq<RemoteDevice>,
                   owned: set<LossStats>, now: nat)
    requires RoutesMatch(routes, model, devObjs, owned)
    ensures RoutesMatch(FreshOnly(routes, now), FreshRoutes(model, now), devObjs, owned)
  {
    forall k | k in routes ensures routes[k].lastSeen == model[k].lastSeen {
      assert RouteMatches(routes[k], model[k], k, devObjs);
    }
    FewerRoutes(routes, model, devObjs, owned, FreshOnly(routes, now), FreshRoutes(model, now));
  }

  function Without(routes: map<Key, LiveRoute>, key: Key): map<Key, LiveRoute> {
    map k | k in routes && k != key :: routes[k]
  }

  lemma UnrouteMatch(routes: map<Key, LiveRoute>, h: Hub, devObjs: seq<RemoteDevice>, owned: set<LossStats>, key: Key)
    requires RoutesMatch(routes, h.routes, devObjs, owned)
    ensures RoutesMatch(Without(routes, key), Unroute(h, key).routes, devObjs, owned)
  {
    FewerRoutes(routes, h.routes, devObjs, owned, Without(routes, key), Unroute(h, key).routes);
  }

  lemma SameHubs(routes: map<Key, LiveRoute>, h: Hub)
    requires routes.Keys == h.routes.Keys
    ensures forall ip :: HasRoute(h, ip) <==> exists k :: k in routes && k.ip == ip
  {
    forall ip ensures HasRoute(h, ip) <==> exists k :: k in routes && k.ip == ip {
      if k :| k in routes && k.ip == ip {
        assert k in h.routes;
      }
      if HasRoute(h, ip) {
        var k :| k in h.routes && k.ip == ip;
        assert k in routes;
      }
    }
  }

  lemma LiveMatch(hubPeers: map<Ip, AddrCell>, peers: map<Ip, nat>, cellObjs: seq<AddrCell>,
                  routes: map<Key, LiveRoute>, h: Hub)
    requires PeersMatch(hubPeers, peers, cellObjs) && h.peers == peers && routes.Keys == h.routes.Keys
    ensures PeersMatch(LiveCells(hubPeers, routes), LivePeers(h), cellObjs)
  {
    SameHubs(routes, h);
  }

  // What a device's reader gets when it asks.
  function NextEvent(devs: seq<Dev>, i: nat): Option<Event> {
    if i < |devs| && devs[i].open && devs[i].taken < |devs[i].sent| then Some(devs[i].sent[devs[i].taken]) else None
  }

  function SendOutcome(d: Dev): SendResult {
    if !d.open then ReceiverClosed else if QueueFull(d) then QueueIsFull else Sent
  }

  function AfterSend(devs: seq<Dev>, i: nat, e: Event, r: SendResult): seq<Dev>
    requires i < |devs|
  {
    if r == Sent then devs[i := devs[i].(sent := devs[i].sent + [e])] else devs
  }

  // Cells carry their own index, so writing one disturbs no other.
  lemma DistinctCells(cellObjs: seq<AddrCell>, cells: seq<SocketAddr>, owned: set<AddrCell>, i: nat)
    requires CellsMatch(cellObjs, cells, owned) && i < |cellObjs|
    ensures cellObjs[i] in owned && CellMatches(cellObjs[i], cells[i], i)
    ensures forall j :: 0 <= j < |cellObjs| && j != i ==> cellObjs[j] != cellObjs[i]
  {
    assert CellMatches(cellObjs[i], cells[i], i);
    forall j | 0 <= j < |cellObjs| && j != i
      ensures cellObjs[j] != cellObjs[i]
    {
      assert CellMatches(cellObjs[j], cells[j], j);
    }
  }

  // Queues carry their own index, so writing one disturbs no other device's entry.
  lemma DistinctQueues(devObjs: seq<RemoteDevice>, devs: seq<Dev>, cellObjs: seq<AddrCell>, owned: set<EventQueue>,
                       i: nat)
    requires DevicesMatch(devObjs, devs, cellObjs, owned) && i < |devObjs|
    ensures devObjs[i].queue in owned && DeviceMatches(devObjs[i], devs[i], i, cellObjs)
    ensures forall j :: 0 <= j < |devObjs| && j != i ==> devObjs[j].queue != devObjs[i].queue
  {
    assert DeviceMatches(devObjs[i], devs[i], i, cellObjs);
    forall j | 0 <= j < |devObjs| && j != i
      ensures devObjs[j].queue != devObjs[i].queue
    {
      assert DeviceMatches(devObjs[j], devs[j], j, cellObjs);
    }
  }

  class RemoteHub {
    var routes: map<Key, LiveRoute>
    var hubPeers: map<Ip, AddrCell>

    ghost var modelRoutes: map<Key, Route>
    ghost var modelPeers: map<Ip, nat>
    ghost var modelCells: seq<SocketAddr>
    ghost var modelDevs: seq<Dev>

    ghost var cellObjs: seq<AddrCell>
    var devObjs: seq<RemoteDevice>
    ghost var cells: set<AddrCell>
    ghost var queues: set<EventQueue>
    ghost var losses: set<LossStats>

    // The value of the routing model that this object stands for.
    ghost function Model(): Hub
      reads this
    {
      Hub(modelRoutes, modelPeers, modelCells, modelDevs)
    }

    ghost predicate Mirror()
      reads this, cells, queues, losses
    {
      && CellsMatch(cellObjs, modelCells, cells)
      && DevicesMatch(devObjs, modelDevs, cellObjs, queues)
      && RoutesMatch(routes, modelRoutes, devObjs, losses)
      && PeersMatch(hubPeers, modelPeers, cellObjs)
    }

    ghost predicate Valid()
      reads this, cells, queues, losses
    {
      Mirror() && Inv(Model())
    }

    constructor ()
      ensures Valid() && Model() == EMPTY && cells == {} && queues == {} && losses == {}
    {
      routes, hubPeers := map[], map[];
      modelRoutes, modelPeers, modelCells, modelDevs := map[], map[], [], [];
      cellObjs, devObjs := [], [];
      cells, queues, losses := {}, {}, {};
    }

    method MoveCell(from: SocketAddr)
      requires Mirror() && from.ip in hubPeers
      modifies this`modelCells, hubPeers[from.ip]
      ensures Mirror() && Model() == TouchPeer(old(Model()), from)
    {
      var shared := hubPeers[from.ip];
      ghost var i := modelPeers[from.ip];
      DistinctCells(cellObjs, modelCells, cells, i);
      if shared.addr != from {
        shared.addr := from;
      }
      ghost var was := modelCells;
      modelCells := modelCells[i := from];
      forall j | 0 <= j < |cellObjs|
        ensures cellObjs[j] in cells && CellMatches(cellObjs[j], modelCells[j], j)
      {
        assert old(CellMatches(cellObjs[j], was[j], j));
      }
    }

    method NewCell(addr: SocketAddr) returns (c: AddrCell)
      requires Mirror()
      modifies this`modelCells, this`cellObjs, this`cells
      ensures Mirror() && modelCells == old(modelCells) + [addr] && cellObjs == old(cellObjs) + [c]
      ensures fresh(c) && cells == old(cells) + {c}
    {
      c := new AddrCell(addr, |cellObjs|);
      AppendCell(cellObjs, modelCells, cells, c);
      MoreCells(devObjs, modelDevs, cellObjs, queues, c);
      MorePeers(hubPeers, modelPeers, cellObjs, c);
      cellObjs, modelCells, cells := cellObjs + [c], modelCells + [addr], cells + {c};
    }

    method StorePeer(ip: Ip, c: AddrCell)
      requires Mirror() && cellObjs != [] && cellObjs[|cellObjs| - 1] == c
      modifies this`hubPeers, this`modelPeers
      ensures Mirror() && hubPeers == old(hubPeers)[ip := c] && modelPeers == old(modelPeers)[ip := |cellObjs| - 1]
    {
      SetPeer(hubPeers, modelPeers, cellObjs, ip, c);
      hubPeers, modelPeers := hubPeers[ip := c], modelPeers[ip := |cellObjs| - 1];
    }

    method AddCell(from: SocketAddr)
      requires Mirror() && from.ip !in hubPeers
      modifies this`hubPeers, this`modelPeers, this`modelCells, this`cellObjs, this`cells
      ensures Mirror() && Model() == TouchPeer(old(Model()), from)
      ensures from.ip in hubPeers && fresh(hubPeers[from.ip]) && cells == old(cells) + {hubPeers[from.ip]}
    {
      var shared := NewCell(from);
      StorePeer(from.ip, shared);
    }

    method TouchHubPeer(from: SocketAddr) returns (shared: AddrCell)
      requires Mirror()
      modifies this`hubPeers, this`modelPeers, this`modelCells, this`cellObjs, this`cells, cells
      ensures Mirror() && Model() == TouchPeer(old(Model()), from)
      ensures from.ip in hubPeers && shared == hubPeers[from.ip]
      ensures forall o :: o in cells ==> o in old(cells) || fresh(o)
      ensures queues == old(queues) && losses == old(losses) && devObjs == old(devObjs)
    {
      if from.ip in hubPeers {
        DistinctCells(cellObjs, modelCells, cells, modelPeers[from.ip]);
        MoveCell(from);
      } else {
        AddCell(from);
      }
      shared := hubPeers[from.ip];
    }

    method RefreshRoute(key: Key, now: nat)
      requires Mirror() && key in routes
      modifies this`routes, this`modelRoutes
      ensures Mirror() && Model() == Refresh(old(Model()), key, now)
    {
      var r := routes[key].(lastSeen := now);
      assert RouteMatches(routes[key], modelRoutes[key], key, devObjs);
      SetRoute(routes, modelRoutes, devObjs, losses, key, r, modelRoutes[key].(lastSeen := now));
      routes := routes[key := r];
      modelRoutes := modelRoutes[key := modelRoutes[key].(lastSeen := now)];
    }

    method DropRoute(key: Key)
      requires Mirror()
      modifies this`routes, this`modelRoutes
      ensures Mirror() && Model() == Unroute(old(Model()), key)
      ensures cells == old(cells) && queues == old(queues) && losses == old(losses) && devObjs == old(devObjs)
    {
      UnrouteMatch(routes, Model(), devObjs, losses, key);
      routes, modelRoutes := Without(routes, key), Unroute(Model(), key).routes;
    }

    // One send on one queue; only the devices' part of the mirror is concerned.
    method SendOn(ghost i: nat, q: EventQueue, e: Event) returns (r: SendResult)
      requires DevicesMatch(devObjs, modelDevs, cellObjs, queues) && i < |devObjs| && devObjs[i].queue == q
      modifies this`modelDevs, queues
      ensures DevicesMatch(devObjs, modelDevs, cellObjs, queues)
      ensures i < |old(modelDevs)| && r == SendOutcome(old(modelDevs)[i])
      ensures modelDevs == AfterSend(old(modelDevs), i, e, r)
    {
      DistinctQueues(devObjs, modelDevs, cellObjs, queues, i);
      r := q.TrySend(e);
      ghost var was := modelDevs;
      modelDevs := AfterSend(was, i, e, r);
      forall j | 0 <= j < |devObjs|
        ensures devObjs[j].queue in queues && DeviceMatches(devObjs[j], modelDevs[j], j, cellObjs)
      {
        assert old(DeviceMatches(devObjs[j], was[j], j, cellObjs));
      }
    }

    method Enqueue(key: Key, e: Event) returns (r: SendResult)
      requires Mirror() && key in routes
      modifies this`modelDevs, queues
      ensures Mirror() && modelRoutes[key].dev < |old(modelDevs)|
      ensures r == SendOutcome(old(modelDevs)[modelRoutes[key].dev])
      ensures modelDevs == AfterSend(old(modelDevs), modelRoutes[key].dev, e, r)
      ensures cells == old(cells) && queues == old(queues) && losses == old(losses) && devObjs == old(devObjs)
    {
      assert RouteMatches(routes[key], modelRoutes[key], key, devObjs);
      r := SendOn(modelRoutes[key].dev, routes[key].tx, e);
    }

    method DropIfClosed(key: Key, r: SendResult)
      requires Mirror()
      modifies this`routes, this`modelRoutes
      ensures Mirror() && Model() == if r == ReceiverClosed then Unroute(old(Model()), key) else old(Model())
      ensures cells == old(cells) && queues == old(queues) && losses == old(losses) && devObjs == old(devObjs)
    {
      if r == ReceiverClosed {
        DropRoute(key);
      }
    }

    method SendOrDrop(key: Key, e: Event)
      requires Mirror() && key in routes
      modifies this`routes, this`modelRoutes, this`modelDevs, queues
      ensures Mirror() && Model() == TrySend(old(Model()), key, e)
      ensures cells == old(cells) && queues == old(queues) && losses == old(losses) && devObjs == old(devObjs)
    {
      var r := Enqueue(key, e);
      DropIfClosed(key, r);
    }

    method TouchRoute(key: Key, now: nat, from: SocketAddr)
      requires Mirror() && key in routes
      modifies this`routes, this`modelRoutes, this`hubPeers, this`modelPeers, this`modelCells, this`cellObjs,
               this`cells, cells
      ensures Mirror() && key in routes && Model() == TouchPeer(Refresh(old(Model()), key, now), from)
      ensures forall o :: o in cells ==> o in old(cells) || fresh(o)
      ensures queues == old(queues) && losses == old(losses) && devObjs == old(devObjs)
    {
      ghost var was := Model();
      RefreshRoute(key, now);
      var _ := TouchHubPeer(from);
      assert Model() == TouchPeer(Refresh(was, key, now), from);
      assert routes.Keys == modelRoutes.Keys;
    }

    method DeliverTo(now: nat, from: SocketAddr, key: Key, e: Event)
      requires Mirror() && key in routes
      modifies this`routes, this`modelRoutes, this`modelDevs, this`hubPeers, this`modelPeers, this`modelCells,
               this`cellObjs, this`cells, cells, queues
      ensures Mirror() && Model() == TrySend(TouchPeer(Refresh(old(Model()), key, now), from), key, e)
      ensures forall o :: o in cells ==> o in old(cells) || fresh(o)
      ensures queues == old(queues) && losses == old(losses) && devObjs == old(devObjs)
    {
      TouchRoute(key, now, from);
      SendOrDrop(key, e);
    }

    method Deliver(now: nat, from: SocketAddr, handle: u16, e: Event)
      requires Mirror()
      modifies this`routes, this`modelRoutes, this`modelDevs, this`hubPeers, this`modelPeers, this`modelCells,
               this`cellObjs, this`cells, cells, queues
      ensures Mirror() && Model() == RouteEvent(old(Model()), now, from, handle, e)
      ensures forall o :: o in cells ==> o in old(cells) || fresh(o)
      ensures queues == old(queues) && losses == old(losses) && devObjs == old(devObjs)
    {
      var key := Key(from.ip, handle);
      if key in routes {
        assert key in modelRoutes;
        DeliverTo(now, from, key, e);
      }
    }

    method RecordLoss(key: Key, seqNo: u16, now: nat)
      requires Mirror() && key in routes
      modifies this`modelRoutes, losses
      ensures Mirror() && Model() == RecordSeq(old(Model()), key, Some(seqNo), now)
      ensures cells == old(cells) && queues == old(queues) && losses == old(losses) && devObjs == old(devObjs)
    {
      DistinctLosses(routes, modelRoutes, devObjs, losses, key);
      ghost var was := modelRoutes;
      assert RouteMatches(routes[key], was[key], key, devObjs);
      routes[key].loss.Record(seqNo, now);
      modelRoutes := was[key := was[key].(loss := Recorded(was[key].loss, seqNo, now))];
      forall k | k in routes && k != key ensures RouteMatches(routes[k], modelRoutes[k], k, devObjs) {
        assert old(RouteMatches(routes[k], was[k], k, devObjs));
      }
    }

    method NoteSequence(key: Key, seqNo: Option<u16>, now: nat)
      requires Mirror()
      modifies this`modelRoutes, losses
      ensures Mirror() && Model() == RecordSeq(old(Model()), key, seqNo, now)
      ensures cells == old(cells) && queues == old(queues) && losses == old(losses) && devObjs == old(devObjs)
    {
      if seqNo.Some? && key in routes {
        RecordLoss(key, seqNo.value, now);
      }
    }

    method AddReceiver(key: Key, shared: AddrCell) returns (dev: RemoteDevice)
      requires Mirror() && key.ip in hubPeers && shared == hubPeers[key.ip]
      modifies this`modelDevs, this`devObjs, this`queues
      ensures Mirror() && devObjs == old(devObjs) + [dev]
      ensures dev.key == key && dev.peer == shared && dev.queue.index == |old(devObjs)|
      ensures modelDevs == old(modelDevs) + [Dev(key, modelPeers[key.ip], [], 0, true)]
      ensures forall o :: o in queues ==> o in old(queues) || fresh(o)
    {
      var queue := new EventQueue(|devObjs|);
      dev := new RemoteDevice(key, shared, queue);
      ghost var d := Dev(key, modelPeers[key.ip], [], 0, true);
      MoreObjects(routes, modelRoutes, devObjs, losses, dev);
      AppendDevice(devObjs, modelDevs, cellObjs, queues, dev, d);
      devObjs, modelDevs, queues := devObjs + [dev], modelDevs + [d], queues + {queue};
    }

    method AddRoute(now: nat, key: Key, dev: RemoteDevice)
      requires Mirror() && |devObjs| > 0 && devObjs[|devObjs| - 1] == dev && dev.key == key
      modifies this`routes, this`modelRoutes, this`losses
      ensures Mirror() && modelRoutes == old(modelRoutes)[key := Route(|devObjs| - 1, now, FRESH)]
      ensures forall o :: o in losses ==> o in old(losses) || fresh(o)
    {
      var loss := new LossStats(|devObjs| - 1);
      var r := LiveRoute(dev.queue, now, loss);
      ghost var m := Route(|devObjs| - 1, now, FRESH);
      MoreLosses(routes, modelRoutes, devObjs, losses, loss);
      SetRoute(routes, modelRoutes, devObjs, losses + {loss}, key, r, m);
      routes, modelRoutes, losses := routes[key := r], modelRoutes[key := m], losses + {loss};
    }

    method RegisterNew(now: nat, key: Key, shared: AddrCell) returns (dev: RemoteDevice)
      requires Mirror() && key.ip in hubPeers && shared == hubPeers[key.ip]
      modifies this`routes, this`modelRoutes, this`modelDevs, this`devObjs, this`queues, this`losses
      ensures Mirror() && dev.key == key && dev.peer == shared && devObjs == old(devObjs) + [dev]
      ensures Model() == old(Model()).(devs := old(modelDevs) + [Dev(key, modelPeers[key.ip], [], 0, true)],
                                       routes := old(modelRoutes)[key := Route(|old(modelDevs)|, now, FRESH)])
      ensures forall o :: o in queues ==> o in old(queues) || fresh(o)
      ensures forall o :: o in losses ==> o in old(losses) || fresh(o)
    {
      ghost var was, d := Model(), Dev(key, modelPeers[key.ip], [], 0, true);
      dev := AddReceiver(key, shared);
      AddRoute(now, key, dev);
      assert Model() == was.(devs := was.devs + [d], routes := was.routes[key := Route(|was.devs|, now, FRESH)]);
    }

    method PlaceDevice(now: nat, key: Key, shared: AddrCell, registryOpen: bool)
      returns (announced: Option<RemoteDevice>)
      requires Mirror() && key.ip in hubPeers && shared == hubPeers[key.ip] && key.ip in modelPeers
      modifies this`routes, this`modelRoutes, this`modelDevs, this`devObjs, this`queues, this`losses
      ensures Mirror() && Model() == Place(old(Model()), now, key, registryOpen)
      ensures forall o :: o in queues ==> o in old(queues) || fresh(o)
      ensures forall o :: o in losses ==> o in old(losses) || fresh(o)
      ensures if announced.Some? then devObjs == old(devObjs) + [announced.value] else devObjs == old(devObjs)
      ensures announced.Some? ==> announced.value.peer == shared
    {
      announced := None;
      assert routes.Keys == modelRoutes.Keys;
      if key in routes {
        RefreshRoute(key, now);
      } else if registryOpen {
        var dev := RegisterNew(now, key, shared);
        announced := Some(dev);
      }
    }

    method RegisterDevice(now: nat, from: SocketAddr, a: Announce, registryOpen: bool)
      returns (announced: Option<RemoteDevice>)
      requires Mirror()
      modifies this, cells
      ensures Mirror() && Model() == Register(old(Model()), now, from, a, registryOpen)
      ensures forall o :: o in cells ==> o in old(cells) || fresh(o)
      ensures forall o :: o in queues ==> o in old(queues) || fresh(o)
      ensures forall o :: o in losses ==> o in old(losses) || fresh(o)
      ensures if announced.Some? then devObjs == old(devObjs) + [announced.value] else devObjs == old(devObjs)
      ensures announced.Some? ==> from.ip in hubPeers && announced.value.peer == hubPeers[from.ip]
    {
      var shared := TouchHubPeer(from);
      announced := PlaceDevice(now, Key(from.ip, a.handle), shared, registryOpen);
    }

    method RetainFresh(now: nat)
      requires Mirror()
      modifies this`routes, this`modelRoutes
      ensures Mirror() && modelRoutes == FreshRoutes(old(modelRoutes), now)
    {
      FreshMatch(routes, modelRoutes, devObjs, losses, now);
      routes, modelRoutes := FreshOnly(routes, now), FreshRoutes(modelRoutes, now);
    }

    method RetainHubs()
      requires Mirror()
      modifies this`hubPeers, this`modelPeers
      ensures Mirror() && modelPeers == LivePeers(old(Model()))
    {
      LiveMatch(hubPeers, modelPeers, cellObjs, routes, Model());
      hubPeers, modelPeers := LiveCells(hubPeers, routes), LivePeers(Model());
    }

    method SweepRoutes(now: nat)
      requires Valid()
      modifies this`routes, this`hubPeers, this`modelRoutes, this`modelPeers
      ensures Valid() && Model() == SweepAt(old(Model()), now)
    {
      ghost var was := Model();
      RetainFresh(now);
      RetainHubs();
      assert Model() == SweepAt(was, now);
      SweepInv(was, now);
    }

    // The three messages that carry an event.
    method HandleEvent(now: nat, from: SocketAddr, m: RemoteMsg, ghost registryOpen: bool)
      requires Mirror() && (m.Imu? || m.Battery? || m.Button?)
      modifies this, cells, queues, losses
      ensures Mirror() && Model() == RemoteRouting.HandleMsg(old(Model()), now, from, m, registryOpen)
      ensures forall o :: o in cells ==> o in old(cells) || fresh(o)
      ensures queues == old(queues) && losses == old(losses) && devObjs == old(devObjs)
    {
      match m {
        case Imu(handle, seqNo, samples) =>
          NoteSequence(Key(from.ip, handle), seqNo, now);
          Deliver(now, from, handle, ImuEvent(samples));
        case Battery(handle, fraction, charging) => Deliver(now, from, handle, BatteryEvent(fraction, charging));
        case Button(handle, reset) => Deliver(now, from, handle, ResetEvent(reset));
      }
    }

    // One datagram's message; a hello is answered with an acknowledgement to its sender.
    method HandleMsg(now: nat, from: SocketAddr, m: RemoteMsg, registryOpen: bool)
      returns (reply: Option<seq<u8>>, announced: Option<RemoteDevice>)
      requires Valid()
      modifies this, cells, queues, losses
      ensures Valid() && Model() == RemoteRouting.HandleMsg(old(Model()), now, from, m, registryOpen)
      ensures forall o :: o in cells ==> o in old(cells) || fresh(o)
      ensures forall o :: o in queues ==> o in old(queues) || fresh(o)
      ensures forall o :: o in losses ==> o in old(losses) || fresh(o)
      ensures reply == if m.Hello? then Some(HelloAckEcho(m.ts)) else None
      ensures if announced.Some? then devObjs == old(devObjs) + [announced.value] else devObjs == old(devObjs)
      ensures announced.Some? ==> from.ip in hubPeers && announced.value.peer == hubPeers[from.ip]
    {
      HandleMsgInv(Model(), now, from, m, registryOpen);
      reply, announced := None, None;
      match m {
        case Hello(_, _, ts) =>
          SameHubs(routes, Model());
          if exists k :: k in routes && k.ip == from.ip {
            var _ := TouchHubPeer(from);
          }
          reply := Some(HelloAckEcho(ts));
        case Announced(a) => announced := RegisterDevice(now, from, a, registryOpen);
        case Remove(handle) => DropRoute(Key(from.ip, handle));
        case _ => HandleEvent(now, from, m, registryOpen);
      }
    }

    method TakeNext(i: nat) returns (e: Event)
      requires Mirror() && i < |devObjs| && devObjs[i].queue.open
      requires devObjs[i].queue.taken < |devObjs[i].queue.sent|
      modifies this`modelDevs, queues
      ensures Mirror() && |modelDevs| == |old(modelDevs)|
      ensures modelDevs == old(modelDevs)[i := old(modelDevs)[i].(taken := old(modelDevs)[i].taken + 1)]
      ensures NextEvent(old(modelDevs), i) == Some(e)
    {
      DistinctQueues(devObjs, modelDevs, cellObjs, queues, i);
      assert DeviceMatches(devObjs[i], modelDevs[i], i, cellObjs);
      e := devObjs[i].queue.sent[devObjs[i].queue.taken];
      ghost var was := modelDevs;
      devObjs[i].queue.taken := devObjs[i].queue.taken + 1;
      modelDevs := was[i := was[i].(taken := was[i].taken + 1)];
      forall j | 0 <= j < |devObjs|
        ensures devObjs[j].queue in queues && DeviceMatches(devObjs[j], modelDevs[j], j, cellObjs)
      {
        assert old(DeviceMatches(devObjs[j], was[j], j, cellObjs));
      }
    }

    method Close(i: nat)
      requires Mirror() && i < |devObjs|
      modifies this`modelDevs, queues
      ensures Mirror() && |modelDevs| == |old(modelDevs)|
      ensures modelDevs == old(modelDevs)[i := old(modelDevs)[i].(open := false)]
    {
      DistinctQueues(devObjs, modelDevs, cellObjs, queues, i);
      ghost var was := modelDevs;
      devObjs[i].queue.open := false;
      modelDevs := was[i := was[i].(open := false)];
      forall j | 0 <= j < |devObjs|
        ensures devObjs[j].queue in queues && DeviceMatches(devObjs[j], modelDevs[j], j, cellObjs)
      {
        assert old(DeviceMatches(devObjs[j], was[j], j, cellObjs));
      }
    }

    method TakeIfAny(i: nat) returns (e: Option<Event>)
      requires Mirror()
      modifies this`modelDevs, queues
      ensures Mirror() && Model() == Step(old(Model()), RemoteRouting.Consume(i))
      ensures e == NextEvent(old(modelDevs), i)
    {
      e := None;
      assert i < |devObjs| ==> DeviceMatches(devObjs[i], modelDevs[i], i, cellObjs);
      if i < |devObjs| && devObjs[i].queue.open && devObjs[i].queue.taken < |devObjs[i].queue.sent| {
        var next := TakeNext(i);
        e := Some(next);
      }
    }

    // What a device's reader does between datagrams: take the oldest event it has not had.
    method Consume(i: nat) returns (e: Option<Event>)
      requires Valid()
      modifies this`modelDevs, queues
      ensures Valid() && Model() == Step(old(Model()), RemoteRouting.Consume(i))
      ensures e == NextEvent(old(modelDevs), i)
    {
      StepInv(Model(), RemoteRouting.Consume(i));
      e := TakeIfAny(i);
    }

    // The reader goes away; its queue keeps what it was sent.
    method CloseReceiver(i: nat)
      requires Valid()
      modifies this`modelDevs, queues
      ensures Valid() && Model() == Step(old(Model()), RemoteRouting.CloseReceiver(i))
    {
      StepInv(Model(), RemoteRouting.CloseReceiver(i));
      if i < |devObjs| {
        Close(i);
      }
    }
  }
}
