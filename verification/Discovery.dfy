// Discovery: a breadth-first search along LLDP neighbours from a seed device.
module Discovery {
  import opened Wrappers
  import opened MibTables
  import opened LldpTable

  datatype Identity = Identity(sysDescr: string, sysName: string)

  // What the fixed tables say of a device, with their defaults.
  datatype Facts = Facts(ip: string, model: string, deviceType: string, floor: Option<int>)

  datatype Device = Device(deviceId: string, port: nat, identity: Identity, facts: Facts)

  // A decoded row of a wireless or routing table.
  type Row = map<string, string>

  // The tables that only the primary firewall is asked for.
  datatype PrimaryTables = PrimaryTables(aps: seq<Row>, clients: seq<Row>, routes: seq<Row>)

  const PRIMARY := "fg-primary"

  // `target` is the resolved device, if the neighbour's name resolves.
  datatype Edge = Edge(source: string, targetSysName: string, sourcePort: string, targetPort: string, target: Option<string>)

  // The agents as they answer during one discovery, by port, and the fixed tables of
  // known devices and names.
  datatype Network = Network(
    ports: map<string, nat>,
    facts: string -> Facts,
    resolve: string -> Option<string>,
    identity: nat -> Option<Identity>,
    neighbors: nat -> seq<Neighbor>,
    arp: nat -> seq<ArpRow>,
    mac: nat -> seq<FdbRow>,
    primary: nat -> PrimaryTables)

  predicate Responds(net: Network, d: string) {
    d in net.ports && net.identity(net.ports[d]).Some?
  }

  // One of a's neighbours resolves to the known device b.
  predicate Links(net: Network, a: string, b: string) {
    a in net.ports && b in net.ports &&
    exists i :: 0 <= i < |net.neighbors(net.ports[a])| && net.resolve(net.neighbors(net.ports[a])[i].sysName) == Some(b)
  }

  // A walk along neighbours on which every device but possibly the last responds.
  ghost predicate Path(net: Network, p: seq<string>) {
    p != [] && p[0] in net.ports &&
    forall i :: 0 <= i < |p| - 1 ==> Responds(net, p[i]) && Links(net, p[i], p[i + 1])
  }

  ghost predicate Reachable(net: Network, seed: string, d: string) {
    exists p: seq<string> :: Path(net, p) && p[0] == seed && p[|p| - 1] == d
  }

  lemma ReachNext(net: Network, seed: string, a: string, b: string)
    requires Reachable(net, seed, a) && Responds(net, a) && Links(net, a, b)
    ensures Reachable(net, seed, b)
  {
    var p: seq<string> :| Path(net, p) && p[0] == seed && p[|p| - 1] == a;
    var q := p + [b];
    forall i | 0 <= i < |q| - 1 ensures Responds(net, q[i]) && Links(net, q[i], q[i + 1]) {
      if i < |p| - 1 { assert q[i + 1] == p[i + 1]; }
    }
    assert Path(net, q) && q[|q| - 1] == b;
  }

  // Whatever contains the seed and is closed under neighbours of responding devices
  // contains all that is reachable.
  lemma {:induction false} ClosedCovers(net: Network, s: set<string>, p: seq<string>)
    requires Path(net, p) && p[0] in s
    requires forall a, b :: a in s && Responds(net, a) && Links(net, a, b) ==> b in s
    ensures p[|p| - 1] in s
  {
    if |p| > 1 {
      var q := p[1..];
      assert Responds(net, p[0]) && Links(net, p[0], p[1]);
      forall i | 0 <= i < |q| - 1 ensures Responds(net, q[i]) && Links(net, q[i], q[i + 1]) {
        assert q[i] == p[i + 1] && q[i + 1] == p[(i + 1) + 1];
      }
      ClosedCovers(net, s, q);
    }
  }

  function EdgeTo(net: Network, source: string, n: Neighbor): Edge {
    Edge(source, n.sysName, n.localPort, n.remotePort, net.resolve(n.sysName))
  }

  // The LLDP edges of one device, and of the devices of a list in order.
  function EdgesOf(net: Network, d: Device, count: nat): seq<Edge>
    requires count <= |net.neighbors(d.port)|
  {
    if count == 0 then []
    else EdgesOf(net, d, count - 1) + [EdgeTo(net, d.deviceId, net.neighbors(d.port)[count - 1])]
  }

  function AllEdges(net: Network, devices: seq<Device>): seq<Edge> {
    if devices == [] then []
    else
      var last := devices[|devices| - 1];
      AllEdges(net, devices[..|devices| - 1]) + EdgesOf(net, last, |net.neighbors(last.port)|)
  }

  datatype Topology = Topology(
    devices: seq<Device>,
    edges: seq<Edge>,
    arp: map<string, seq<ArpRow>>,
    mac: map<string, seq<FdbRow>>,
    primary: PrimaryTables)

  function NoPrimary(): PrimaryTables {
    PrimaryTables([], [], [])
  }

  // The non-empty tables of these devices.
  function TablesOf<T>(ids: set<string>, ports: map<string, nat>, read: nat -> seq<T>): map<string, seq<T>> {
    map d | d in ids && d in ports && read(ports[d]) != [] :: read(ports[d])
  }

  lemma TablesAdd<T>(ids: set<string>, ports: map<string, nat>, read: nat -> seq<T>, d: string)
    requires d in ports && d !in ids
    ensures TablesOf(ids + {d}, ports, read) ==
            if read(ports[d]) != [] then TablesOf(ids, ports, read)[d := read(ports[d])] else TablesOf(ids, ports, read)
  {}

  // The listed devices are distinct, and edges and tables are theirs.
  ghost predicate Described(net: Network, t: Topology) {
    && (forall i :: 0 <= i < |t.devices| ==> OfNetwork(net, t.devices[i]))
    && (forall i, j :: 0 <= i < j < |t.devices| ==> t.devices[i].deviceId != t.devices[j].deviceId)
    && t.edges == AllEdges(net, t.devices)
    && t.arp == TablesOf(Ids(t.devices), net.ports, net.arp)
    && t.mac == TablesOf(Ids(t.devices), net.ports, net.mac)
    && t.primary == if PRIMARY in Ids(t.devices) && PRIMARY in net.ports then net.primary(net.ports[PRIMARY]) else NoPrimary()
  }

  predicate OfNetwork(net: Network, d: Device) {
    d.deviceId in net.ports && d.port == net.ports[d.deviceId] && net.identity(d.port) == Some(d.identity)
    && d.facts == net.facts(d.deviceId)
  }

  function Ids(devices: seq<Device>): set<string> {
    set i | 0 <= i < |devices| :: devices[i].deviceId
  }

  function Queued(queue: seq<(string, nat)>): set<string> {
    set i | 0 <= i < |queue| :: queue[i].0
  }

  // What has been visited and what is waiting: all reachable, and closed under the
  // neighbours of responding visited devices.
  ghost predicate Frontier(net: Network, seed: string, visited: set<string>, waiting: set<string>) {
    && visited <= net.ports.Keys && waiting <= net.ports.Keys
    && (forall d :: d in visited || d in waiting ==> Reachable(net, seed, d))
    && seed in visited + waiting
    && (forall a, b :: a in visited && Responds(net, a) && Links(net, a, b) ==> b in visited || b in waiting)
  }

  ghost predicate WithPorts(net: Network, queue: seq<(string, nat)>) {
    forall i :: 0 <= i < |queue| ==> queue[i].0 in net.ports && queue[i].1 == net.ports[queue[i].0]
  }

  function RespondingIn(net: Network, visited: set<string>): set<string> {
    set d | d in visited && Responds(net, d)
  }

  // Exactly the visited devices that respond are listed.
  ghost predicate Listing(net: Network, visited: set<string>, t: Topology) {
    Described(net, t) && Ids(t.devices) == RespondingIn(net, visited)
  }

  // The state of the search between two devices.
  ghost predicate Searching(net: Network, seed: string, visited: set<string>, queue: seq<(string, nat)>, t: Topology) {
    WithPorts(net, queue) && Frontier(net, seed, visited, Queued(queue)) && Listing(net, visited, t)
  }

  // The known devices that d's neighbours resolve to.
  function Targets(net: Network, d: string): set<string> {
    set b | b in net.ports && Links(net, d, b)
  }

  lemma VisitSilent(net: Network, seed: string, visited: set<string>, waiting: set<string>, d: string)
    requires Frontier(net, seed, visited, waiting + {d})
    requires d in visited || !Responds(net, d)
    ensures Frontier(net, seed, visited + {d}, waiting)
  {}

  lemma VisitResponding(net: Network, seed: string, visited: set<string>, waiting: set<string>, d: string)
    requires Frontier(net, seed, visited, waiting + {d}) && Responds(net, d)
    ensures Frontier(net, seed, visited + {d}, waiting + (Targets(net, d) - (visited + {d})))
  {
    forall b | b in Targets(net, d) ensures Reachable(net, seed, b) {
      ReachNext(net, seed, d, b);
    }
  }

  // The unvisited known devices that the first `count` neighbours resolve to.
  function NewTargets(net: Network, visited: set<string>, port: nat, count: nat): seq<(string, nat)>
    requires count <= |net.neighbors(port)|
  {
    if count == 0 then []
    else
      NewTargets(net, visited, port, count - 1) +
      match net.resolve(net.neighbors(port)[count - 1].sysName)
      case None => []
      case Some(target) => if target !in visited && target in net.ports then [(target, net.ports[target])] else []
  }

  // One of the first `count` neighbours resolves to d.
  predicate LinksWithin(net: Network, port: nat, count: nat, d: string)
    requires count <= |net.neighbors(port)|
  {
    exists i :: 0 <= i < count && net.resolve(net.neighbors(port)[i].sysName) == Some(d)
  }

  lemma {:induction false} NewTargetsMean(net: Network, visited: set<string>, port: nat, count: nat)
    requires count <= |net.neighbors(port)|
    ensures WithPorts(net, NewTargets(net, visited, port, count))
    ensures forall d :: d in Queued(NewTargets(net, visited, port, count)) <==>
              (d in net.ports && d !in visited && LinksWithin(net, port, count, d))
  {
    if count > 0 {
      NewTargetsMean(net, visited, port, count - 1);
      var front, all := NewTargets(net, visited, port, count - 1), NewTargets(net, visited, port, count);
      var added := all[|front|..];
      assert all == front + added;
      QueuedConcat(front, added);
      var target := net.resolve(net.neighbors(port)[count - 1].sysName);
      assert forall d :: LinksWithin(net, port, count, d) <==> LinksWithin(net, port, count - 1, d) || target == Some(d);
      if added != [] {
        assert added == [(target.value, net.ports[target.value])];
        QueuedHead(added);
      }
    }
  }

  lemma NewTargetsAreTargets(net: Network, visited: set<string>, d: string)
    requires d in net.ports
    ensures var port := net.ports[d];
            Queued(NewTargets(net, visited, port, |net.neighbors(port)|)) == Targets(net, d) - visited
  {
    NewTargetsMean(net, visited, net.ports[d], |net.neighbors(net.ports[d])|);
  }

  lemma QueuedConcat(a: seq<(string, nat)>, b: seq<(string, nat)>)
    ensures Queued(a + b) == Queued(a) + Queued(b)
  {
    forall d | d in Queued(b) ensures d in Queued(a + b) {
      var i :| 0 <= i < |b| && b[i].0 == d;
      assert (a + b)[|a| + i].0 == d;
    }
    forall d | d in Queued(a) ensures d in Queued(a + b) {
      var i :| 0 <= i < |a| && a[i].0 == d;
      assert (a + b)[i].0 == d;
    }
  }

  lemma QueuedHead(queue: seq<(string, nat)>)
    requires queue != []
    ensures Queued(queue) == {queue[0].0} + Queued(queue[1..])
  {
    assert queue == [queue[0]] + queue[1..];
    QueuedConcat([queue[0]], queue[1..]);
    assert Queued([queue[0]]) == {queue[0].0} by {
      assert [queue[0]][0].0 in Queued([queue[0]]);
    }
  }

  // A device seen before, or one that does not answer, leaves the queue.
  lemma Dropped(net: Network, seed: string, visited: set<string>, queue: seq<(string, nat)>, t: Topology)
    requires Searching(net, seed, visited, queue, t) && queue != []
    requires queue[0].0 in visited || net.identity(queue[0].1) == None
    ensures Searching(net, seed, visited + {queue[0].0}, queue[1..], t)
  {
    var d := queue[0].0;
    QueuedHead(queue);
    VisitSilent(net, seed, visited, Queued(queue[1..]), d);
    assert RespondingIn(net, visited + {d}) == RespondingIn(net, visited);
  }

  function Add(net: Network, t: Topology, d: Device): Topology {
    Topology(
      t.devices + [d],
      t.edges + EdgesOf(net, d, |net.neighbors(d.port)|),
      if net.arp(d.port) != [] then t.arp[d.deviceId := net.arp(d.port)] else t.arp,
      if net.mac(d.port) != [] then t.mac[d.deviceId := net.mac(d.port)] else t.mac,
      if d.deviceId == PRIMARY then net.primary(d.port) else t.primary)
  }

  lemma IdsAppend(devices: seq<Device>, d: Device)
    ensures Ids(devices + [d]) == Ids(devices) + {d.deviceId}
  {
    var all := devices + [d];
    assert all[|devices|].deviceId in Ids(all);
    forall i | 0 <= i < |devices| ensures devices[i].deviceId in Ids(all) {
      assert all[i] == devices[i];
    }
  }

  lemma AddDescribed(net: Network, t: Topology, d: Device)
    requires Described(net, t) && OfNetwork(net, d) && d.deviceId !in Ids(t.devices)
    ensures Described(net, Add(net, t, d))
    ensures Ids(Add(net, t, d).devices) == Ids(t.devices) + {d.deviceId}
  {
    var devices := t.devices + [d];
    assert devices[..|devices| - 1] == t.devices;
    IdsAppend(t.devices, d);
    TablesAdd(Ids(t.devices), net.ports, net.arp, d.deviceId);
    TablesAdd(Ids(t.devices), net.ports, net.mac, d.deviceId);
    forall i, j | 0 <= i < j < |devices| ensures devices[i].deviceId != devices[j].deviceId {
      assert t.devices[i].deviceId in Ids(t.devices);
    }
  }

  // A device that answers is listed ...
  lemma Listed(net: Network, visited: set<string>, t: Topology, d: Device)
    requires Listing(net, visited, t) && OfNetwork(net, d) && d.deviceId !in visited
    ensures Listing(net, visited + {d.deviceId}, Add(net, t, d))
  {
    AddDescribed(net, t, d);
    assert RespondingIn(net, visited + {d.deviceId}) == RespondingIn(net, visited) + {d.deviceId};
  }

  // ... and its new neighbours are queued.
  lemma NeighborsQueued(net: Network, seed: string, visited: set<string>, queue: seq<(string, nat)>, d: string)
    requires queue != [] && queue[0].0 == d && WithPorts(net, queue) && Responds(net, d)
    requires Frontier(net, seed, visited, Queued(queue))
    ensures var now, port := visited + {d}, net.ports[d];
            var next := queue[1..] + NewTargets(net, now, port, |net.neighbors(port)|);
            WithPorts(net, next) && Frontier(net, seed, now, Queued(next))
  {
    var now, port := visited + {d}, net.ports[d];
    QueuedHead(queue);
    QueuedConcat(queue[1..], NewTargets(net, now, port, |net.neighbors(port)|));
    NewTargetsMean(net, now, port, |net.neighbors(port)|);
    NewTargetsAreTargets(net, now, d);
    VisitResponding(net, seed, visited, Queued(queue[1..]), d);
  }

  lemma Discovered(net: Network, seed: string, visited: set<string>, queue: seq<(string, nat)>, t: Topology, d: Device)
    requires Searching(net, seed, visited, queue, t) && queue != [] && queue[0].0 !in visited
    requires d.deviceId == queue[0].0 && d.port == queue[0].1 && net.identity(d.port) == Some(d.identity)
    requires d.facts == net.facts(d.deviceId)
    ensures var now := visited + {d.deviceId};
            Searching(net, seed, now, queue[1..] + NewTargets(net, now, d.port, |net.neighbors(d.port)|), Add(net, t, d))
  {
    NeighborsQueued(net, seed, visited, queue, d.deviceId);
    Listed(net, visited, t, d);
  }

  // When the queue is empty every responding device that can be reached has been listed.
  lemma Finished(net: Network, seed: string, visited: set<string>, t: Topology)
    requires Searching(net, seed, visited, [], t)
    ensures forall d :: d in Ids(t.devices) <==> (Responds(net, d) && Reachable(net, seed, d))
  {
    forall d | Responds(net, d) && Reachable(net, seed, d) ensures d in visited {
      var p: seq<string> :| Path(net, p) && p[0] == seed && p[|p| - 1] == d;
      ClosedCovers(net, visited, p);
    }
  }

  // Each responding device that can be reached is listed exactly once, with its edges
  // and tables; None when the seed is unknown (KeyError).
  method DiscoverFromSeed(net: Network, seed: string) returns (r: Option<Topology>)
    ensures seed !in net.ports ==> r == None
    ensures seed in net.ports ==> r.Some? && Described(net, r.value)
    ensures seed in net.ports ==> forall d :: d in Ids(r.value.devices) <==> (Responds(net, d) && Reachable(net, seed, d))
  {
    if seed !in net.ports {
      return None;
    }
    var visited: set<string> := {};
    var t := Topology([], [], map[], map[], NoPrimary());
    var queue := [(seed, net.ports[seed])];
    Begin(net, seed);
    while queue != []
      invariant Searching(net, seed, visited, queue, t)
      decreases |net.ports.Keys - visited|, |queue|
    {
      visited, queue, t := VisitFirst(net, seed, visited, queue, t);
    }
    Finished(net, seed, visited, t);
    r := Some(t);
  }

  // The body of the loop: take the first waiting device and query it unless it was seen.
  method VisitFirst(net: Network, ghost seed: string, visited: set<string>, queue: seq<(string, nat)>, t: Topology)
    returns (visited': set<string>, queue': seq<(string, nat)>, t': Topology)
    requires Searching(net, seed, visited, queue, t) && queue != []
    ensures Searching(net, seed, visited', queue', t')
    ensures |net.ports.Keys - visited'| < |net.ports.Keys - visited|
            || (|net.ports.Keys - visited'| == |net.ports.Keys - visited| && |queue'| < |queue|)
  {
    var (deviceId, port) := queue[0];
    visited', queue', t' := visited, queue[1..], t;
    if deviceId in visited {
      Dropped(net, seed, visited, queue, t);
      assert visited + {deviceId} == visited;
      return;
    }
    visited' := visited + {deviceId};
    Fewer(net, seed, visited, queue, t);
    var identity := net.identity(port);
    if identity == None {
      Dropped(net, seed, visited, queue, t);
      return;
    }
    var device := Device(deviceId, port, identity.value, net.facts(deviceId));
    Discovered(net, seed, visited, queue, t, device);
    var targets;
    t', targets := QueryDevice(net, visited', t, device);
    queue' := queue' + targets;
  }

  // The rest of the loop body for a device that answered: its neighbours and its tables.
  method QueryDevice(net: Network, visited: set<string>, before: Topology, device: Device)
    returns (t: Topology, targets: seq<(string, nat)>)
    ensures t == Add(net, before, device)
    ensures targets == NewTargets(net, visited, device.port, |net.neighbors(device.port)|)
  {
    t := before.(devices := before.devices + [device]);
    targets := [];
    var neighbors := net.neighbors(device.port);
    for i := 0 to |neighbors|
      invariant targets == NewTargets(net, visited, device.port, i)
      invariant t == before.(devices := before.devices + [device], edges := before.edges + EdgesOf(net, device, i))
    {
      var neighbor := neighbors[i];
      var target := net.resolve(neighbor.sysName);
      if target.Some? && target.value !in visited && target.value in net.ports {
        targets := targets + [(target.value, net.ports[target.value])];
      }
      t := t.(edges := t.edges + [EdgeTo(net, device.deviceId, neighbor)]);
    }
    var arp := net.arp(device.port);
    if arp != [] {
      t := t.(arp := t.arp[device.deviceId := arp]);
    }
    var mac := net.mac(device.port);
    if mac != [] {
      t := t.(mac := t.mac[device.deviceId := mac]);
    }
    if device.deviceId == PRIMARY {
      t := t.(primary := net.primary(device.port));
    }
  }

  lemma Begin(net: Network, seed: string)
    requires seed in net.ports
    ensures Searching(net, seed, {}, [(seed, net.ports[seed])], Topology([], [], map[], map[], NoPrimary()))
  {
    assert Path(net, [seed]);
    QueuedHead([(seed, net.ports[seed])]);
    assert Reachable(net, seed, seed);
  }

  lemma Fewer(net: Network, seed: string, visited: set<string>, queue: seq<(string, nat)>, t: Topology)
    requires Searching(net, seed, visited, queue, t) && queue != [] && queue[0].0 !in visited
    ensures |net.ports.Keys - (visited + {queue[0].0})| < |net.ports.Keys - visited|
  {
    var d, known := queue[0].0, net.ports.Keys;
    assert known - visited == (known - (visited + {d})) + {d};
  }
}
