// The simulator's in-memory topology: access points with cached client counts, and
// switches whose tables move with a connection.
module TopologyState {
  import opened DottedText
  import opened MovedRows

  datatype LldpNeighbor = LldpNeighbor(localPort: string, remoteId: string, remotePort: string, remoteName: string, remoteIp: string)

  datatype ArpEntry = ArpEntry(ip: string, mac: string, vlan: int, port: string)

  datatype MacEntry = MacEntry(mac: string, vlan: int, port: string)

  class WirelessClient {
    const mac: string
    var apId: string
    var rssi: int

    constructor (mac: string, apId: string, rssi: int)
      ensures this.mac == mac && this.apId == apId && this.rssi == rssi
    {
      this.mac, this.apId, this.rssi := mac, apId, rssi;
    }
  }

  class APInfo {
    const apId: string
    const name: string
    const ip: string
    var parentSwitch: string
    var parentPort: string
    var clientCount: int

    constructor (apId: string, name: string, ip: string, clientCount: int)
      ensures this.apId == apId && this.name == name && this.ip == ip && this.clientCount == clientCount
    {
      this.apId, this.name, this.ip, this.clientCount := apId, name, ip, clientCount;
      parentSwitch, parentPort := "", "";
    }
  }

  class DeviceState {
    const ip: string
    var lldpNeighbors: seq<LldpNeighbor>
    var arpTable: seq<ArpEntry>
    var macTable: seq<MacEntry>

    constructor (ip: string)
      ensures this.ip == ip && lldpNeighbors == [] && arpTable == [] && macTable == []
    {
      this.ip, lldpNeighbors, arpTable, macTable := ip, [], [], [];
    }
  }

  // A MAC in lower case with colons, on ASCII.
  function Normalise(mac: string): (r: string)
    ensures |r| == |mac|
  {
    seq(|mac|, i requires 0 <= i < |mac| =>
      if mac[i] == '-' then ':' else if 'A' <= mac[i] <= 'Z' then mac[i] + 32 as char else mac[i])
  }

  function MacMatch(mac1: string, mac2: string): string {
    if Normalise(mac1) == Normalise(mac2) then mac1 else ""
  }

  // The walker's test for "this is the client": true as well for a client without a MAC.
  predicate IsClient(mac: string, wanted: string) {
    mac == MacMatch(mac, wanted)
  }

  lemma IsClientMeans(mac: string, wanted: string)
    ensures IsClient(mac, wanted) <==> (Normalise(mac) == Normalise(wanted) || mac == "")
  {}

  // Where each client is.
  ghost function Places(clients: seq<WirelessClient>): (r: seq<string>)
    reads clients
    ensures |r| == |clients| && forall i :: 0 <= i < |clients| ==> r[i] == clients[i].apId
  {
    seq(|clients|, i requires 0 <= i < |clients| reads clients => clients[i].apId)
  }

  function CountIn(places: seq<string>, id: string): nat {
    if places == [] then 0
    else CountIn(places[..|places| - 1], id) + if places[|places| - 1] == id then 1 else 0
  }

  // The counts are right for clients at these places.
  ghost predicate Agree(counts: map<string, int>, places: seq<string>) {
    forall id :: id in counts ==> counts[id] == CountIn(places, id)
  }

  function Bump(counts: map<string, int>, id: string, amount: int): map<string, int> {
    if id in counts then counts[id := counts[id] + amount] else counts
  }

  // The count of an access point a client leaves, clamped at zero.
  function LeaveCount(counts: map<string, int>, id: string): map<string, int> {
    if id in counts then counts[id := if 0 <= counts[id] - 1 then counts[id] - 1 else 0] else counts
  }

  function MoveCount(counts: map<string, int>, leaving: string, entering: string): map<string, int> {
    Bump(LeaveCount(counts, leaving), entering, 1)
  }

  // The first client that a MAC names; the number of clients if there is none.
  function FirstClient(clients: seq<WirelessClient>, mac: string): (i: nat)
    ensures i <= |clients|
    ensures i < |clients| ==> IsClient(clients[i].mac, mac)
    ensures forall j :: 0 <= j < i ==> !IsClient(clients[j].mac, mac)
  {
    if clients == [] then 0
    else if IsClient(clients[0].mac, mac) then 0
    else 1 + FirstClient(clients[1..], mac)
  }

  // One client moving changes the counts of just the place it leaves and the place it enters.
  lemma {:induction false} CountMoves(places: seq<string>, i: nat, entering: string, id: string)
    requires i < |places|
    ensures CountIn(places[i := entering], id) == CountIn(places, id)
              - (if places[i] == id then 1 else 0) + (if entering == id then 1 else 0)
  {
    var n := |places| - 1;
    if i < n {
      CountMoves(places[..n], i, entering, id);
      assert places[i := entering][..n] == places[..n][i := entering];
    } else {
      assert places[i := entering][..n] == places[..n];
    }
  }

  lemma {:induction false} CountPositive(places: seq<string>, i: nat)
    requires i < |places|
    ensures CountIn(places, places[i]) > 0
  {
    if i < |places| - 1 { CountPositive(places[..|places| - 1], i); }
  }

  // A move keeps right counts right; the clamp does not fire.
  lemma MoveAgrees(counts: map<string, int>, places: seq<string>, i: nat, entering: string)
    requires Agree(counts, places) && i < |places| && places[i] != entering
    ensures Agree(MoveCount(counts, places[i], entering), places[i := entering])
    ensures MoveCount(counts, places[i], entering) == Bump(Bump(counts, places[i], -1), entering, 1)
  {
    CountPositive(places, i);
    forall id | id in counts ensures MoveCount(counts, places[i], entering)[id] == CountIn(places[i := entering], id) {
      CountMoves(places, i, entering, id);
    }
  }

  lemma AddAgrees(counts: map<string, int>, places: seq<string>, place: string)
    requires Agree(counts, places)
    ensures Agree(Bump(counts, place, 1), places + [place])
  {
    assert (places + [place])[..|places|] == places;
  }

  // ----- whole runs, on the counts and places alone -----

  datatype State = State(counts: map<string, int>, places: seq<string>)

  // Registering an access point with its initial count, adding a client, moving client i.
  datatype Op = Register(id: string, count: int) | Join(place: string) | Move(i: nat, entering: string)

  function Step(s: State, op: Op): State {
    match op
    case Register(id, count) => State(s.counts[id := count], s.places)
    case Join(place) => State(Bump(s.counts, place, 1), s.places + [place])
    case Move(i, entering) =>
      if i < |s.places| && s.places[i] != entering
      then State(MoveCount(s.counts, s.places[i], entering), s.places[i := entering])
      else s
  }

  function Run(s: State, ops: seq<Op>): State {
    if ops == [] then s else Step(Run(s, ops[..|ops| - 1]), ops[|ops| - 1])
  }

  // An access point comes with the number of clients already on it.
  ghost predicate ProperStep(s: State, op: Op) {
    op.Register? ==> op.count == CountIn(s.places, op.id)
  }

  lemma StepAgrees(s: State, op: Op)
    requires Agree(s.counts, s.places)
    ensures Agree(Step(s, op).counts, Step(s, op).places) <==> ProperStep(s, op)
  {
    match op
    case Register(id, count) =>
      var now := Step(s, op);
      assert now.counts[id] == count;
    case Join(place) => AddAgrees(s.counts, s.places, place);
    case Move(i, entering) =>
      if i < |s.places| && s.places[i] != entering { MoveAgrees(s.counts, s.places, i, entering); }
  }

  // After any run from the empty state, as long as every registration was proper, every
  // cached count is the number of clients there.
  lemma {:induction false} RunAgrees(ops: seq<Op>)
    requires forall k :: 0 <= k < |ops| ==> ProperStep(Run(State(map[], []), ops[..k]), ops[k])
    ensures var s := Run(State(map[], []), ops); Agree(s.counts, s.places)
  {
    if ops != [] {
      var n := |ops| - 1;
      forall k | 0 <= k < n ensures ProperStep(Run(State(map[], []), ops[..n][..k]), ops[..n][k]) {
        assert ops[..n][..k] == ops[..k];
      }
      RunAgrees(ops[..n]);
      StepAgrees(Run(State(map[], []), ops[..n]), ops[n]);
    }
  }

  predicate Enters(op: Op, id: string) {
    (op.Join? && op.place == id) || (op.Move? && op.entering == id)
  }

  // A place that no client has entered is empty.
  lemma {:induction false} NobodyThere(ops: seq<Op>, id: string)
    requires forall k :: 0 <= k < |ops| ==> !Enters(ops[k], id)
    ensures CountIn(Run(State(map[], []), ops).places, id) == 0
  {
    if ops != [] {
      var n := |ops| - 1;
      NobodyThere(ops[..n], id);
      var s, op := Run(State(map[], []), ops[..n]), ops[n];
      if op.Join? {
        assert (s.places + [op.place])[..|s.places|] == s.places;
      } else if op.Move? && op.i < |s.places| && s.places[op.i] != op.entering {
        CountMoves(s.places, op.i, op.entering, id);
      }
    }
  }

  // Every access point is registered with count zero, before any client enters it.
  ghost predicate RegisteredFirst(ops: seq<Op>) {
    forall k :: 0 <= k < |ops| && ops[k].Register? ==>
      ops[k].count == 0 && forall j :: 0 <= j < k ==> !Enters(ops[j], ops[k].id)
  }

  // Then every cached count is the number of clients there, after any adds and moves.
  lemma RegisteredFirstAgrees(ops: seq<Op>)
    requires RegisteredFirst(ops)
    ensures var s := Run(State(map[], []), ops); Agree(s.counts, s.places)
  {
    forall k | 0 <= k < |ops| ensures ProperStep(Run(State(map[], []), ops[..k]), ops[k]) {
      if ops[k].Register? {
        forall j | 0 <= j < k ensures !Enters(ops[..k][j], ops[k].id) { assert ops[..k][j] == ops[j]; }
        NobodyThere(ops[..k], ops[k].id);
      }
    }
    RunAgrees(ops);
  }

  function PortName(n: nat): string {
    "port" + Decimal(n)
  }

  function WithoutNeighbor(neighbors: seq<LldpNeighbor>, p: string, id: string): seq<LldpNeighbor> {
    if neighbors == [] then []
    else
      var last := neighbors[|neighbors| - 1];
      WithoutNeighbor(neighbors[..|neighbors| - 1], p, id) +
      if last.localPort == p && last.remoteId == id then [] else [last]
  }

  ghost predicate Distinct(clients: seq<WirelessClient>) {
    forall i, j :: 0 <= i < j < |clients| ==> clients[i] != clients[j]
  }

  class TopologyState {
    var devices: map<string, DeviceState>
    var aps: map<string, APInfo>
    var wirelessClients: seq<WirelessClient>
    var version: int

    ghost predicate Valid()
      reads `aps
    {
      forall id :: id in aps ==> aps[id].apId == id
    }

    ghost function Counts(): map<string, int>
      reads `aps, aps.Values`clientCount
    {
      map id | id in aps :: aps[id].clientCount
    }

    // Every cached count is the number of clients on that access point.
    ghost predicate Counted()
      reads `aps, aps.Values`clientCount, `wirelessClients, wirelessClients
    {
      Agree(Counts(), Places(wirelessClients))
    }

    constructor ()
      ensures Valid() && Counted() && Distinct(wirelessClients)
      ensures devices == map[] && aps == map[] && wirelessClients == [] && version == 0
    {
      devices, aps, wirelessClients, version := map[], map[], [], 0;
    }

    method AddDevice(id: string, device: DeviceState)
      requires Valid()
      modifies this
      ensures Valid() && Counts() == old(Counts())
      ensures devices == old(devices)[id := device] && aps == old(aps) && wirelessClients == old(wirelessClients)
      ensures version == old(version) + 1
    {
      devices := devices[id := device];
      version := version + 1;
    }

    // Registering an access point keeps the counts right exactly when it comes with the
    // right count: zero, if no client is on it yet.
    method AddAp(ap: APInfo)
      requires Valid()
      modifies this
      ensures Valid() && aps == old(aps)[ap.apId := ap]
      ensures devices == old(devices) && wirelessClients == old(wirelessClients) && version == old(version) + 1
      ensures old(Counted()) ==> (Counted() <==> ap.clientCount == CountIn(Places(wirelessClients), ap.apId))
    {
      aps := aps[ap.apId := ap];
      version := version + 1;
      assert Counts() == old(Counts())[ap.apId := ap.clientCount];
    }

    method Enter(id: string)
      requires Valid()
      modifies aps.Values`clientCount
      ensures Counts() == Bump(old(Counts()), id, 1)
    {
      if id in aps {
        var ap := aps[id];
        ap.clientCount := ap.clientCount + 1;
      }
    }

    method Leave(id: string)
      requires Valid()
      modifies aps.Values`clientCount
      ensures Counts() == LeaveCount(old(Counts()), id)
    {
      if id in aps {
        var ap := aps[id];
        ap.clientCount := if 0 <= ap.clientCount - 1 then ap.clientCount - 1 else 0;
      }
    }

    method AddWirelessClient(client: WirelessClient)
      requires Valid()
      modifies this`wirelessClients, this`version, aps.Values`clientCount
      ensures Valid() && (old(Counted()) ==> Counted())
      ensures wirelessClients == old(wirelessClients) + [client] && version == old(version) + 1
      ensures old(Distinct(wirelessClients)) && client !in old(wirelessClients) ==> Distinct(wirelessClients)
      ensures Counts() == Bump(old(Counts()), client.apId, 1)
    {
      ghost var counts, places := Counts(), Places(wirelessClients);
      wirelessClients := wirelessClients + [client];
      ghost var now := Places(wirelessClients);
      assert now == places + [client.apId];
      version := version + 1;
      Enter(client.apId);
      assert Places(wirelessClients) == now;
      if Agree(counts, places) { AddAgrees(counts, places, client.apId); }
    }

    // Moving a client keeps every count right when counts were right and no client object
    // is listed twice; then the clamp at zero does not fire.
    method MoveWirelessClient(clientMac: string, newApId: string, newRssi: int) returns (moved: bool, ghost i: nat)
      requires Valid()
      modifies this`version, aps.Values`clientCount, wirelessClients
      ensures Valid() && i == FirstClient(wirelessClients, clientMac)
      ensures moved <==> i < |wirelessClients| && old(Places(wirelessClients))[i] != newApId
      ensures !moved ==> unchanged(this) && unchanged(wirelessClients) && unchanged(aps.Values)
      ensures moved ==> version == old(version) + 1 && wirelessClients[i].apId == newApId && wirelessClients[i].rssi == newRssi
      ensures moved ==> Counts() == MoveCount(old(Counts()), old(Places(wirelessClients))[i], newApId)
      ensures moved && Distinct(wirelessClients) ==> Places(wirelessClients) == old(Places(wirelessClients))[i := newApId]
      ensures old(Counted()) && Distinct(wirelessClients) ==> Counted()
    {
      var at := 0;
      while at < |wirelessClients| && wirelessClients[at].mac != MacMatch(wirelessClients[at].mac, clientMac)
        invariant at <= |wirelessClients|
        invariant forall j :: 0 <= j < at ==> !IsClient(wirelessClients[j].mac, clientMac)
      {
        at := at + 1;
      }
      i := at;
      if at == |wirelessClients| || wirelessClients[at].apId == newApId {
        return false, i;
      }
      Relocate(at, newApId, newRssi);
      version := version + 1;
      return true, i;
    }

    // One client goes to another access point: only it and the two counts change.
    method Relocate(i: nat, newApId: string, newRssi: int)
      requires Valid() && i < |wirelessClients| && wirelessClients[i].apId != newApId
      modifies aps.Values`clientCount, wirelessClients[i]
      ensures Counts() == MoveCount(old(Counts()), old(wirelessClients[i].apId), newApId)
      ensures wirelessClients[i].apId == newApId && wirelessClients[i].rssi == newRssi
      ensures Distinct(wirelessClients) ==> Places(wirelessClients) == old(Places(wirelessClients))[i := newApId]
      ensures old(Counted()) && Distinct(wirelessClients) ==> Counted()
    {
      var client := wirelessClients[i];
      ghost var counts, places := Counts(), Places(wirelessClients);
      Leave(client.apId);
      ghost var left := Counts();
      client.apId := newApId;
      client.rssi := newRssi;
      assert Counts() == left;
      ghost var now := Places(wirelessClients);
      assert Distinct(wirelessClients) ==> now == places[i := newApId];
      Enter(newApId);
      assert Counts() == MoveCount(counts, places[i], newApId) && Places(wirelessClients) == now;
      if Agree(counts, places) { MoveAgrees(counts, places, i, newApId); }
    }

    // A connection moves from one switch port to another: the rows of its port move with
    // it, from the source table to the end of the destination's, under the new port.
    method MoveConnection(deviceId: string, fromSwitch: string, fromPort: nat, toSwitch: string, toPort: nat)
      returns (moved: bool)
      requires Valid()
      modifies this`version, devices.Values, aps.Values`parentSwitch, aps.Values`parentPort
      ensures moved <==> (deviceId in aps || deviceId in devices) && fromSwitch in devices && toSwitch in devices
      ensures !moved ==> unchanged(this) && unchanged(devices.Values) && unchanged(aps.Values)
      ensures moved ==> version == old(version) + 1
      ensures moved ==> Moved(devices[fromSwitch], devices[toSwitch], PortName(fromPort), PortName(toPort), deviceId,
                              if deviceId in aps then aps[deviceId].name else deviceId,
                              if deviceId in aps then aps[deviceId].ip else devices[deviceId].ip)
      ensures moved && deviceId in aps ==> aps[deviceId].parentSwitch == toSwitch && aps[deviceId].parentPort == PortName(toPort)
    {
      var deviceName, deviceIp;
      if deviceId in aps {
        deviceName, deviceIp := aps[deviceId].name, aps[deviceId].ip;
      } else if deviceId in devices {
        deviceName, deviceIp := deviceId, devices[deviceId].ip;
      } else {
        return false;
      }
      if fromSwitch !in devices || toSwitch !in devices {
        return false;
      }
      if deviceId in aps {
        aps[deviceId].parentSwitch := toSwitch;
        aps[deviceId].parentPort := PortName(toPort);
      }
      MoveBetween(devices[fromSwitch], devices[toSwitch], PortName(fromPort), PortName(toPort), deviceId, deviceName, deviceIp);
      version := version + 1;
      return true;
    }
  }

  // The new tables of the two switches, which may be one.
  twostate predicate Moved(src: DeviceState, dst: DeviceState, p: string, q: string, id: string, name: string, ip: string)
    reads src, dst
  {
    var added := LldpNeighbor(q, id, "eth0", name, ip);
    var kept := WithoutNeighbor(old(src.lldpNeighbors), p, id);
    && src.lldpNeighbors == (if src == dst then kept + [added] else kept)
    && dst.lldpNeighbors == (if src == dst then kept else old(dst.lldpNeighbors)) + [added]
    && src.arpTable == LeftBehind(old(src.arpTable), src == dst, ArpPort(), ArpWithPort(), p, q)
    && dst.arpTable == Arrived(old(src.arpTable), old(dst.arpTable), src == dst, ArpPort(), ArpWithPort(), p, q)
    && src.macTable == LeftBehind(old(src.macTable), src == dst, MacPort(), MacWithPort(), p, q)
    && dst.macTable == Arrived(old(src.macTable), old(dst.macTable), src == dst, MacPort(), MacWithPort(), p, q)
  }

  method MoveBetween(src: DeviceState, dst: DeviceState, p: string, q: string, id: string, name: string, ip: string)
    modifies src, dst
    ensures Moved(src, dst, p, q, id, name, ip)
  {
    src.lldpNeighbors := WithoutNeighbor(src.lldpNeighbors, p, id);
    dst.lldpNeighbors := dst.lldpNeighbors + [LldpNeighbor(q, id, "eth0", name, ip)];
    var arp, arp' := MoveRows(src.arpTable, dst.arpTable, src == dst, ArpPort(), ArpWithPort(), p, q);
    src.arpTable := arp;
    dst.arpTable := arp';
    var mac, mac' := MoveRows(src.macTable, dst.macTable, src == dst, MacPort(), MacWithPort(), p, q);
    src.macTable := mac;
    dst.macTable := mac';
  }

  function ArpPort(): ArpEntry -> string { (e: ArpEntry) => e.port }
  function ArpWithPort(): (ArpEntry, string) -> ArpEntry { (e: ArpEntry, p: string) => e.(port := p) }
  function MacPort(): MacEntry -> string { (e: MacEntry) => e.port }
  function MacWithPort(): (MacEntry, string) -> MacEntry { (e: MacEntry, p: string) => e.(port := p) }

  // A move conserves the rows of the two switches up to their port, also when both are one.
  lemma ArpConserved(src: seq<ArpEntry>, dst: seq<ArpEntry>, same: bool, p: string, q: string)
    requires same ==> src == dst
    ensures var key := (e: ArpEntry) => (e.ip, e.mac, e.vlan);
            Total(LeftBehind(src, same, ArpPort(), ArpWithPort(), p, q), Arrived(src, dst, same, ArpPort(), ArpWithPort(), p, q), same, key)
            == Total(src, dst, same, key)
  {
    MoveConserves(src, dst, same, ArpPort(), ArpWithPort(), (e: ArpEntry) => (e.ip, e.mac, e.vlan), p, q);
  }

  lemma MacConserved(src: seq<MacEntry>, dst: seq<MacEntry>, same: bool, p: string, q: string)
    requires same ==> src == dst
    ensures var key := (e: MacEntry) => (e.mac, e.vlan);
            Total(LeftBehind(src, same, MacPort(), MacWithPort(), p, q), Arrived(src, dst, same, MacPort(), MacWithPort(), p, q), same, key)
            == Total(src, dst, same, key)
  {
    MoveConserves(src, dst, same, MacPort(), MacWithPort(), (e: MacEntry) => (e.mac, e.vlan), p, q);
  }
}
