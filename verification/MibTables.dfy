// ARP and MAC forwarding tables: written into the tree by the simulator, read back
// column by column by the collector.
module MibTables {
  import opened Wrappers
  import opened DottedText
  import opened Dicts
  import opened Sequences
  import opened MibAgent
  import opened OidWalk
  import opened Columns

  const OID_ARP_TABLE: Oid := [1, 3, 6, 1, 2, 1, 4, 22, 1]
  const OID_ARP_PHYS_ADDRESS: Oid := OID_ARP_TABLE + [2]
  const OID_ARP_NET_ADDRESS: Oid := OID_ARP_TABLE + [3]
  const OID_FDB_TABLE: Oid := [1, 3, 6, 1, 2, 1, 17, 4, 3, 1]
  const OID_FDB_ADDRESS: Oid := OID_FDB_TABLE + [1]
  const OID_FDB_PORT: Oid := OID_FDB_TABLE + [2]
  const OID_FDB_STATUS: Oid := OID_FDB_TABLE + [3]

  // ----- octets and texts -----

  predicate Ascii(s: string) {
    forall i :: 0 <= i < |s| ==> s[i] < 128 as char
  }

  // The octets of an ASCII text.
  function TextBytes(s: string): (b: seq<Byte>)
    requires Ascii(s)
    ensures |b| == |s| && forall i :: 0 <= i < |s| ==> b[i] == s[i] as int
  {
    seq(|s|, i requires 0 <= i < |s| => s[i] as int)
  }

  function HexPair(b: Byte): (s: string)
    ensures |s| == 2 && ':' !in s && '-' !in s
    ensures Numeral(s, 16) == Some(b)
  {
    var s := [DigitChar(b / 16), DigitChar(b % 16)];
    assert s[..1] == [DigitChar(b / 16)];
    s
  }

  function HexPairs(raw: seq<Byte>): (r: seq<string>)
    ensures |r| == |raw| && forall i :: 0 <= i < |raw| ==> r[i] == HexPair(raw[i])
  {
    seq(|raw|, i requires 0 <= i < |raw| => HexPair(raw[i]))
  }

  function Flat(parts: seq<string>): string {
    if parts == [] then "" else parts[0] + Flat(parts[1..])
  }

  function BytesToMac(raw: seq<Byte>): string {
    if |raw| == 6 then Join(':', HexPairs(raw)) else Flat(HexPairs(raw))
  }

  function BytesToIp(raw: seq<Byte>): string {
    OidText(raw)
  }

  function DashesToColons(s: string): (r: string)
    ensures |r| == |s| && forall i :: 0 <= i < |s| ==> r[i] == if s[i] == '-' then ':' else s[i]
  {
    seq(|s|, i requires 0 <= i < |s| => if s[i] == '-' then ':' else s[i])
  }

  // The octets of a MAC text; None when a part is no hexadecimal number or is no octet.
  function MacBytes(mac: string): Option<seq<Byte>> {
    match Numerals(Split(':', DashesToColons(mac)), 16)
    case None => None
    case Some(n) => if forall i :: 0 <= i < |n| ==> n[i] < 256 then Some(n) else None
  }

  // The index of an IP text; None when a part is no decimal number.
  function IpSuffix(ip: string): Option<Oid> {
    Numerals(Split('.', ip), 10)
  }

  // Writing six octets as a MAC and reading it back gives the octets: colon-separated
  // lower-case pairs are the texts that survive a round trip unchanged.
  lemma MacRoundTrip(raw: seq<Byte>)
    requires |raw| == 6
    ensures MacBytes(BytesToMac(raw)) == Some(raw)
  {
    var parts := HexPairs(raw);
    SplitJoin(':', parts);
    var text := Join(':', parts);
    NoDashes(parts);
    assert DashesToColons(text) == text;
    assert Numerals(parts, 16).Some? && Numerals(parts, 16).value == raw;
  }

  lemma {:induction false} NoDashes(parts: seq<string>)
    requires forall p :: p in parts ==> '-' !in p
    ensures '-' !in Join(':', parts)
  {
    if |parts| > 1 { NoDashes(parts[1..]); }
  }

  lemma {:induction false} DigitsOnly(s: string)
    requires Numeral(s, 10).Some?
    ensures s != "" && forall c :: c in s ==> '0' <= c <= '9'
  {
    if |s| > 1 {
      DigitsOnly(s[..|s| - 1]);
      assert s == s[..|s| - 1] + [s[|s| - 1]];
    }
  }

  // An IPv4 text is ASCII and longer than the four raw octets it could be mistaken for.
  lemma IpTextShape(ip: string)
    requires IpSuffix(ip).Some? && |IpSuffix(ip).value| == 4
    ensures Ascii(ip) && |ip| >= 7 && forall c :: c in ip ==> ' ' <= c <= '~'
  {
    var p := Split('.', ip);
    JoinSplit('.', ip);
    DigitsOnly(p[0]);
    DigitsOnly(p[1]);
    DigitsOnly(p[2]);
    DigitsOnly(p[3]);
    var p1, p2 := p[1..], p[2..];
    assert p1[1..] == p2 && p2[1..] == [p[3]] && p1[0] == p[1] && p2[0] == p[2];
    assert Join('.', p2) == p[2] + "." + p[3];
    assert Join('.', p1) == p[1] + "." + Join('.', p2);
    assert ip == p[0] + "." + (p[1] + "." + (p[2] + "." + p[3]));
    forall c | c in ip ensures '0' <= c <= '9' || c == '.' {}
    forall i | 0 <= i < |ip| ensures ip[i] < 128 as char {
      assert ip[i] in ip;
    }
  }

  // ----- values read from a walk -----

  // `_extract_raw_bytes`
  function RawBytes(v: Value): seq<Byte> {
    match v
    case Octets(b) => b
    case Number(n) => NumberBytes(n)
    case OidValue(o) => OidBytes(o)
  }

  function NumberBytes(n: int): seq<Byte> {
    var s := if n < 0 then "-" + Decimal(-n) else Decimal(n);
    if Ascii(s) then TextBytes(s) else []
  }

  function OidBytes(o: Oid): seq<Byte> {
    if Ascii(OidText(o)) then TextBytes(OidText(o)) else []
  }

  // `_extract_value` on octets: printable ASCII as text, anything else as hexadecimal.
  function ReadText(raw: seq<Byte>): string {
    if forall i :: 0 <= i < |raw| ==> 32 <= raw[i] < 127
    then seq(|raw|, i requires 0 <= i < |raw| => raw[i] as char)
    else Flat(HexPairs(raw))
  }

  // A net address: four raw octets, or the address as text.
  function ReadAddress(v: Value): string {
    var raw := RawBytes(v);
    if |raw| == 4 then BytesToIp(raw) else ReadText(raw)
  }

  function ReadNumber(v: Value): int {
    if v.Number? then v.n else 0
  }

  lemma ReadAddressOfIp(ip: string)
    requires IpSuffix(ip).Some? && |IpSuffix(ip).value| == 4
    ensures Ascii(ip) && ReadAddress(Octets(TextBytes(ip))) == ip
  {
    IpTextShape(ip);
    var raw := TextBytes(ip);
    forall i | 0 <= i < |raw| ensures 32 <= raw[i] < 127 {
      assert ip[i] in ip;
    }
    assert ReadText(raw) == ip;
  }

  // ----- the ARP table -----

  datatype ArpRow = ArpRow(ifIndex: nat, ip: string, mac: string)

  // What the simulator can encode: otherwise int() or bytes() raises.
  predicate EncodableArp(r: ArpRow) {
    IpSuffix(r.ip).Some? && Ascii(r.ip) && MacBytes(r.mac).Some?
  }

  function ArpIndex(r: ArpRow): Oid {
    [r.ifIndex] + match IpSuffix(r.ip) case Some(oid) => oid case None => []
  }

  function PhysValue(r: ArpRow): Value {
    Octets(match MacBytes(r.mac) case Some(raw) => raw case None => [])
  }

  function NetValue(r: ArpRow): Value {
    Octets(if Ascii(r.ip) then TextBytes(r.ip) else [])
  }

  function ArpBindings(r: ArpRow): seq<Binding> {
    [Binding(OID_ARP_PHYS_ADDRESS + ArpIndex(r), PhysValue(r)), Binding(OID_ARP_NET_ADDRESS + ArpIndex(r), NetValue(r))]
  }

  method BuildArpEntries(rows: seq<ArpRow>) returns (result: Option<seq<Binding>>)
    ensures result.Some? <==> forall i :: 0 <= i < |rows| ==> EncodableArp(rows[i])
    ensures result.Some? ==> result.value == Encode(rows, ArpBindings)
  {
    result := BuildEntries(rows, EncodableArp, ArpBindings);
  }

  // The row for one index text; None where int() raises.
  function ArpEntry(phys: Dict<string, seq<Byte>>, net: Dict<string, string>): string -> Option<ArpRow> {
    suffix =>
      var parts := Split('.', suffix);
      match Numeral(parts[0], 10)
      case None => None
      case Some(ifIndex) =>
        var fallback := if |parts| >= 5 then Join('.', parts[1..5]) else "";
        Some(ArpRow(ifIndex, Get(net, suffix, fallback), BytesToMac(Get(phys, suffix, []))))
  }

  // What the collector reads from an agent with this tree.
  function ArpTable(tree: seq<Binding>): Option<seq<ArpRow>> {
    match (Walked(tree, OidText(OID_ARP_PHYS_ADDRESS)), Walked(tree, OidText(OID_ARP_NET_ADDRESS)))
    case (Some(physRows), Some(netRows)) =>
      var phys := ColumnDict(physRows, OidText(OID_ARP_PHYS_ADDRESS), RawBytes);
      var net := ColumnDict(netRows, OidText(OID_ARP_NET_ADDRESS), ReadAddress);
      ReadRows(phys.order, ArpEntry(phys, net))
    case _ => None
  }

  method WalkArpTable(client: SNMPClient, agent: SNMPAgent) returns (r: Option<seq<ArpRow>>)
    requires agent.Valid() && OrderedTree(agent.mibTree)
    modifies client
    ensures unchanged(agent)
    ensures r == ArpTable(agent.mibTree)
  {
    var physRows := client.Walk(agent, OidText(OID_ARP_PHYS_ADDRESS));
    var netRows := client.Walk(agent, OidText(OID_ARP_NET_ADDRESS));
    if physRows == None || netRows == None {
      return None;
    }
    var phys := CollectColumn(physRows.value, OidText(OID_ARP_PHYS_ADDRESS), RawBytes);
    var net := CollectColumn(netRows.value, OidText(OID_ARP_NET_ADDRESS), ReadAddress);
    r := CollectRows(phys.order, ArpEntry(phys, net));
  }

  // ----- the ARP round trip -----

  // A table the simulator can hold: IPv4 addresses, six-octet MACs, distinct indexes.
  ghost predicate ProperArp(rows: seq<ArpRow>) {
    && (forall r :: r in rows ==> ProperArpRow(r))
    && (forall i, j :: 0 <= i < j < |rows| ==> ArpIndex(rows[i]) != ArpIndex(rows[j]))
  }

  predicate ProperArpRow(r: ArpRow) {
    && IpSuffix(r.ip).Some? && |IpSuffix(r.ip).value| == 4
    && MacBytes(r.mac).Some? && |MacBytes(r.mac).value| == 6
  }

  // The row with its MAC in lower-case colon form.
  function CanonicalArp(r: ArpRow): ArpRow {
    r.(mac := match MacBytes(r.mac) case Some(raw) => BytesToMac(raw) case None => r.mac)
  }

  // Nothing in the tree besides this table lies in its two columns.
  ghost predicate ArpEntries(entries: seq<Binding>, other: seq<Binding>, rows: seq<ArpRow>) {
    && multiset(entries) == multiset(other) + multiset(Encode(rows, ArpBindings))
    && forall b :: b in other ==> !(OID_ARP_PHYS_ADDRESS < b.oid) && !(OID_ARP_NET_ADDRESS < b.oid)
  }

  lemma OneBindingPerColumn(r: ArpRow, b: Binding)
    requires b in ArpBindings(r)
    ensures OID_ARP_PHYS_ADDRESS < b.oid ==> b == Binding(OID_ARP_PHYS_ADDRESS + ArpIndex(r), PhysValue(r))
    ensures OID_ARP_NET_ADDRESS < b.oid ==> b == Binding(OID_ARP_NET_ADDRESS + ArpIndex(r), NetValue(r))
  {
    assert OID_ARP_PHYS_ADDRESS < b.oid ==> b.oid[9] == OID_ARP_PHYS_ADDRESS[9];
    assert OID_ARP_NET_ADDRESS < b.oid ==> b.oid[9] == OID_ARP_NET_ADDRESS[9];
  }

  lemma ArpColumns(entries: seq<Binding>, other: seq<Binding>, rows: seq<ArpRow>)
    requires ProperArp(rows) && ArpEntries(entries, other, rows)
    ensures OrderedTree(SortMibTree(entries))
    ensures ColumnFrom(SortMibTree(entries), OID_ARP_PHYS_ADDRESS, rows, ArpIndex, PhysValue)
    ensures ColumnFrom(SortMibTree(entries), OID_ARP_NET_ADDRESS, rows, ArpIndex, NetValue)
  {
    forall i, b | 0 <= i < |rows| && b in ArpBindings(rows[i])
      ensures OID_ARP_PHYS_ADDRESS < b.oid ==> b == Binding(OID_ARP_PHYS_ADDRESS + ArpIndex(rows[i]), PhysValue(rows[i]))
      ensures OID_ARP_NET_ADDRESS < b.oid ==> b == Binding(OID_ARP_NET_ADDRESS + ArpIndex(rows[i]), NetValue(rows[i]))
    {
      OneBindingPerColumn(rows[i], b);
    }
    ColumnFromEntries(entries, other, rows, ArpBindings, OID_ARP_PHYS_ADDRESS, ArpIndex, PhysValue);
    ColumnFromEntries(entries, other, rows, ArpBindings, OID_ARP_NET_ADDRESS, ArpIndex, NetValue);
  }

  lemma ArpEntryOfRow(phys: Dict<string, seq<Byte>>, net: Dict<string, string>, r: ArpRow)
    requires ProperArpRow(r)
    requires OidText(ArpIndex(r)) in phys.at && phys.at[OidText(ArpIndex(r))] == RawBytes(PhysValue(r))
    requires OidText(ArpIndex(r)) in net.at && net.at[OidText(ArpIndex(r))] == ReadAddress(NetValue(r))
    ensures ArpEntry(phys, net)(OidText(ArpIndex(r))) == Some(CanonicalArp(r))
  {
    OidTextSplit(ArpIndex(r));
    DecimalRoundTrip(r.ifIndex);
    ReadAddressOfIp(r.ip);
  }

  // One walked row, read back.
  lemma ArpEntryServed(tree: seq<Binding>, rows: seq<ArpRow>, physRows: seq<Pair>, netRows: seq<Pair>, r: ArpRow)
    requires OrderedTree(tree) && ProperArp(rows) && r in rows
    requires ColumnFrom(tree, OID_ARP_PHYS_ADDRESS, rows, ArpIndex, PhysValue)
    requires ColumnFrom(tree, OID_ARP_NET_ADDRESS, rows, ArpIndex, NetValue)
    requires Walked(tree, OidText(OID_ARP_PHYS_ADDRESS)) == Some(physRows)
    requires Walked(tree, OidText(OID_ARP_NET_ADDRESS)) == Some(netRows)
    ensures var phys := ColumnDict(physRows, OidText(OID_ARP_PHYS_ADDRESS), RawBytes);
            var net := ColumnDict(netRows, OidText(OID_ARP_NET_ADDRESS), ReadAddress);
            ArpEntry(phys, net)(OidText(ArpIndex(r))) == Some(CanonicalArp(r))
  {
    var i :| 0 <= i < |rows| && rows[i] == r;
    DictAnswers(tree, OID_ARP_PHYS_ADDRESS, rows, ArpIndex, PhysValue, physRows, RawBytes, i);
    DictAnswers(tree, OID_ARP_NET_ADDRESS, rows, ArpIndex, NetValue, netRows, ReadAddress, i);
    ArpEntryOfRow(ColumnDict(physRows, OidText(OID_ARP_PHYS_ADDRESS), RawBytes),
                  ColumnDict(netRows, OidText(OID_ARP_NET_ADDRESS), ReadAddress), r);
  }

  lemma ArpRowsServed(tree: seq<Binding>, rows: seq<ArpRow>, physRows: seq<Pair>, netRows: seq<Pair>)
    returns (sorted: seq<ArpRow>)
    requires OrderedTree(tree) && ProperArp(rows)
    requires ColumnFrom(tree, OID_ARP_PHYS_ADDRESS, rows, ArpIndex, PhysValue)
    requires ColumnFrom(tree, OID_ARP_NET_ADDRESS, rows, ArpIndex, NetValue)
    requires Walked(tree, OidText(OID_ARP_PHYS_ADDRESS)) == Some(physRows)
    requires Walked(tree, OidText(OID_ARP_NET_ADDRESS)) == Some(netRows)
    ensures RowOrder(sorted, rows, ArpIndex)
    ensures var phys := ColumnDict(physRows, OidText(OID_ARP_PHYS_ADDRESS), RawBytes);
            var net := ColumnDict(netRows, OidText(OID_ARP_NET_ADDRESS), ReadAddress);
            ReadRows(phys.order, ArpEntry(phys, net)) == Some(MapAll(sorted, CanonicalArp))
  {
    var phys := ColumnDict(physRows, OidText(OID_ARP_PHYS_ADDRESS), RawBytes);
    var net := ColumnDict(netRows, OidText(OID_ARP_NET_ADDRESS), ReadAddress);
    sorted := DictOrder(tree, OID_ARP_PHYS_ADDRESS, rows, ArpIndex, PhysValue, physRows, RawBytes);
    forall k | 0 <= k < |sorted| ensures ArpEntry(phys, net)(phys.order[k]) == Some(CanonicalArp(sorted[k])) {
      assert sorted[k] in multiset(sorted);
      assert sorted[k] in multiset(rows);
      ArpEntryServed(tree, rows, physRows, netRows, sorted[k]);
    }
    ReadRowsOf(phys.order, ArpEntry(phys, net), sorted, CanonicalArp);
  }

  // Serving an encoded ARP table, amid anything else outside its two columns, and
  // reading it back gives the same rows, each once, in index order, with MACs normalised.
  lemma ArpRoundTrip(entries: seq<Binding>, other: seq<Binding>, rows: seq<ArpRow>) returns (sorted: seq<ArpRow>)
    requires ProperArp(rows) && ArpEntries(entries, other, rows)
    ensures RowOrder(sorted, rows, ArpIndex)
    ensures ArpTable(SortMibTree(entries)) == Some(MapAll(sorted, CanonicalArp))
  {
    var tree := SortMibTree(entries);
    ArpColumns(entries, other, rows);
    var physRows := WalkedCells(tree, OID_ARP_PHYS_ADDRESS);
    var netRows := WalkedCells(tree, OID_ARP_NET_ADDRESS);
    sorted := ArpRowsServed(tree, rows, physRows, netRows);
  }

  // A row whose MAC is already six lower-case colon pairs comes back unchanged.
  lemma CanonicalArpFixed(r: ArpRow, raw: seq<Byte>)
    requires |raw| == 6 && r.mac == BytesToMac(raw)
    ensures CanonicalArp(r) == r
  {
    MacRoundTrip(raw);
  }

  // ----- the MAC forwarding table -----

  datatype FdbRow = FdbRow(mac: string, port: int, status: int)

  predicate EncodableFdb(r: FdbRow) {
    MacBytes(r.mac).Some?
  }

  function FdbIndex(r: FdbRow): Oid {
    match MacBytes(r.mac) case Some(raw) => raw case None => []
  }

  function AddressValue(r: FdbRow): Value {
    Octets(match MacBytes(r.mac) case Some(raw) => raw case None => [])
  }

  function PortValue(r: FdbRow): Value {
    Number(r.port)
  }

  function StatusValue(r: FdbRow): Value {
    Number(r.status)
  }

  function FdbBindings(r: FdbRow): seq<Binding> {
    [Binding(OID_FDB_ADDRESS + FdbIndex(r), AddressValue(r)),
     Binding(OID_FDB_PORT + FdbIndex(r), PortValue(r)),
     Binding(OID_FDB_STATUS + FdbIndex(r), StatusValue(r))]
  }

  method BuildMacFwdEntries(rows: seq<FdbRow>) returns (result: Option<seq<Binding>>)
    ensures result.Some? <==> forall i :: 0 <= i < |rows| ==> EncodableFdb(rows[i])
    ensures result.Some? ==> result.value == Encode(rows, FdbBindings)
  {
    result := BuildEntries(rows, EncodableFdb, FdbBindings);
  }

  // int(value) raises on anything but a number.
  predicate AllNumbers(rows: seq<Pair>) {
    forall i :: 0 <= i < |rows| ==> rows[i].value.Number?
  }

  function FdbEntry(address: Dict<string, seq<Byte>>, port: Dict<string, int>, status: Dict<string,
      int>): string -> Option<FdbRow> {
    suffix => Some(FdbRow(BytesToMac(Get(address, suffix, [])), Get(port, suffix, 0), Get(status, suffix, 0)))
  }

  // What the collector reads from an agent with this tree.
  function FdbTable(tree: seq<Binding>): Option<seq<FdbRow>> {
    match (Walked(tree, OidText(OID_FDB_ADDRESS)), Walked(tree, OidText(OID_FDB_PORT)), Walked(tree, OidText(OID_FDB_STATUS)))
    case (Some(addressRows), Some(portRows), Some(statusRows)) =>
      if !AllNumbers(portRows) || !AllNumbers(statusRows) then None
      else
        var address := ColumnDict(addressRows, OidText(OID_FDB_ADDRESS), RawBytes);
        var port := ColumnDict(portRows, OidText(OID_FDB_PORT), ReadNumber);
        var status := ColumnDict(statusRows, OidText(OID_FDB_STATUS), ReadNumber);
        ReadRows(address.order, FdbEntry(address, port, status))
    case _ => None
  }

  method WalkMacTable(client: SNMPClient, agent: SNMPAgent) returns (r: Option<seq<FdbRow>>)
    requires agent.Valid() && OrderedTree(agent.mibTree)
    modifies client
    ensures unchanged(agent)
    ensures r == FdbTable(agent.mibTree)
  {
    var addressRows := client.Walk(agent, OidText(OID_FDB_ADDRESS));
    var portRows := client.Walk(agent, OidText(OID_FDB_PORT));
    var statusRows := client.Walk(agent, OidText(OID_FDB_STATUS));
    if addressRows == None || portRows == None || statusRows == None {
      return None;
    }
    if !AllNumbers(portRows.value) || !AllNumbers(statusRows.value) {
      return None;
    }
    var address := CollectColumn(addressRows.value, OidText(OID_FDB_ADDRESS), RawBytes);
    var port := CollectColumn(portRows.value, OidText(OID_FDB_PORT), ReadNumber);
    var status := CollectColumn(statusRows.value, OidText(OID_FDB_STATUS), ReadNumber);
    r := CollectRows(address.order, FdbEntry(address, port, status));
  }

  // ----- the MAC forwarding round trip -----

  ghost predicate ProperFdb(rows: seq<FdbRow>) {
    && (forall r :: r in rows ==> ProperFdbRow(r))
    && (forall i, j :: 0 <= i < j < |rows| ==> FdbIndex(rows[i]) != FdbIndex(rows[j]))
  }

  predicate ProperFdbRow(r: FdbRow) {
    MacBytes(r.mac).Some? && |MacBytes(r.mac).value| == 6
  }

  function CanonicalFdb(r: FdbRow): FdbRow {
    r.(mac := match MacBytes(r.mac) case Some(raw) => BytesToMac(raw) case None => r.mac)
  }

  // Nothing in the tree besides this table lies in its three columns.
  ghost predicate FdbEntries(entries: seq<Binding>, other: seq<Binding>, rows: seq<FdbRow>) {
    && multiset(entries) == multiset(other) + multiset(Encode(rows, FdbBindings))
    && forall b :: b in other ==>
         !(OID_FDB_ADDRESS < b.oid) && !(OID_FDB_PORT < b.oid) && !(OID_FDB_STATUS < b.oid)
  }

  lemma OneFdbBindingPerColumn(r: FdbRow, b: Binding)
    requires b in FdbBindings(r)
    ensures OID_FDB_ADDRESS < b.oid ==> b == Binding(OID_FDB_ADDRESS + FdbIndex(r), AddressValue(r))
    ensures OID_FDB_PORT < b.oid ==> b == Binding(OID_FDB_PORT + FdbIndex(r), PortValue(r))
    ensures OID_FDB_STATUS < b.oid ==> b == Binding(OID_FDB_STATUS + FdbIndex(r), StatusValue(r))
  {
    assert OID_FDB_ADDRESS < b.oid ==> b.oid[10] == OID_FDB_ADDRESS[10];
    assert OID_FDB_PORT < b.oid ==> b.oid[10] == OID_FDB_PORT[10];
    assert OID_FDB_STATUS < b.oid ==> b.oid[10] == OID_FDB_STATUS[10];
  }

  lemma FdbColumn(entries: seq<Binding>, other: seq<Binding>, rows: seq<FdbRow>, column: Oid, value: FdbRow -> Value)
    requires ProperFdb(rows) && FdbEntries(entries, other, rows)
    requires column in {OID_FDB_ADDRESS, OID_FDB_PORT, OID_FDB_STATUS}
    requires forall r, b :: b in FdbBindings(r) && column < b.oid ==> b == Binding(column + FdbIndex(r), value(r))
    requires forall r :: Binding(column + FdbIndex(r), value(r)) in FdbBindings(r)
    ensures OrderedTree(SortMibTree(entries))
    ensures ColumnFrom(SortMibTree(entries), column, rows, FdbIndex, value)
  {
    forall i | 0 <= i < |rows| ensures FdbIndex(rows[i]) != [] {
      assert ProperFdbRow(rows[i]);
    }
    ColumnFromEntries(entries, other, rows, FdbBindings, column, FdbIndex, value);
  }

  lemma FdbColumns(entries: seq<Binding>, other: seq<Binding>, rows: seq<FdbRow>)
    requires ProperFdb(rows) && FdbEntries(entries, other, rows)
    ensures OrderedTree(SortMibTree(entries))
    ensures ColumnFrom(SortMibTree(entries), OID_FDB_ADDRESS, rows, FdbIndex, AddressValue)
    ensures ColumnFrom(SortMibTree(entries), OID_FDB_PORT, rows, FdbIndex, PortValue)
    ensures ColumnFrom(SortMibTree(entries), OID_FDB_STATUS, rows, FdbIndex, StatusValue)
  {
    forall r, b | b in FdbBindings(r)
      ensures OID_FDB_ADDRESS < b.oid ==> b == Binding(OID_FDB_ADDRESS + FdbIndex(r), AddressValue(r))
      ensures OID_FDB_PORT < b.oid ==> b == Binding(OID_FDB_PORT + FdbIndex(r), PortValue(r))
      ensures OID_FDB_STATUS < b.oid ==> b == Binding(OID_FDB_STATUS + FdbIndex(r), StatusValue(r))
    {
      OneFdbBindingPerColumn(r, b);
    }
    FdbColumn(entries, other, rows, OID_FDB_ADDRESS, AddressValue);
    FdbColumn(entries, other, rows, OID_FDB_PORT, PortValue);
    FdbColumn(entries, other, rows, OID_FDB_STATUS, StatusValue);
  }

  lemma ColumnNumbers(tree: seq<Binding>, column: Oid, rows: seq<FdbRow>, value: FdbRow -> Value, pairs: seq<Pair>)
    requires OrderedTree(tree) && column != [] && ColumnFrom(tree, column, rows, FdbIndex, value)
    requires forall r :: value(r).Number?
    requires Walked(tree, OidText(column)) == Some(pairs)
    ensures AllNumbers(pairs)
  {
    var walked := WalkedCells(tree, column);
    var sorted := RowsInOrder(tree, column, rows, FdbIndex, value);
  }

  // The walked column answers for a row with its value.
  lemma NumberServed(tree: seq<Binding>, column: Oid, rows: seq<FdbRow>, value: FdbRow -> Value, pairs: seq<Pair>,
      r: FdbRow)
    requires OrderedTree(tree) && column != [] && ColumnFrom(tree, column, rows, FdbIndex, value)
    requires Walked(tree, OidText(column)) == Some(pairs) && r in rows
    ensures Get(ColumnDict(pairs, OidText(column), ReadNumber), OidText(FdbIndex(r)), 0) == ReadNumber(value(r))
  {
    var i :| 0 <= i < |rows| && rows[i] == r;
    DictAnswers(tree, column, rows, FdbIndex, value, pairs, ReadNumber, i);
  }

  lemma FdbRowsServed(tree: seq<Binding>, rows: seq<FdbRow>,
                      addressRows: seq<Pair>, portRows: seq<Pair>, statusRows: seq<Pair>)
    returns (sorted: seq<FdbRow>)
    requires OrderedTree(tree) && ProperFdb(rows)
    requires ColumnFrom(tree, OID_FDB_ADDRESS, rows, FdbIndex, AddressValue)
    requires ColumnFrom(tree, OID_FDB_PORT, rows, FdbIndex, PortValue)
    requires ColumnFrom(tree, OID_FDB_STATUS, rows, FdbIndex, StatusValue)
    requires Walked(tree, OidText(OID_FDB_ADDRESS)) == Some(addressRows)
    requires Walked(tree, OidText(OID_FDB_PORT)) == Some(portRows)
    requires Walked(tree, OidText(OID_FDB_STATUS)) == Some(statusRows)
    ensures RowOrder(sorted, rows, FdbIndex)
    ensures var address := ColumnDict(addressRows, OidText(OID_FDB_ADDRESS), RawBytes);
            var port := ColumnDict(portRows, OidText(OID_FDB_PORT), ReadNumber);
            var status := ColumnDict(statusRows, OidText(OID_FDB_STATUS), ReadNumber);
            ReadRows(address.order, FdbEntry(address, port, status)) == Some(MapAll(sorted, CanonicalFdb))
  {
    var address := ColumnDict(addressRows, OidText(OID_FDB_ADDRESS), RawBytes);
    var port := ColumnDict(portRows, OidText(OID_FDB_PORT), ReadNumber);
    var status := ColumnDict(statusRows, OidText(OID_FDB_STATUS), ReadNumber);
    sorted := DictOrder(tree, OID_FDB_ADDRESS, rows, FdbIndex, AddressValue, addressRows, RawBytes);
    var entry := FdbEntry(address, port, status);
    forall k | 0 <= k < |sorted| ensures entry(address.order[k]) == Some(CanonicalFdb(sorted[k])) {
      assert sorted[k] in multiset(sorted);
      assert sorted[k] in multiset(rows);
      var i :| 0 <= i < |rows| && rows[i] == sorted[k];
      DictAnswers(tree, OID_FDB_ADDRESS, rows, FdbIndex, AddressValue, addressRows, RawBytes, i);
      NumberServed(tree, OID_FDB_PORT, rows, PortValue, portRows, rows[i]);
      NumberServed(tree, OID_FDB_STATUS, rows, StatusValue, statusRows, rows[i]);
    }
    ReadRowsOf(address.order, entry, sorted, CanonicalFdb);
  }

  // The same round trip for the forwarding table: every row, once, in MAC order.
  lemma FdbRoundTrip(entries: seq<Binding>, other: seq<Binding>, rows: seq<FdbRow>) returns (sorted: seq<FdbRow>)
    requires ProperFdb(rows) && FdbEntries(entries, other, rows)
    ensures RowOrder(sorted, rows, FdbIndex)
    ensures FdbTable(SortMibTree(entries)) == Some(MapAll(sorted, CanonicalFdb))
  {
    var tree := SortMibTree(entries);
    FdbColumns(entries, other, rows);
    var addressRows := WalkedCells(tree, OID_FDB_ADDRESS);
    var portRows := WalkedCells(tree, OID_FDB_PORT);
    var statusRows := WalkedCells(tree, OID_FDB_STATUS);
    ColumnNumbers(tree, OID_FDB_PORT, rows, PortValue, portRows);
    ColumnNumbers(tree, OID_FDB_STATUS, rows, StatusValue, statusRows);
    sorted := FdbRowsServed(tree, rows, addressRows, portRows, statusRows);
  }

  // A row whose MAC is already six lower-case colon pairs comes back unchanged.
  lemma CanonicalFdbFixed(r: FdbRow, raw: seq<Byte>)
    requires |raw| == 6 && r.mac == BytesToMac(raw)
    ensures CanonicalFdb(r) == r
  {
    MacRoundTrip(raw);
  }
}
