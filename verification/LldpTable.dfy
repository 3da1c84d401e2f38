// The LLDP neighbour table: written into the tree by the simulator, read back column by
// column by the collector.
module LldpTable {
  import opened Wrappers
  import opened Lexicographic
  import opened DottedText
  import opened Dicts
  import opened Sequences
  import opened MibAgent
  import opened OidWalk
  import opened Columns
  import opened MibTables

  const OID_LLDP_REM_TABLE: Oid := [1, 0, 8802, 1, 1, 2, 1, 4, 1, 1]
  const OID_LLDP_REM_CHASSIS_ID: Oid := OID_LLDP_REM_TABLE + [5]
  const OID_LLDP_REM_PORT_ID: Oid := OID_LLDP_REM_TABLE + [7]
  const OID_LLDP_REM_SYS_NAME: Oid := OID_LLDP_REM_TABLE + [9]

  // A neighbour as the simulator holds it, and as the collector reads it.
  datatype LldpRow = LldpRow(localPortIdx: nat, chassisId: string, portId: string, sysName: string)

  datatype Neighbor = Neighbor(sysName: string, chassisId: string, remotePort: string, localPort: string)

  // ----- writing -----

  predicate LooksLikeMac(s: string) {
    ':' in s || '-' in s
  }

  predicate EncodableLldp(r: LldpRow) {
    && (if LooksLikeMac(r.chassisId) then MacBytes(r.chassisId).Some? else Ascii(r.chassisId))
    && Ascii(r.portId) && Ascii(r.sysName)
  }

  // Index: timeMark 0, local port, remote index 1.
  function LldpIndex(r: LldpRow): Oid {
    [0, r.localPortIdx, 1]
  }

  function AsciiValue(s: string): Value {
    Octets(if Ascii(s) then TextBytes(s) else [])
  }

  function ChassisValue(r: LldpRow): Value {
    if LooksLikeMac(r.chassisId)
    then Octets(match MacBytes(r.chassisId) case Some(raw) => raw case None => [])
    else AsciiValue(r.chassisId)
  }

  function PortIdValue(r: LldpRow): Value {
    AsciiValue(r.portId)
  }

  function SysNameValue(r: LldpRow): Value {
    AsciiValue(r.sysName)
  }

  function LldpBindings(r: LldpRow): seq<Binding> {
    [Binding(OID_LLDP_REM_CHASSIS_ID + LldpIndex(r), ChassisValue(r)),
     Binding(OID_LLDP_REM_PORT_ID + LldpIndex(r), PortIdValue(r)),
     Binding(OID_LLDP_REM_SYS_NAME + LldpIndex(r), SysNameValue(r))]
  }

  method BuildLldpEntries(rows: seq<LldpRow>) returns (result: Option<seq<Binding>>)
    ensures result.Some? <==> forall i :: 0 <= i < |rows| ==> EncodableLldp(rows[i])
    ensures result.Some? ==> result.value == Encode(rows, LldpBindings)
  {
    result := BuildEntries(rows, EncodableLldp, LldpBindings);
  }

  // ----- reading -----

  function ReadValue(v: Value): string {
    ReadText(RawBytes(v))
  }

  function LocalPort(suffix: string): string {
    var parts := Split('.', suffix);
    "port" + if |parts| >= 2 then parts[1] else "0"
  }

  function LldpEntry(chassis: Dict<string, seq<Byte>>, port: Dict<string, string>, name: Dict<string,
      string>): string -> Option<Neighbor> {
    suffix => Some(Neighbor(Get(name, suffix, ""), BytesToMac(Get(chassis, suffix, [])), Get(port, suffix, ""), LocalPort(suffix)))
  }

  // What the collector reads from an agent with this tree.
  function LldpNeighbors(tree: seq<Binding>): Option<seq<Neighbor>> {
    match (Walked(tree, OidText(OID_LLDP_REM_CHASSIS_ID)), Walked(tree, OidText(OID_LLDP_REM_PORT_ID)), Walked(tree, OidText(OID_LLDP_REM_SYS_NAME)))
    case (Some(chassisRows), Some(portRows), Some(nameRows)) =>
      var chassis := ColumnDict(chassisRows, OidText(OID_LLDP_REM_CHASSIS_ID), RawBytes);
      var port := ColumnDict(portRows, OidText(OID_LLDP_REM_PORT_ID), ReadValue);
      var name := ColumnDict(nameRows, OidText(OID_LLDP_REM_SYS_NAME), ReadValue);
      ReadRows(chassis.order, LldpEntry(chassis, port, name))
    case _ => None
  }

  method WalkLldpNeighbors(client: SNMPClient, agent: SNMPAgent) returns (r: Option<seq<Neighbor>>)
    requires agent.Valid() && OrderedTree(agent.mibTree)
    modifies client
    ensures unchanged(agent)
    ensures r == LldpNeighbors(agent.mibTree)
  {
    var chassisRows := client.Walk(agent, OidText(OID_LLDP_REM_CHASSIS_ID));
    var portRows := client.Walk(agent, OidText(OID_LLDP_REM_PORT_ID));
    var nameRows := client.Walk(agent, OidText(OID_LLDP_REM_SYS_NAME));
    if chassisRows == None || portRows == None || nameRows == None {
      return None;
    }
    var chassis := CollectColumn(chassisRows.value, OidText(OID_LLDP_REM_CHASSIS_ID), RawBytes);
    var port := CollectColumn(portRows.value, OidText(OID_LLDP_REM_PORT_ID), ReadValue);
    var name := CollectColumn(nameRows.value, OidText(OID_LLDP_REM_SYS_NAME), ReadValue);
    r := CollectRows(chassis.order, LldpEntry(chassis, port, name));
  }

  // ----- the round trip -----

  // One neighbour per local port, and rows that can be encoded.
  ghost predicate ProperLldp(rows: seq<LldpRow>) {
    && (forall r :: r in rows ==> EncodableLldp(r))
    && DistinctPorts(rows)
  }

  // What becomes of a neighbour on its way.
  function ReadBack(r: LldpRow): Neighbor {
    Neighbor(ReadValue(SysNameValue(r)), BytesToMac(RawBytes(ChassisValue(r))), ReadValue(PortIdValue(r)),
             "port" + Decimal(r.localPortIdx))
  }

  ghost predicate LldpEntries(entries: seq<Binding>, other: seq<Binding>, rows: seq<LldpRow>) {
    && multiset(entries) == multiset(other) + multiset(Encode(rows, LldpBindings))
    && forall b :: b in other ==>
         !(OID_LLDP_REM_CHASSIS_ID < b.oid) && !(OID_LLDP_REM_PORT_ID < b.oid) && !(OID_LLDP_REM_SYS_NAME < b.oid)
  }

  lemma OneLldpBindingPerColumn(r: LldpRow, b: Binding)
    requires b in LldpBindings(r)
    ensures OID_LLDP_REM_CHASSIS_ID < b.oid ==> b == Binding(OID_LLDP_REM_CHASSIS_ID + LldpIndex(r), ChassisValue(r))
    ensures OID_LLDP_REM_PORT_ID < b.oid ==> b == Binding(OID_LLDP_REM_PORT_ID + LldpIndex(r), PortIdValue(r))
    ensures OID_LLDP_REM_SYS_NAME < b.oid ==> b == Binding(OID_LLDP_REM_SYS_NAME + LldpIndex(r), SysNameValue(r))
  {
    assert OID_LLDP_REM_CHASSIS_ID < b.oid ==> b.oid[10] == OID_LLDP_REM_CHASSIS_ID[10];
    assert OID_LLDP_REM_PORT_ID < b.oid ==> b.oid[10] == OID_LLDP_REM_PORT_ID[10];
    assert OID_LLDP_REM_SYS_NAME < b.oid ==> b.oid[10] == OID_LLDP_REM_SYS_NAME[10];
  }

  lemma IndexDiffers(r: LldpRow, q: LldpRow)
    requires r.localPortIdx != q.localPortIdx
    ensures LldpIndex(r) != LldpIndex(q)
  {
    assert LldpIndex(r)[1] != LldpIndex(q)[1];
  }

  lemma LldpColumn(entries: seq<Binding>, other: seq<Binding>, rows: seq<LldpRow>, column: Oid, value: LldpRow -> Value)
    requires ProperLldp(rows) && LldpEntries(entries, other, rows)
    requires column in {OID_LLDP_REM_CHASSIS_ID, OID_LLDP_REM_PORT_ID, OID_LLDP_REM_SYS_NAME}
    requires forall r, b :: b in LldpBindings(r) && column < b.oid ==> b == Binding(column + LldpIndex(r), value(r))
    requires forall r :: Binding(column + LldpIndex(r), value(r)) in LldpBindings(r)
    ensures OrderedTree(SortMibTree(entries))
    ensures ColumnFrom(SortMibTree(entries), column, rows, LldpIndex, value)
  {
    forall i, j | 0 <= i < j < |rows| ensures LldpIndex(rows[i]) != LldpIndex(rows[j]) {
      IndexDiffers(rows[i], rows[j]);
    }
    ColumnFromEntries(entries, other, rows, LldpBindings, column, LldpIndex, value);
  }

  lemma LldpColumns(entries: seq<Binding>, other: seq<Binding>, rows: seq<LldpRow>)
    requires ProperLldp(rows) && LldpEntries(entries, other, rows)
    ensures OrderedTree(SortMibTree(entries))
    ensures ColumnFrom(SortMibTree(entries), OID_LLDP_REM_CHASSIS_ID, rows, LldpIndex, ChassisValue)
    ensures ColumnFrom(SortMibTree(entries), OID_LLDP_REM_PORT_ID, rows, LldpIndex, PortIdValue)
    ensures ColumnFrom(SortMibTree(entries), OID_LLDP_REM_SYS_NAME, rows, LldpIndex, SysNameValue)
  {
    forall r, b | b in LldpBindings(r)
      ensures OID_LLDP_REM_CHASSIS_ID < b.oid ==> b == Binding(OID_LLDP_REM_CHASSIS_ID + LldpIndex(r), ChassisValue(r))
      ensures OID_LLDP_REM_PORT_ID < b.oid ==> b == Binding(OID_LLDP_REM_PORT_ID + LldpIndex(r), PortIdValue(r))
      ensures OID_LLDP_REM_SYS_NAME < b.oid ==> b == Binding(OID_LLDP_REM_SYS_NAME + LldpIndex(r), SysNameValue(r))
    {
      OneLldpBindingPerColumn(r, b);
    }
    LldpColumn(entries, other, rows, OID_LLDP_REM_CHASSIS_ID, ChassisValue);
    LldpColumn(entries, other, rows, OID_LLDP_REM_PORT_ID, PortIdValue);
    LldpColumn(entries, other, rows, OID_LLDP_REM_SYS_NAME, SysNameValue);
  }

  lemma TextServed(tree: seq<Binding>, column: Oid, rows: seq<LldpRow>, value: LldpRow -> Value, pairs: seq<Pair>,
      r: LldpRow)
    requires OrderedTree(tree) && column != [] && ColumnFrom(tree, column, rows, LldpIndex, value)
    requires Walked(tree, OidText(column)) == Some(pairs) && r in rows
    ensures Get(ColumnDict(pairs, OidText(column), ReadValue), OidText(LldpIndex(r)), "") == ReadValue(value(r))
  {
    var i :| 0 <= i < |rows| && rows[i] == r;
    DictAnswers(tree, column, rows, LldpIndex, value, pairs, ReadValue, i);
  }

  lemma ChassisServed(tree: seq<Binding>, rows: seq<LldpRow>, pairs: seq<Pair>, r: LldpRow)
    requires OrderedTree(tree) && ColumnFrom(tree, OID_LLDP_REM_CHASSIS_ID, rows, LldpIndex, ChassisValue)
    requires Walked(tree, OidText(OID_LLDP_REM_CHASSIS_ID)) == Some(pairs) && r in rows
    ensures Get(ColumnDict(pairs, OidText(OID_LLDP_REM_CHASSIS_ID), RawBytes), OidText(LldpIndex(r)), []) == RawBytes(ChassisValue(r))
  {
    var i :| 0 <= i < |rows| && rows[i] == r;
    DictAnswers(tree, OID_LLDP_REM_CHASSIS_ID, rows, LldpIndex, ChassisValue, pairs, RawBytes, i);
  }

  lemma LocalPortOfIndex(r: LldpRow)
    ensures LocalPort(OidText(LldpIndex(r))) == "port" + Decimal(r.localPortIdx)
  {
    OidTextSplit(LldpIndex(r));
  }

  lemma LldpRowsServed(tree: seq<Binding>, rows: seq<LldpRow>, chassisRows: seq<Pair>, portRows: seq<Pair>,
      nameRows: seq<Pair>)
    returns (sorted: seq<LldpRow>)
    requires OrderedTree(tree)
    requires ColumnFrom(tree, OID_LLDP_REM_CHASSIS_ID, rows, LldpIndex, ChassisValue)
    requires ColumnFrom(tree, OID_LLDP_REM_PORT_ID, rows, LldpIndex, PortIdValue)
    requires ColumnFrom(tree, OID_LLDP_REM_SYS_NAME, rows, LldpIndex, SysNameValue)
    requires Walked(tree, OidText(OID_LLDP_REM_CHASSIS_ID)) == Some(chassisRows)
    requires Walked(tree, OidText(OID_LLDP_REM_PORT_ID)) == Some(portRows)
    requires Walked(tree, OidText(OID_LLDP_REM_SYS_NAME)) == Some(nameRows)
    ensures RowOrder(sorted, rows, LldpIndex)
    ensures var chassis := ColumnDict(chassisRows, OidText(OID_LLDP_REM_CHASSIS_ID), RawBytes);
            var port := ColumnDict(portRows, OidText(OID_LLDP_REM_PORT_ID), ReadValue);
            var name := ColumnDict(nameRows, OidText(OID_LLDP_REM_SYS_NAME), ReadValue);
            ReadRows(chassis.order, LldpEntry(chassis, port, name)) == Some(MapAll(sorted, ReadBack))
  {
    var chassis := ColumnDict(chassisRows, OidText(OID_LLDP_REM_CHASSIS_ID), RawBytes);
    var port := ColumnDict(portRows, OidText(OID_LLDP_REM_PORT_ID), ReadValue);
    var name := ColumnDict(nameRows, OidText(OID_LLDP_REM_SYS_NAME), ReadValue);
    sorted := DictOrder(tree, OID_LLDP_REM_CHASSIS_ID, rows, LldpIndex, ChassisValue, chassisRows, RawBytes);
    var entry := LldpEntry(chassis, port, name);
    forall k | 0 <= k < |sorted| ensures entry(chassis.order[k]) == Some(ReadBack(sorted[k])) {
      assert sorted[k] in multiset(sorted);
      assert sorted[k] in multiset(rows);
      ChassisServed(tree, rows, chassisRows, sorted[k]);
      TextServed(tree, OID_LLDP_REM_PORT_ID, rows, PortIdValue, portRows, sorted[k]);
      TextServed(tree, OID_LLDP_REM_SYS_NAME, rows, SysNameValue, nameRows, sorted[k]);
      LocalPortOfIndex(sorted[k]);
    }
    ReadRowsOf(chassis.order, entry, sorted, ReadBack);
  }

  // Serving an encoded neighbour table, amid anything else outside its three columns, and
  // reading it back gives every neighbour, once, in the order of the local ports.
  lemma LldpRoundTrip(entries: seq<Binding>, other: seq<Binding>, rows: seq<LldpRow>) returns (sorted: seq<LldpRow>)
    requires ProperLldp(rows) && LldpEntries(entries, other, rows)
    ensures RowOrder(sorted, rows, LldpIndex)
    ensures LldpNeighbors(SortMibTree(entries)) == Some(MapAll(sorted, ReadBack))
  {
    var tree := SortMibTree(entries);
    LldpColumns(entries, other, rows);
    var chassisRows := WalkedCells(tree, OID_LLDP_REM_CHASSIS_ID);
    var portRows := WalkedCells(tree, OID_LLDP_REM_PORT_ID);
    var nameRows := WalkedCells(tree, OID_LLDP_REM_SYS_NAME);
    sorted := LldpRowsServed(tree, rows, chassisRows, portRows, nameRows);
  }

  // ----- two neighbours on one port -----

  function Ports(rows: seq<LldpRow>): set<nat> {
    set i | 0 <= i < |rows| :: rows[i].localPortIdx
  }

  ghost predicate DistinctPorts(rows: seq<LldpRow>) {
    forall i, j :: 0 <= i < j < |rows| ==> rows[i].localPortIdx != rows[j].localPortIdx
  }

  lemma {:induction false} PortsBound(rows: seq<LldpRow>)
    ensures |Ports(rows)| <= |rows|
  {
    if rows != [] {
      var front, last := rows[..|rows| - 1], rows[|rows| - 1];
      PortsBound(front);
      assert Ports(rows) == Ports(front) + {last.localPortIdx} by {
        assert forall i :: 0 <= i < |front| ==> front[i] == rows[i];
      }
    }
  }

  lemma FewerPorts(rows: seq<LldpRow>, i: nat, j: nat)
    requires i < j < |rows| && rows[i].localPortIdx == rows[j].localPortIdx
    ensures |Ports(rows)| < |rows|
  {
    var others := rows[..j] + rows[j + 1..];
    forall k | 0 <= k < |rows| ensures rows[k].localPortIdx in Ports(others) {
      var at := if k < j then k else if k == j then i else k - 1;
      assert others[at].localPortIdx == rows[k].localPortIdx;
    }
    assert forall k :: 0 <= k < |others| ==> others[k] == rows[if k < j then k else k + 1];
    assert Ports(rows) == Ports(others);
    PortsBound(others);
  }

  lemma {:induction false} DistinctBound(s: seq<nat>, all: set<nat>)
    requires forall i, j :: 0 <= i < j < |s| ==> s[i] != s[j]
    requires forall i :: 0 <= i < |s| ==> s[i] in all
    ensures |s| <= |all|
  {
    if s != [] {
      var n := |s| - 1;
      DistinctBound(s[..n], all - {s[n]});
    }
  }

  // The port in an index below a column.
  function PortIn(column: Oid, oid: Oid): nat {
    if |oid| == |column| + 3 then oid[|column| + 1] else 0
  }

  lemma PortOfIndex(column: Oid, r: LldpRow)
    ensures PortIn(column, column + LldpIndex(r)) == r.localPortIdx
  {}

  function PortOf(b: Binding): nat {
    PortIn(OID_LLDP_REM_CHASSIS_ID, b.oid)
  }

  lemma ChassisBinding(entries: seq<Binding>, other: seq<Binding>, rows: seq<LldpRow>, b: Binding)
    requires LldpEntries(entries, other, rows) && b in SortMibTree(entries) && OID_LLDP_REM_CHASSIS_ID < b.oid
    ensures b.oid == OID_LLDP_REM_CHASSIS_ID + [0, PortOf(b), 1] && PortOf(b) in Ports(rows)
  {
    TreeHolds(entries, other, rows, LldpBindings, b);
    var i :| 0 <= i < |rows| && b in LldpBindings(rows[i]);
    OneLldpBindingPerColumn(rows[i], b);
    PortOfIndex(OID_LLDP_REM_CHASSIS_ID, rows[i]);
  }

  // The walk of the column finds at most one binding for each port.
  lemma WalkBound(entries: seq<Binding>, other: seq<Binding>, rows: seq<LldpRow>)
    requires LldpEntries(entries, other, rows)
    ensures var tree := SortMibTree(entries); |FirstBelow(tree, OID_LLDP_REM_CHASSIS_ID, |tree|)| <= |Ports(rows)|
  {
    var tree := SortMibTree(entries);
    SortMeaning(entries);
    var found := FirstBelow(tree, OID_LLDP_REM_CHASSIS_ID, |tree|);
    FirstBelowAscends(tree, OID_LLDP_REM_CHASSIS_ID, |tree|);
    var ports := seq(|found|, k requires 0 <= k < |found| => PortOf(found[k]));
    forall k | 0 <= k < |found|
      ensures ports[k] in Ports(rows) && found[k].oid == OID_LLDP_REM_CHASSIS_ID + [0, ports[k], 1]
    {
      FirstBelowHolds(tree, OID_LLDP_REM_CHASSIS_ID, |tree|, found[k]);
      ChassisBinding(entries, other, rows, found[k]);
    }
    forall i, j | 0 <= i < j < |ports| ensures ports[i] != ports[j] {
      Irreflexive(found[j].oid);
    }
    DistinctBound(ports, Ports(rows));
  }

  lemma {:induction false} DictBound<V>(rows: seq<Pair>, prefix: string, extract: Value -> V)
    ensures |ColumnDict(rows, prefix, extract).order| <= |rows|
  {
    if rows != [] { DictBound(rows[..|rows| - 1], prefix, extract); }
  }

  lemma {:induction false} ReadRowsLength<T>(order: seq<string>, entry: string -> Option<T>)
    ensures ReadRows(order, entry).Some? ==> |ReadRows(order, entry).value| == |order|
  {
    if order != [] { ReadRowsLength(order[..|order| - 1], entry); }
  }

  lemma NeighborsBound(entries: seq<Binding>, other: seq<Binding>, rows: seq<LldpRow>)
    requires LldpEntries(entries, other, rows)
    ensures var r := LldpNeighbors(SortMibTree(entries)); r.Some? ==> |r.value| <= |Ports(rows)|
  {
    var tree := SortMibTree(entries);
    var chassisRows := WalkedCells(tree, OID_LLDP_REM_CHASSIS_ID);
    var portRows := WalkedCells(tree, OID_LLDP_REM_PORT_ID);
    var nameRows := WalkedCells(tree, OID_LLDP_REM_SYS_NAME);
    WalkBound(entries, other, rows);
    var chassis := ColumnDict(chassisRows, OidText(OID_LLDP_REM_CHASSIS_ID), RawBytes);
    var port := ColumnDict(portRows, OidText(OID_LLDP_REM_PORT_ID), ReadValue);
    var name := ColumnDict(nameRows, OidText(OID_LLDP_REM_SYS_NAME), ReadValue);
    DictBound(chassisRows, OidText(OID_LLDP_REM_CHASSIS_ID), RawBytes);
    ReadRowsLength(chassis.order, LldpEntry(chassis, port, name));
  }

  ghost predicate ComesBack(entries: seq<Binding>, rows: seq<LldpRow>) {
    exists sorted: seq<LldpRow> :: multiset(sorted) == multiset(rows) && LldpNeighbors(SortMibTree(entries)) == Some(MapAll(sorted, ReadBack))
  }

  // All neighbours come back, each once, exactly if no two are on one local port: the
  // simulator gives them the same index.
  lemma LldpExactly(entries: seq<Binding>, other: seq<Binding>, rows: seq<LldpRow>)
    requires (forall r :: r in rows ==> EncodableLldp(r)) && LldpEntries(entries, other, rows)
    ensures ComesBack(entries, rows) <==> DistinctPorts(rows)
  {
    if DistinctPorts(rows) {
      var sorted := LldpRoundTrip(entries, other, rows);
      assert multiset(sorted) == multiset(rows);
    } else {
      var i, j :| 0 <= i < j < |rows| && rows[i].localPortIdx == rows[j].localPortIdx;
      FewerPorts(rows, i, j);
      NeighborsBound(entries, other, rows);
      forall sorted: seq<LldpRow> | multiset(sorted) == multiset(rows)
        ensures LldpNeighbors(SortMibTree(entries)) != Some(MapAll(sorted, ReadBack))
      {
        assert |sorted| == |multiset(sorted)| == |multiset(rows)| == |rows|;
      }
    }
  }

  // ----- what survives unchanged -----

  predicate Printable(s: string) {
    forall i :: 0 <= i < |s| ==> 32 as char <= s[i] < 127 as char
  }

  lemma {:induction false} FlatHex(raw: seq<Byte>)
    ensures |Flat(HexPairs(raw))| == 2 * |raw| && Printable(Flat(HexPairs(raw)))
    ensures ':' !in Flat(HexPairs(raw)) && '-' !in Flat(HexPairs(raw))
  {
    if raw != [] {
      FlatHex(raw[1..]);
      assert HexPairs(raw)[1..] == HexPairs(raw[1..]);
      HexPrintable(raw[0]);
    }
  }

  lemma HexPrintable(b: Byte)
    ensures Printable(HexPair(b))
  {}

  // A text comes back as it was exactly when it is printable; any other comes back as
  // hexadecimal.
  lemma TextExactly(s: string)
    requires Ascii(s)
    ensures ReadValue(AsciiValue(s)) == s <==> Printable(s)
  {
    var raw := TextBytes(s);
    if Printable(s) {
      assert forall i :: 0 <= i < |raw| ==> 32 <= raw[i] < 127;
    } else {
      var i :| 0 <= i < |s| && !(32 as char <= s[i] < 127 as char);
      assert !(32 <= raw[i] < 127);
      FlatHex(raw);
    }
  }

  // A chassis identifier comes back as it was exactly when it is empty or six lower-case
  // colon pairs; a plain name comes back as hexadecimal.
  lemma ChassisExactly(r: LldpRow)
    requires EncodableLldp(r)
    ensures ReadBack(r).chassisId == r.chassisId <==>
            r.chassisId == "" || exists raw: seq<Byte> :: |raw| == 6 && r.chassisId == BytesToMac(raw)
  {
    var raw := RawBytes(ChassisValue(r));
    FlatHex(raw);
    if r.chassisId != "" {
      if LooksLikeMac(r.chassisId) {
        if exists w: seq<Byte> :: |w| == 6 && r.chassisId == BytesToMac(w) {
          var w: seq<Byte> :| |w| == 6 && r.chassisId == BytesToMac(w);
          MacRoundTrip(w);
        }
      } else {
        PlainChassis(r.chassisId);
      }
    }
  }

  lemma PlainChassis(s: string)
    requires Ascii(s) && s != "" && !LooksLikeMac(s)
    ensures BytesToMac(TextBytes(s)) != s
    ensures forall w: seq<Byte> :: |w| == 6 ==> s != BytesToMac(w)
  {
    FlatHex(TextBytes(s));
    forall w: seq<Byte> | |w| == 6 ensures ':' in BytesToMac(w) {
      JoinedHasColon(HexPairs(w));
    }
  }

  lemma JoinedHasColon(parts: seq<string>)
    requires |parts| >= 2
    ensures ':' in Join(':', parts)
  {
    assert (parts[0] + [':'])[|parts[0]|] == ':';
  }
}
