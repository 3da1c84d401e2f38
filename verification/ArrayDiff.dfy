// Differences of two tables of rows, matched by an identity field or by position.
module ArrayDiff {
  import opened Wrappers
  import opened Lexicographic
  import opened Dicts
  import opened Json
  import opened Sequences
  import opened DiffEngine
  import opened DottedDiff

  datatype Identity = ById(id: Json) | ByPosition(i: nat)

  datatype RowChange =
    | RowAdded(identity: Identity, row: Json)
    | RowRemoved(identity: Identity, row: Json)
    | RowChanged(identity: Identity, changes: seq<Change<string>>)

  datatype RowDiff = RowDiff(changes: seq<RowChange>, unchangedCount: nat)

  // ----- the identity field -----

  // The registry; None inside says that rows of the area are matched by position.
  function Registered(area: string): Option<Option<string>> {
    if area == "appliance_vlans" then Some(Some("id"))
    else if area == "appliance_firewall_l3" then Some(None)
    else if area == "wireless_ssids" then Some(Some("number"))
    else if area == "switch_device_ports" then Some(Some("portId"))
    else None
  }

  predicate EndsWith(k: string, suffix: string) {
    |k| >= |suffix| && k[|k| - |suffix|..] == suffix
  }

  function FirstEnding(keys: seq<string>, suffix: string): Option<string> {
    if keys == [] then None
    else if EndsWith(keys[0], suffix) then Some(keys[0])
    else FirstEnding(keys[1..], suffix)
  }

  // The field that identifies a row: registered, or guessed from a sample row, whose keys
  // come in the sorted order of canonical JSON.
  function IdentityKey(area: string, sample: Json): Option<string> {
    match Registered(area)
    case Some(key) => key
    case None =>
      var keys := if sample.Obj? then Sorted(sample.fields.Keys) else [];
      match FirstEnding(keys, "Id")
      case Some(k) => Some(k)
      case None =>
        match FirstEnding(keys, "id")
        case Some(k) => Some(k)
        case None => FirstEnding(keys, "number")
  }

  function Sample(rowsA: seq<Json>, rowsB: seq<Json>): Json {
    if rowsA != [] then rowsA[0] else if rowsB != [] then rowsB[0] else Obj(map[])
  }

  ghost predicate AllRows(rows: seq<Json>) {
    forall i :: 0 <= i < |rows| ==> rows[i].Obj?
  }

  // A value that Python accepts as a dict key.
  predicate Hashable(j: Json) {
    !j.Arr? && !j.Obj?
  }

  // Every row's identity, where it has one, can be a dict key; otherwise matching raises.
  predicate HashableIds(rows: seq<Json>, idKey: string) {
    forall i :: 0 <= i < |rows| ==> rows[i].Obj? && idKey in rows[i].fields ==> Hashable(rows[i].fields[idKey])
  }

  // The rows that have an identity, by it; of rows with the same one the last counts.
  function RowsById(rows: seq<Json>, idKey: string): Dict<Json, Json> {
    if rows == [] then Empty()
    else
      var before, r := RowsById(rows[..|rows| - 1], idKey), rows[|rows| - 1];
      if r.Obj? && idKey in r.fields then Put(before, r.fields[idKey], r) else before
  }

  lemma {:induction false} RowsByIdWellFormed(rows: seq<Json>, idKey: string)
    ensures WellFormed(RowsById(rows, idKey))
    ensures AllRows(rows) ==> forall id :: id in RowsById(rows, idKey).at ==> RowsById(rows, idKey).at[id].Obj?
  {
    if rows != [] { RowsByIdWellFormed(rows[..|rows| - 1], idKey); }
  }

  // ----- what one row, or one pair of rows, adds -----

  function Nothing(): RowDiff {
    RowDiff([], 0)
  }

  function Join(d: RowDiff, e: RowDiff): RowDiff {
    RowDiff(d.changes + e.changes, d.unchangedCount + e.unchangedCount)
  }

  function Sum<T>(keys: seq<T>, part: T -> RowDiff): RowDiff {
    if keys == [] then Nothing() else Join(Sum(keys[..|keys| - 1], part), part(keys[|keys| - 1]))
  }

  function Compare(identity: Identity, ra: Json, rb: Json, h: Json -> string): RowDiff
    requires ra.Obj? && rb.Obj?
  {
    var sub := Texts("", ObjectDiff(ra, rb, h).changes);
    if sub != [] then RowDiff([RowChanged(identity, sub)], 0) else RowDiff([], 1)
  }

  // The row under an identity in the first table, in the second, or in both.
  function Part(identity: Identity, ra: Option<Json>, rb: Option<Json>, h: Json -> string): RowDiff {
    match (ra, rb)
    case (None, Some(row)) => RowDiff([RowAdded(identity, row)], 0)
    case (Some(row), None) => RowDiff([RowRemoved(identity, row)], 0)
    case (Some(x), Some(y)) => if x.Obj? && y.Obj? then Compare(identity, x, y, h) else Nothing()
    case (None, None) => Nothing()
  }

  method ComparePart(identity: Identity, ra: Option<Json>, rb: Option<Json>, h: Json -> string) returns (d: RowDiff)
    ensures d == Part(identity, ra, rb, h)
  {
    d := Nothing();
    if ra == None && rb.Some? {
      d := RowDiff([RowAdded(identity, rb.value)], 0);
    } else if ra.Some? && rb == None {
      d := RowDiff([RowRemoved(identity, ra.value)], 0);
    } else if ra.Some? && rb.Some? && ra.value.Obj? && rb.value.Obj? {
      var sub, _ := ObjectDiffText(ra.value, rb.value, "", h);
      d := if sub != [] then RowDiff([RowChanged(identity, sub)], 0) else RowDiff([], 1);
    }
  }

  // ----- by identity -----

  type RowMap = map<Json, Json>

  function Row(m: RowMap, id: Json): Option<Json> {
    if id in m then Some(m[id]) else None
  }

  function IdPart(a: RowMap, b: RowMap, h: Json -> string): Json -> RowDiff {
    id => Part(ById(id), Row(a, id), Row(b, id), h)
  }

  // The identities that the first table does not have.
  function NotIn(ids: seq<Json>, a: RowMap): (r: seq<Json>)
    ensures forall id :: id in r <==> id in ids && id !in a
  {
    if ids == [] then [] else NotIn(ids[..|ids| - 1], a) + if ids[|ids| - 1] !in a then [ids[|ids| - 1]] else []
  }

  // The first table's identities, then those that only the second has.
  function AllIds(a: Dict<Json, Json>, b: Dict<Json, Json>): seq<Json> {
    a.order + NotIn(b.order, a.at)
  }

  lemma SumOneMore<T>(keys: seq<T>, i: nat, part: T -> RowDiff)
    requires i < |keys|
    ensures Sum(keys[..i + 1], part) == Join(Sum(keys[..i], part), part(keys[i]))
  {
    assert keys[..i + 1][..i] == keys[..i];
  }

  method DiffById(a: Dict<Json, Json>, b: Dict<Json, Json>, h: Json -> string) returns (d: RowDiff)
    ensures d == Sum(AllIds(a, b), IdPart(a.at, b.at, h))
  {
    var ids := AllIds(a, b);
    d := Nothing();
    for i := 0 to |ids|
      invariant d == Sum(ids[..i], IdPart(a.at, b.at, h))
    {
      SumOneMore(ids, i, IdPart(a.at, b.at, h));
      var e := ComparePart(ById(ids[i]), Row(a.at, ids[i]), Row(b.at, ids[i]), h);
      d := Join(d, e);
    }
    assert ids[..|ids|] == ids;
  }

  // ----- by position -----

  function RowAt(rows: seq<Json>, i: nat): Option<Json> {
    if i < |rows| then Some(rows[i]) else None
  }

  function PositionPart(rowsA: seq<Json>, rowsB: seq<Json>, h: Json -> string): nat -> RowDiff {
    (i: nat) => Part(ByPosition(i), RowAt(rowsA, i), RowAt(rowsB, i), h)
  }

  function Range(n: nat): (r: seq<nat>)
    ensures |r| == n && forall i :: 0 <= i < n ==> r[i] == i
  {
    seq(n, i => i)
  }

  function Longer(a: nat, b: nat): nat {
    if a < b then b else a
  }

  // The pairs, then the rest of the first table, then the rest of the second.
  method DiffByPosition(rowsA: seq<Json>, rowsB: seq<Json>, h: Json -> string) returns (d: RowDiff)
    ensures d == Sum(Range(Longer(|rowsA|, |rowsB|)), PositionPart(rowsA, rowsB, h))
  {
    ghost var part := PositionPart(rowsA, rowsB, h);
    d := Nothing();
    var i := 0;
    while i < |rowsA| && i < |rowsB|
      invariant i <= |rowsA| && i <= |rowsB|
      invariant d == Sum(Range(i), part)
    {
      SumNext(i, part);
      var e := ComparePart(ByPosition(i), Some(rowsA[i]), Some(rowsB[i]), h);
      d := Join(d, e);
      i := i + 1;
    }
    if i < |rowsA| {
      d := Rest(rowsA, rowsB, d, i, |rowsA|, h);
    } else {
      d := Rest(rowsA, rowsB, d, i, |rowsB|, h);
    }
  }

  // The rows from position i on, which only one of the tables has.
  method Rest(rowsA: seq<Json>, rowsB: seq<Json>, before: RowDiff, i: nat, n: nat,
      h: Json -> string) returns (d: RowDiff)
    requires i <= n && before == Sum(Range(i), PositionPart(rowsA, rowsB, h))
    requires (i == |rowsA| && n == |rowsB|) || (i == |rowsB| && n == |rowsA|)
    ensures d == Sum(Range(n), PositionPart(rowsA, rowsB, h))
  {
    d := before;
    for j := i to n
      invariant d == Sum(Range(j), PositionPart(rowsA, rowsB, h))
    {
      SumNext(j, PositionPart(rowsA, rowsB, h));
      LonelyRow(rowsA, rowsB, h, j);
      if j < |rowsA| {
        d := Join(d, RowDiff([RowRemoved(ByPosition(j), rowsA[j])], 0));
      } else {
        d := Join(d, RowDiff([RowAdded(ByPosition(j), rowsB[j])], 0));
      }
    }
  }

  lemma LonelyRow(rowsA: seq<Json>, rowsB: seq<Json>, h: Json -> string, j: nat)
    ensures |rowsB| <= j < |rowsA| ==> PositionPart(rowsA, rowsB, h)(j) == RowDiff([RowRemoved(ByPosition(j), rowsA[j])], 0)
    ensures |rowsA| <= j < |rowsB| ==> PositionPart(rowsA, rowsB, h)(j) == RowDiff([RowAdded(ByPosition(j), rowsB[j])], 0)
  {}

  lemma SumNext(i: nat, part: nat -> RowDiff)
    ensures Sum(Range(i + 1), part) == Join(Sum(Range(i), part), part(i))
  {
    assert Range(i + 1)[..i] == Range(i);
  }

  // ----- the table diff -----

  // None where an identity cannot be a dict key and matching raises.
  function TableDiff(area: string, rowsA: seq<Json>, rowsB: seq<Json>, h: Json -> string): Option<RowDiff>
    requires AllRows(rowsA) && AllRows(rowsB)
  {
    match IdentityKey(area, Sample(rowsA, rowsB))
    case None => Some(Sum(Range(Longer(|rowsA|, |rowsB|)), PositionPart(rowsA, rowsB, h)))
    case Some(idKey) =>
      if !HashableIds(rowsA, idKey) || !HashableIds(rowsB, idKey) then None
      else Some(MatchedDiff(rowsA, rowsB, idKey, h))
  }

  function MatchedDiff(rowsA: seq<Json>, rowsB: seq<Json>, idKey: string, h: Json -> string): RowDiff {
    var a, b := RowsById(rowsA, idKey), RowsById(rowsB, idKey);
    Sum(AllIds(a, b), IdPart(a.at, b.at, h))
  }

  method ArrayDiff(area: string, rowsA: seq<Json>, rowsB: seq<Json>, h: Json -> string) returns (r: Option<RowDiff>)
    requires AllRows(rowsA) && AllRows(rowsB)
    ensures r == TableDiff(area, rowsA, rowsB, h)
  {
    var idKey := IdentityKey(area, Sample(rowsA, rowsB));
    if idKey == None {
      var d := DiffByPosition(rowsA, rowsB, h);
      return Some(d);
    }
    if !HashableIds(rowsA, idKey.value) || !HashableIds(rowsB, idKey.value) {
      return None;
    }
    var a := IndexRows(rowsA, idKey.value);
    var b := IndexRows(rowsB, idKey.value);
    var d := DiffById(a, b, h);
    r := Some(d);
  }

  method IndexRows(rows: seq<Json>, idKey: string) returns (d: Dict<Json, Json>)
    requires AllRows(rows)
    ensures d == RowsById(rows, idKey)
  {
    d := Empty();
    for i := 0 to |rows|
      invariant d == RowsById(rows[..i], idKey)
    {
      assert rows[..i + 1][..i] == rows[..i];
      if idKey in rows[i].fields {
        d := Put(d, rows[i].fields[idKey], rows[i]);
      }
    }
    assert rows[..|rows|] == rows;
  }

  // ----- every row is counted once -----

  lemma {:induction false} SumCount<T>(keys: seq<T>, part: T -> RowDiff)
    requires forall i :: 0 <= i < |keys| ==> |part(keys[i]).changes| + part(keys[i]).unchangedCount == 1
    ensures |Sum(keys, part).changes| + Sum(keys, part).unchangedCount == |keys|
  {
    if keys != [] { SumCount(keys[..|keys| - 1], part); }
  }

  lemma {:induction false} SumHolds<T>(keys: seq<T>, part: T -> RowDiff, c: RowChange)
    ensures c in Sum(keys, part).changes <==> exists i :: 0 <= i < |keys| && c in part(keys[i]).changes
  {
    if keys != [] { SumHolds(keys[..|keys| - 1], part, c); }
  }

  // By position, changes and unchanged rows together are as many as the longer table has rows.
  lemma PositionsCounted(rowsA: seq<Json>, rowsB: seq<Json>, h: Json -> string)
    requires AllRows(rowsA) && AllRows(rowsB)
    ensures var d := Sum(Range(Longer(|rowsA|, |rowsB|)), PositionPart(rowsA, rowsB, h));
            |d.changes| + d.unchangedCount == Longer(|rowsA|, |rowsB|)
  {
    SumCount(Range(Longer(|rowsA|, |rowsB|)), PositionPart(rowsA, rowsB, h));
  }

  lemma {:induction false} NotInDistinct(ids: seq<Json>, a: RowMap)
    requires forall i, j :: 0 <= i < j < |ids| ==> ids[i] != ids[j]
    ensures forall i, j :: 0 <= i < j < |NotIn(ids, a)| ==> NotIn(ids, a)[i] != NotIn(ids, a)[j]
  {
    if ids != [] { NotInDistinct(ids[..|ids| - 1], a); }
  }

  // All identities of both tables, each once.
  lemma AllIdsMean(a: Dict<Json, Json>, b: Dict<Json, Json>)
    requires WellFormed(a) && WellFormed(b)
    ensures forall id :: id in AllIds(a, b) <==> id in a.at || id in b.at
    ensures forall i, j :: 0 <= i < j < |AllIds(a, b)| ==> AllIds(a, b)[i] != AllIds(a, b)[j]
  {
    forall id ensures (id in a.order <==> id in a.at) && (id in b.order <==> id in b.at) {
      assert id in a.at.Keys <==> id in (set k | k in a.order);
      assert id in b.at.Keys <==> id in (set k | k in b.order);
    }
    NotInDistinct(b.order, a.at);
    DistinctConcat(a.order, NotIn(b.order, a.at));
  }

  lemma DistinctConcat(x: seq<Json>, y: seq<Json>)
    requires forall i, j :: 0 <= i < j < |x| ==> x[i] != x[j]
    requires forall i, j :: 0 <= i < j < |y| ==> y[i] != y[j]
    requires forall id :: id in y ==> id !in x
    ensures forall i, j :: 0 <= i < j < |x + y| ==> (x + y)[i] != (x + y)[j]
  {
    forall i, j | 0 <= i < j < |x + y| ensures (x + y)[i] != (x + y)[j] {
      if i < |x| <= j { assert y[j - |x|] in y; }
    }
  }

  lemma {:induction false} DistinctSize(s: seq<Json>, all: set<Json>)
    requires forall i, j :: 0 <= i < j < |s| ==> s[i] != s[j]
    requires forall x :: x in s <==> x in all
    ensures |s| == |all|
  {
    if s == [] {
      assert all == {};
    } else {
      var n := |s| - 1;
      assert s[n] in all && s == s[..n] + [s[n]];
      DistinctSize(s[..n], all - {s[n]});
    }
  }

  // By identity, changes and unchanged rows together are as many as there are identities.
  lemma IdentitiesCounted(rowsA: seq<Json>, rowsB: seq<Json>, idKey: string, h: Json -> string)
    requires AllRows(rowsA) && AllRows(rowsB)
    ensures var d := MatchedDiff(rowsA, rowsB, idKey, h);
            |d.changes| + d.unchangedCount == |RowsById(rowsA, idKey).at.Keys + RowsById(rowsB, idKey).at.Keys|
  {
    var a, b := RowsById(rowsA, idKey), RowsById(rowsB, idKey);
    RowsByIdWellFormed(rowsA, idKey);
    RowsByIdWellFormed(rowsB, idKey);
    AllIdsMean(a, b);
    DistinctSize(AllIds(a, b), a.at.Keys + b.at.Keys);
    var ids := AllIds(a, b);
    forall i | 0 <= i < |ids|
      ensures |IdPart(a.at, b.at, h)(ids[i]).changes| + IdPart(a.at, b.at, h)(ids[i]).unchangedCount == 1
    {
      assert ids[i] in ids;
      IdCounted(a.at, b.at, ids[i], h);
    }
    SumCount(ids, IdPart(a.at, b.at, h));
  }

  lemma IdCounted(a: RowMap, b: RowMap, id: Json, h: Json -> string)
    requires (id in a || id in b) && (id in a ==> a[id].Obj?) && (id in b ==> b[id].Obj?)
    ensures |IdPart(a, b, h)(id).changes| + IdPart(a, b, h)(id).unchangedCount == 1
  {}

  // ----- which changes are reported -----

  // A change is reported exactly for a row that only the second table has, that only the
  // first has, or that both have with different contents.
  ghost predicate Reported(c: RowChange, a: RowMap, b: RowMap, h: Json -> string) {
    c.identity.ById? &&
    var id := c.identity.id;
    match c
    case RowAdded(_, row) => id !in a && id in b && row == b[id]
    case RowRemoved(_, row) => id in a && id !in b && row == a[id]
    case RowChanged(_, changes) => id in a && id in b && a[id] != b[id] && a[id].Obj? && b[id].Obj? &&
                                   changes == Texts("", ObjectDiff(a[id], b[id], h).changes)
  }

  lemma PartReported(a: RowMap, b: RowMap, id: Json, h: Json -> string, c: RowChange)
    requires Injective(h) && (id in a ==> a[id].Obj?) && (id in b ==> b[id].Obj?)
    ensures c in IdPart(a, b, h)(id).changes <==> c.identity == ById(id) && Reported(c, a, b, h)
  {
    if id in a && id in b {
      EmptyExactlyWhenEqual(a[id], b[id], h);
    }
  }

  lemma SumReported(a: RowMap, b: RowMap, ids: seq<Json>, h: Json -> string, c: RowChange)
    requires Injective(h) && forall id :: id in ids <==> id in a || id in b
    requires (forall id :: id in a ==> a[id].Obj?) && (forall id :: id in b ==> b[id].Obj?)
    ensures c in Sum(ids, IdPart(a, b, h)).changes <==> Reported(c, a, b, h)
  {
    var part := IdPart(a, b, h);
    SumHolds(ids, part, c);
    forall i | 0 <= i < |ids| ensures c in part(ids[i]).changes <==> c.identity == ById(ids[i]) && Reported(c, a, b, h) {
      PartReported(a, b, ids[i], h, c);
    }
    if Reported(c, a, b, h) {
      assert c.identity.id in ids;
    }
  }

  lemma ChangesExactly(rowsA: seq<Json>, rowsB: seq<Json>, idKey: string, h: Json -> string, c: RowChange)
    requires AllRows(rowsA) && AllRows(rowsB) && Injective(h)
    ensures c in MatchedDiff(rowsA, rowsB, idKey, h).changes
            <==> Reported(c, RowsById(rowsA, idKey).at, RowsById(rowsB, idKey).at, h)
  {
    var a, b := RowsById(rowsA, idKey), RowsById(rowsB, idKey);
    RowsByIdWellFormed(rowsA, idKey);
    RowsByIdWellFormed(rowsB, idKey);
    AllIdsMean(a, b);
    SumReported(a.at, b.at, AllIds(a, b), h, c);
  }

  // ----- rows with unique identities -----

  ghost predicate UniqueIds(rows: seq<Json>, idKey: string) {
    AllRows(rows) && forall i, j :: 0 <= i < j < |rows| && idKey in rows[i].fields && idKey in rows[j].fields ==>
      rows[i].fields[idKey] != rows[j].fields[idKey]
  }

  lemma LastIsUnique(rows: seq<Json>, idKey: string, row: Json)
    requires UniqueIds(rows, idKey) && rows != [] && row in rows[..|rows| - 1]
    requires idKey in rows[|rows| - 1].fields && row.Obj? && idKey in row.fields
    ensures row.fields[idKey] != rows[|rows| - 1].fields[idKey]
  {
    var i :| 0 <= i < |rows| - 1 && rows[i] == row;
  }

  lemma UniqueFront(rows: seq<Json>, idKey: string)
    requires UniqueIds(rows, idKey) && rows != []
    ensures UniqueIds(rows[..|rows| - 1], idKey) && rows[|rows| - 1].Obj?
  {}

  // The row is in the table under this identity.
  predicate Holds(rows: seq<Json>, idKey: string, id: Json, row: Json) {
    row in rows && row.Obj? && idKey in row.fields && row.fields[idKey] == id
  }

  // With unique identities the table by identity holds exactly the rows that have one.
  lemma {:induction false} RowsByIdMeans(rows: seq<Json>, idKey: string, id: Json, row: Json)
    requires UniqueIds(rows, idKey)
    ensures id in RowsById(rows, idKey).at && RowsById(rows, idKey).at[id] == row <==> Holds(rows, idKey, id, row)
  {
    if rows != [] {
      var front, last := rows[..|rows| - 1], rows[|rows| - 1];
      assert row in rows <==> row in front || row == last by { assert rows == front + [last]; }
      UniqueFront(rows, idKey);
      RowsByIdMeans(front, idKey, id, row);
      if idKey in last.fields && Holds(front, idKey, id, row) { LastIsUnique(rows, idKey, row); }
    }
  }

  // ----- permuting the rows -----

  lemma {:induction false} SumConcat<T>(x: seq<T>, y: seq<T>, part: T -> RowDiff)
    ensures Sum(x + y, part) == Join(Sum(x, part), Sum(y, part))
  {
    if y == [] {
      assert x + y == x;
    } else {
      assert (x + y)[..|x + y| - 1] == x + y[..|y| - 1];
      SumConcat(x, y[..|y| - 1], part);
    }
  }

  lemma {:induction false} SumPermuted<T>(x: seq<T>, y: seq<T>, part: T -> RowDiff)
    requires multiset(x) == multiset(y)
    ensures multiset(Sum(x, part).changes) == multiset(Sum(y, part).changes)
    ensures Sum(x, part).unchangedCount == Sum(y, part).unchangedCount
    decreases |x|
  {
    if x == [] {
      assert |y| == |multiset(y)| == 0;
    } else {
      var k, rest := x[0], x[1..];
      assert x == [k] + rest;
      var front, back := TakeOut(rest, k, y);
      SumPermuted(rest, front + back, part);
      SumConcat([k], rest, part);
      SumConcat(front + [k], back, part);
      SumConcat(front, [k], part);
      SumConcat(front, back, part);
    }
  }

  lemma PermutedUnique(rows: seq<Json>, others: seq<Json>, idKey: string)
    requires UniqueIds(rows, idKey) && multiset(rows) == multiset(others)
    ensures UniqueIds(others, idKey)
  {
    forall i | 0 <= i < |others| ensures others[i] in rows {
      assert others[i] in multiset(others);
    }
    forall i, j | 0 <= i < j < |others| && idKey in others[i].fields && idKey in others[j].fields
      ensures others[i].fields[idKey] != others[j].fields[idKey]
    {
      var k :| 0 <= k < |rows| && rows[k] == others[i];
      var l :| 0 <= l < |rows| && rows[l] == others[j];
      if k == l {
        Twice(others, i, j);
        OnceInRows(rows, idKey, k);
      }
    }
  }

  lemma OnceInRows(rows: seq<Json>, idKey: string, k: nat)
    requires UniqueIds(rows, idKey) && k < |rows| && idKey in rows[k].fields
    ensures multiset(rows)[rows[k]] == 1
  {
    var front, back := rows[..k], rows[k + 1..];
    assert rows == front + [rows[k]] + back;
    assert rows[k] !in multiset(front) && rows[k] !in multiset(back) by {
      assert forall i :: 0 <= i < |front| ==> front[i] == rows[i] && front[i] != rows[k];
      assert forall i :: 0 <= i < |back| ==> back[i] == rows[k + 1 + i] && back[i] != rows[k];
    }
  }

  lemma PermutedRow(rows: seq<Json>, others: seq<Json>, idKey: string, id: Json, row: Json)
    requires UniqueIds(rows, idKey) && UniqueIds(others, idKey) && multiset(rows) == multiset(others)
    ensures id in RowsById(rows, idKey).at && RowsById(rows, idKey).at[id] == row
            <==> id in RowsById(others, idKey).at && RowsById(others, idKey).at[id] == row
  {
    RowsByIdMeans(rows, idKey, id, row);
    RowsByIdMeans(others, idKey, id, row);
    assert row in rows <==> row in multiset(rows);
    assert row in others <==> row in multiset(others);
  }

  lemma PermutedRowMap(rows: seq<Json>, others: seq<Json>, idKey: string)
    requires UniqueIds(rows, idKey) && multiset(rows) == multiset(others)
    ensures RowsById(rows, idKey).at == RowsById(others, idKey).at
  {
    PermutedUnique(rows, others, idKey);
    var a, b := RowsById(rows, idKey).at, RowsById(others, idKey).at;
    forall id | id in a ensures id in b && a[id] == b[id] { PermutedRow(rows, others, idKey, id, a[id]); }
    forall id | id in b ensures id in a { PermutedRow(rows, others, idKey, id, b[id]); }
  }

  // Permuting the rows of either table changes nothing but the order of the changes, as
  // long as the identity field stays the same and identities are unique.
  lemma OrderDoesNotMatter(rowsA: seq<Json>, othersA: seq<Json>, rowsB: seq<Json>, othersB: seq<Json>, idKey: string,
      h: Json -> string)
    requires UniqueIds(rowsA, idKey) && multiset(rowsA) == multiset(othersA)
    requires UniqueIds(rowsB, idKey) && multiset(rowsB) == multiset(othersB)
    ensures var d, e := MatchedDiff(rowsA, rowsB, idKey, h), MatchedDiff(othersA, othersB, idKey, h);
            multiset(d.changes) == multiset(e.changes) && d.unchangedCount == e.unchangedCount
  {
    PermutedUnique(rowsA, othersA, idKey);
    PermutedUnique(rowsB, othersB, idKey);
    PermutedRowMap(rowsA, othersA, idKey);
    PermutedRowMap(rowsB, othersB, idKey);
    var a, b, c, d := RowsById(rowsA, idKey), RowsById(rowsB, idKey), RowsById(othersA, idKey), RowsById(othersB, idKey);
    RowsByIdWellFormed(rowsA, idKey);
    RowsByIdWellFormed(rowsB, idKey);
    RowsByIdWellFormed(othersA, idKey);
    RowsByIdWellFormed(othersB, idKey);
    AllIdsMean(a, b);
    AllIdsMean(c, d);
    SameElements(AllIds(a, b), AllIds(c, d));
    SumPermuted(AllIds(a, b), AllIds(c, d), IdPart(a.at, b.at, h));
  }
}
