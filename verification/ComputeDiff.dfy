// The diff of two stored payloads: which shape they have, and which table is compared.
module ComputeDiff {
  import opened Wrappers
  import opened Lexicographic
  import opened Json
  import opened DiffEngine
  import opened DottedDiff
  import opened ArrayDiff

  datatype DiffResult = ArrayShape(rows: RowDiff) | ObjectShape(changes: seq<Change<string>>, unchangedCount: nat)

  // A non-empty list whose first element is an object.
  predicate IsRowList(v: Json) {
    v.Arr? && v.items != [] && v.items[0].Obj?
  }

  predicate HasRowList(j: Json) {
    j.Obj? && exists k :: k in j.fields && IsRowList(j.fields[k])
  }

  function RowsOf(v: Json): seq<Json> {
    if v.Arr? then v.items else []
  }

  function Field(j: Json, k: string): Json {
    if j.Obj? && k in j.fields then j.fields[k] else Arr([])
  }

  // The keys of both payloads merged, each sorted: a's keys first, then b's new ones.
  function MergedKeys(a: Json, b: Json): seq<string>
    requires a.Obj? && b.Obj?
  {
    Sorted(a.fields.Keys) + Sorted(b.fields.Keys - a.fields.Keys)
  }

  function MergedAt(a: Json, b: Json, k: string): Json {
    if b.Obj? && k in b.fields then b.fields[k] else Field(a, k)
  }

  function FirstRowList(a: Json, b: Json, keys: seq<string>): Option<string> {
    if keys == [] then None
    else if IsRowList(MergedAt(a, b, keys[0])) then Some(keys[0])
    else FirstRowList(a, b, keys[1..])
  }

  // The area that is compared as a table: the first row list of the merged payload, or if
  // the merge has none the first key of b (of a, when b is empty).
  function Area(a: Json, b: Json): string
    requires a.Obj? && b.Obj?
  {
    match FirstRowList(a, b, MergedKeys(a, b))
    case Some(k) => k
    case None =>
      var keys := Sorted(if b.fields != map[] then b.fields.Keys else a.fields.Keys);
      if keys != [] then keys[0] else ""
  }

  // The compared table: its area and its rows on both sides; None in object shape.
  function Table(a: Json, b: Json): Option<(string, seq<Json>, seq<Json>)> {
    if a.Arr? || b.Arr? then Some(("items", RowsOf(a), RowsOf(b)))
    else if HasRowList(a) || HasRowList(b) then
      if a.Obj? && b.Obj? then Some((Area(a, b), RowsOf(Field(a, Area(a, b))), RowsOf(Field(b, Area(a, b)))))
      else None
    else None
  }

  ghost predicate RowsAreObjects(a: Json, b: Json) {
    match Table(a, b)
    case Some((_, x, y)) => AllRows(x) && AllRows(y)
    case None => true
  }

  // None where it raises: a payload is neither list nor object, or a row's identity
  // cannot be a dict key.
  function ComputeDiff(a: Json, b: Json, h: Json -> string): Option<DiffResult>
    requires RowsAreObjects(a, b)
  {
    match Table(a, b)
    case Some((area, x, y)) =>
      (match TableDiff(area, x, y, h) case Some(d) => Some(ArrayShape(d)) case None => None)
    case None =>
      if a.Obj? && b.Obj? then
        Some(ObjectShape(Texts("", ObjectDiff(a, b, h).changes), ObjectDiff(a, b, h).unchangedCount))
      else None
  }

  predicate NoChanges(d: DiffResult) {
    match d
    case ArrayShape(rows) => rows.changes == []
    case ObjectShape(changes, _) => changes == []
  }

  // ----- when nothing is reported -----

  lemma PositionsEmpty(rowsA: seq<Json>, rowsB: seq<Json>, h: Json -> string)
    requires AllRows(rowsA) && AllRows(rowsB) && Injective(h)
    ensures Sum(Range(Longer(|rowsA|, |rowsB|)), PositionPart(rowsA, rowsB, h)).changes == [] <==> rowsA == rowsB
  {
    var n := Longer(|rowsA|, |rowsB|);
    var part := PositionPart(rowsA, rowsB, h);
    SumEmpty(Range(n), part);
    forall i: nat | i < n ensures part(Range(n)[i]).changes == [] <==> RowAt(rowsA, i) == RowAt(rowsB, i) {
      OnePosition(rowsA, rowsB, i, h);
    }
    if forall i: nat :: i < n ==> RowAt(rowsA, i) == RowAt(rowsB, i) {
      forall i: nat | i < |rowsA| ensures rowsA[i] == rowsB[i] { assert RowAt(rowsA, i) == RowAt(rowsB, i); }
    }
  }

  lemma OnePosition(rowsA: seq<Json>, rowsB: seq<Json>, i: nat, h: Json -> string)
    requires AllRows(rowsA) && AllRows(rowsB) && Injective(h) && i < Longer(|rowsA|, |rowsB|)
    ensures PositionPart(rowsA, rowsB, h)(i).changes == [] <==> RowAt(rowsA, i) == RowAt(rowsB, i)
  {
    if i < |rowsA| && i < |rowsB| { EmptyExactlyWhenEqual(rowsA[i], rowsB[i], h); }
  }

  lemma {:induction false} SumEmpty<T>(keys: seq<T>, part: T -> RowDiff)
    ensures Sum(keys, part).changes == [] <==> forall i :: 0 <= i < |keys| ==> part(keys[i]).changes == []
  {
    if keys != [] { SumEmpty(keys[..|keys| - 1], part); }
  }

  lemma SameRowMaps(a: RowMap, b: RowMap, ids: seq<Json>)
    requires forall id :: id in ids <==> id in a || id in b
    ensures a == b <==> forall i :: 0 <= i < |ids| ==> Row(a, ids[i]) == Row(b, ids[i])
  {
    if forall i :: 0 <= i < |ids| ==> Row(a, ids[i]) == Row(b, ids[i]) {
      forall id | id in a || id in b ensures Row(a, id) == Row(b, id) {
        var i :| 0 <= i < |ids| && ids[i] == id;
      }
      forall id | id in a ensures id in b && a[id] == b[id] { assert Row(a, id) == Row(b, id); }
      forall id | id in b ensures id in a { assert Row(a, id) == Row(b, id); }
    }
  }

  lemma IdsEmpty(a: RowMap, b: RowMap, ids: seq<Json>, h: Json -> string)
    requires Injective(h)
    requires (forall id :: id in a ==> a[id].Obj?) && (forall id :: id in b ==> b[id].Obj?)
    ensures Sum(ids, IdPart(a, b, h)).changes == [] <==> forall i :: 0 <= i < |ids| ==> Row(a, ids[i]) == Row(b, ids[i])
  {
    var part := IdPart(a, b, h);
    SumEmpty(ids, part);
    forall i | 0 <= i < |ids| ensures part(ids[i]).changes == [] <==> Row(a, ids[i]) == Row(b, ids[i]) {
      OneIdentity(a, b, ids[i], h);
    }
  }

  lemma IdentitiesEmpty(rowsA: seq<Json>, rowsB: seq<Json>, idKey: string, h: Json -> string)
    requires AllRows(rowsA) && AllRows(rowsB) && Injective(h)
    ensures MatchedDiff(rowsA, rowsB, idKey, h).changes == [] <==> RowsById(rowsA, idKey).at == RowsById(rowsB, idKey).at
  {
    var a, b := RowsById(rowsA, idKey), RowsById(rowsB, idKey);
    RowsByIdWellFormed(rowsA, idKey);
    RowsByIdWellFormed(rowsB, idKey);
    AllIdsMean(a, b);
    IdsEmpty(a.at, b.at, AllIds(a, b), h);
    SameRowMaps(a.at, b.at, AllIds(a, b));
  }

  lemma OneIdentity(a: RowMap, b: RowMap, id: Json, h: Json -> string)
    requires Injective(h) && (id in a ==> a[id].Obj?) && (id in b ==> b[id].Obj?)
    ensures IdPart(a, b, h)(id).changes == [] <==> Row(a, id) == Row(b, id)
  {
    if id in a && id in b { EmptyExactlyWhenEqual(a[id], b[id], h); }
  }

  // Two tables are the same as far as the diff can see: the same rows by identity, or
  // without an identity field the same rows in the same places.
  predicate SameTable(area: string, x: seq<Json>, y: seq<Json>) {
    match IdentityKey(area, Sample(x, y))
    case Some(idKey) => RowsById(x, idKey).at == RowsById(y, idKey).at
    case None => x == y
  }

  // Nothing is reported exactly when the payloads are equal, or in array shape when the
  // one compared table is the same on both sides, whatever else differs.
  lemma NoChangesExactly(a: Json, b: Json, h: Json -> string)
    requires RowsAreObjects(a, b) && Injective(h) && ComputeDiff(a, b, h).Some?
    ensures NoChanges(ComputeDiff(a, b, h).value) <==>
            match Table(a, b) case Some((area, x, y)) => SameTable(area, x, y) case None => a == b
  {
    match Table(a, b)
    case Some((area, x, y)) =>
      match IdentityKey(area, Sample(x, y)) {
        case Some(idKey) => IdentitiesEmpty(x, y, idKey, h);
        case None => PositionsEmpty(x, y, h);
      }
    case None => EmptyExactlyWhenEqual(a, b, h);
  }

  // ----- a table that is emptied -----

  lemma {:induction false} NoRowList(a: Json, b: Json, keys: seq<string>)
    requires forall k :: k in keys ==> !IsRowList(MergedAt(a, b, k))
    ensures FirstRowList(a, b, keys) == None
  {
    if keys != [] { NoRowList(a, b, keys[1..]); }
  }

  // b is a with the rows of its table k removed, where a has no other list.
  ghost predicate Emptied(a: Json, b: Json, k: string) {
    && a.Obj? && k in a.fields && IsRowList(a.fields[k]) && b == Obj(a.fields[k := Arr([])])
    && forall f :: f in a.fields && f != k ==> !a.fields[f].Arr?
  }

  function FirstKey(j: Json): Option<string>
    requires j.Obj?
  {
    var keys := Sorted(j.fields.Keys);
    if keys == [] then None else Some(keys[0])
  }

  lemma MergedMeans(a: Json, b: Json)
    requires a.Obj? && b.Obj?
    ensures forall k :: k in MergedKeys(a, b) <==> k in a.fields || k in b.fields
  {
    SortedMeaning(a.fields.Keys);
    SortedMeaning(b.fields.Keys - a.fields.Keys);
  }

  lemma EmptiedArea(a: Json, b: Json, k: string)
    requires Emptied(a, b, k)
    ensures Sorted(a.fields.Keys) != [] && Area(a, b) == Sorted(a.fields.Keys)[0]
  {
    SortedMeaning(a.fields.Keys);
    assert b.fields.Keys == a.fields.Keys;
    assert k in Sorted(a.fields.Keys);
    MergedMeans(a, b);
    forall f | f in MergedKeys(a, b) ensures !IsRowList(MergedAt(a, b, f)) {
      assert f in a.fields;
    }
    NoRowList(a, b, MergedKeys(a, b));
  }

  lemma EmptiedTable(a: Json, b: Json, k: string)
    requires Emptied(a, b, k) && FirstKey(a) != Some(k)
    ensures a.fields[k] != b.fields[k]
    ensures FirstKey(a).Some? && Table(a, b) == Some((FirstKey(a).value, [], []))
  {
    EmptiedArea(a, b, k);
    SortedMeaning(a.fields.Keys);
    var first := Sorted(a.fields.Keys)[0];
    assert first in Sorted(a.fields.Keys) && first != k;
    assert HasRowList(a);
    assert RowsOf(Field(a, first)) == [] && RowsOf(Field(b, first)) == [];
  }

  // Emptying the only table of a payload leaves the merge without one, so the first key is
  // compared instead; unless the table is that first key, losing all its rows is not
  // reported.
  lemma EmptiedTableMissed(a: Json, b: Json, k: string, h: Json -> string)
    requires Emptied(a, b, k) && FirstKey(a) != Some(k)
    ensures RowsAreObjects(a, b) && a != b
    ensures var d := ComputeDiff(a, b, h); d.Some? && NoChanges(d.value)
  {
    EmptiedTable(a, b, k);
    EmptyTables(FirstKey(a).value, h);
  }

  lemma EmptyTables(area: string, h: Json -> string)
    ensures TableDiff(area, [], [], h).Some? && TableDiff(area, [], [], h).value.changes == []
  {
    match IdentityKey(area, Sample([], []))
    case None => assert Range(0) == [];
    case Some(idKey) => assert AllIds(RowsById([], idKey), RowsById([], idKey)) == [];
  }
}
