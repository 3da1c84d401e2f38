// When the order of the rows matters to a table diff.
module TableOrder {
  import opened Wrappers
  import opened Lexicographic
  import opened Dicts
  import opened Json
  import opened ArrayDiff

  // Every row leads to the same identity field; so it is in a registered area.
  ghost predicate OneGuess(area: string, rows: seq<Json>) {
    forall i :: 0 <= i < |rows| ==> IdentityKey(area, rows[i]) == IdentityKey(area, rows[0])
  }

  lemma RegisteredIsOneGuess(area: string, rows: seq<Json>)
    requires Registered(area).Some?
    ensures OneGuess(area, rows)
  {}

  ghost predicate KeepsKey(area: string, rows: seq<Json>, others: seq<Json>)
    requires rows != []
  {
    multiset(others) == multiset(rows) ==> others != [] && IdentityKey(area, others[0]) == IdentityKey(area, rows[0])
  }

  // The identity field is the same for every order of a table exactly if all its rows lead
  // to the same one.
  lemma KeyStableExactly(area: string, rows: seq<Json>)
    requires rows != []
    ensures (forall others :: KeepsKey(area, rows, others)) <==> OneGuess(area, rows)
  {
    if OneGuess(area, rows) {
      forall others: seq<Json> ensures KeepsKey(area, rows, others) {
        if multiset(others) == multiset(rows) { FirstOfOthers(rows, others); }
      }
    } else {
      var i :| 0 <= i < |rows| && IdentityKey(area, rows[i]) != IdentityKey(area, rows[0]);
      var others := Fronted(rows, i);
      assert !KeepsKey(area, rows, others);
    }
  }

  lemma FirstOfOthers(rows: seq<Json>, others: seq<Json>)
    requires rows != [] && multiset(others) == multiset(rows)
    ensures others != [] && others[0] in rows
  {
    assert rows[0] in multiset(rows);
    assert others != [];
    assert others[0] in multiset(others);
  }

  // The table with row i moved to the front.
  lemma Fronted(rows: seq<Json>, i: nat) returns (others: seq<Json>)
    requires i < |rows|
    ensures multiset(others) == multiset(rows) && others != [] && others[0] == rows[i]
  {
    others := [rows[i]] + (rows[..i] + rows[i + 1..]);
    assert rows == rows[..i] + [rows[i]] + rows[i + 1..];
  }

  // ----- tables whose order does not matter -----

  // The table whose first row is the sample.
  function FirstTable(rowsA: seq<Json>, rowsB: seq<Json>): seq<Json> {
    if rowsA != [] then rowsA else rowsB
  }

  ghost predicate SameUpToOrder(d: Option<RowDiff>, e: Option<RowDiff>) {
    && (d.Some? <==> e.Some?)
    && (d.Some? ==> multiset(d.value.changes) == multiset(e.value.changes) && d.value.unchangedCount == e.value.unchangedCount)
  }

  lemma PermutedRows(rows: seq<Json>, others: seq<Json>, idKey: string)
    requires AllRows(rows) && multiset(rows) == multiset(others)
    ensures AllRows(others) && (HashableIds(rows, idKey) <==> HashableIds(others, idKey))
  {
    forall i | 0 <= i < |others| ensures others[i] in rows { assert others[i] in multiset(others); }
    forall i | 0 <= i < |rows| ensures rows[i] in others { assert rows[i] in multiset(rows); }
  }

  lemma PermutedKey(area: string, rowsA: seq<Json>, othersA: seq<Json>, rowsB: seq<Json>, othersB: seq<Json>)
    requires multiset(rowsA) == multiset(othersA) && multiset(rowsB) == multiset(othersB)
    requires OneGuess(area, FirstTable(rowsA, rowsB))
    ensures IdentityKey(area, Sample(othersA, othersB)) == IdentityKey(area, Sample(rowsA, rowsB))
  {
    assert |rowsA| == |multiset(rowsA)| && |othersA| == |multiset(othersA)|;
    assert |rowsB| == |multiset(rowsB)| && |othersB| == |multiset(othersB)|;
    if rowsA != [] {
      FirstOfOthers(rowsA, othersA);
    } else if rowsB != [] {
      FirstOfOthers(rowsB, othersB);
    }
  }

  // Where all rows of the first non-empty table lead to one identity field, and identities
  // are unique, permuting the rows of either table changes nothing but the order of the
  // changes; it does not even change whether matching raises.
  lemma TableOrderDoesNotMatter(area: string, rowsA: seq<Json>, othersA: seq<Json>, rowsB: seq<Json>, othersB: seq<Json>,
                                idKey: string, h: Json -> string)
    requires UniqueIds(rowsA, idKey) && multiset(rowsA) == multiset(othersA)
    requires UniqueIds(rowsB, idKey) && multiset(rowsB) == multiset(othersB)
    requires OneGuess(area, FirstTable(rowsA, rowsB)) && IdentityKey(area, Sample(rowsA, rowsB)) == Some(idKey)
    ensures AllRows(othersA) && AllRows(othersB)
    ensures SameUpToOrder(TableDiff(area, rowsA, rowsB, h), TableDiff(area, othersA, othersB, h))
  {
    PermutedRows(rowsA, othersA, idKey);
    PermutedRows(rowsB, othersB, idKey);
    PermutedKey(area, rowsA, othersA, rowsB, othersB);
    OrderDoesNotMatter(rowsA, othersA, rowsB, othersB, idKey, h);
  }

  // In a registered area that has an identity field the order never matters.
  lemma RegisteredOrderDoesNotMatter(area: string, rowsA: seq<Json>, othersA: seq<Json>, rowsB: seq<Json>, othersB: seq<Json>,
                                     idKey: string, h: Json -> string)
    requires Registered(area) == Some(Some(idKey))
    requires UniqueIds(rowsA, idKey) && multiset(rowsA) == multiset(othersA)
    requires UniqueIds(rowsB, idKey) && multiset(rowsB) == multiset(othersB)
    ensures AllRows(othersA) && AllRows(othersB)
    ensures SameUpToOrder(TableDiff(area, rowsA, rowsB, h), TableDiff(area, othersA, othersB, h))
  {
    RegisteredIsOneGuess(area, FirstTable(rowsA, rowsB));
    TableOrderDoesNotMatter(area, rowsA, othersA, rowsB, othersB, idKey, h);
  }

  // ----- tables whose order does matter -----

  lemma OneRow(x: Json, y: Json, kx: string)
    requires x.Obj? && y.Obj? && kx in x.fields && kx !in y.fields
    ensures RowsById([x, y], kx) == Dict([x.fields[kx]], map[x.fields[kx] := x])
    ensures RowsById([], kx) == Dict([], map[])
  {
    assert [x, y][..1] == [x] && [x][..0] == [];
    assert RowsById([x], kx) == Put(RowsById([], kx), x.fields[kx], x);
  }

  lemma OneRemoval(id: Json, x: Json, h: Json -> string)
    ensures Sum(AllIds(Dict([id], map[id := x]), Dict([], map[])), IdPart(map[id := x], map[], h))
            == RowDiff([RowRemoved(ById(id), x)], 0)
  {
    assert AllIds(Dict([id], map[id := x]), Dict([], map[])) == [id];
    assert [id][..0] == [];
    var part := IdPart(map[id := x], map[], h);
    assert Sum([id], part) == Join(Sum([], part), part(id));
  }

  lemma OnlyFirstMatched(area: string, x: Json, y: Json, kx: string, h: Json -> string)
    requires x.Obj? && y.Obj? && kx in x.fields && kx !in y.fields
    requires IdentityKey(area, x) == Some(kx) && Hashable(x.fields[kx])
    ensures TableDiff(area, [x, y], [], h) == Some(RowDiff([RowRemoved(ById(x.fields[kx]), x)], 0))
  {
    OneRow(x, y, kx);
    OneRemoval(x.fields[kx], x, h);
  }

  lemma DifferentRemovals(i: Identity, x: Json, j: Identity, y: Json)
    requires x != y
    ensures !SameUpToOrder(Some(RowDiff([RowRemoved(i, x)], 0)), Some(RowDiff([RowRemoved(j, y)], 0)))
  {
    var c, d := RowRemoved(i, x), RowRemoved(j, y);
    assert c in multiset([c]) && c !in multiset([d]);
  }

  // Two rows of an unregistered area, each guessing a field that the other does not have:
  // removing both is reported as the removal of just the one that comes first.
  lemma GuessChangesDiff(area: string, x: Json, y: Json, kx: string, ky: string, h: Json -> string)
    requires x.Obj? && y.Obj? && kx in x.fields && ky in y.fields && kx !in y.fields && ky !in x.fields
    requires IdentityKey(area, x) == Some(kx) && IdentityKey(area, y) == Some(ky)
    requires Hashable(x.fields[kx]) && Hashable(y.fields[ky])
    ensures TableDiff(area, [x, y], [], h) == Some(RowDiff([RowRemoved(ById(x.fields[kx]), x)], 0))
    ensures TableDiff(area, [y, x], [], h) == Some(RowDiff([RowRemoved(ById(y.fields[ky]), y)], 0))
    ensures multiset([x, y]) == multiset([y, x])
    ensures !SameUpToOrder(TableDiff(area, [x, y], [], h), TableDiff(area, [y, x], [], h))
  {
    OnlyFirstMatched(area, x, y, kx, h);
    OnlyFirstMatched(area, y, x, ky, h);
    DifferentRemovals(ById(x.fields[kx]), x, ById(y.fields[ky]), y);
  }

  // There are such rows.
  lemma SuchRows(v: Json, u: Json, h: Json -> string)
    requires Hashable(v) && Hashable(u)
    ensures var x, y := Obj(map["deviceId" := v]), Obj(map["number" := u]);
            !SameUpToOrder(TableDiff("items", [x, y], [], h), TableDiff("items", [y, x], [], h))
  {
    var x, y := Obj(map["deviceId" := v]), Obj(map["number" := u]);
    GuessedFields(x, y);
    assert "number" !in x.fields && "deviceId" !in y.fields;
    GuessChangesDiff("items", x, y, "deviceId", "number", h);
  }

  lemma GuessedFields(x: Json, y: Json)
    requires x.Obj? && y.Obj? && x.fields.Keys == {"deviceId"} && y.fields.Keys == {"number"}
    ensures IdentityKey("items", x) == Some("deviceId")
    ensures IdentityKey("items", y) == Some("number")
  {
    SortedOne("deviceId");
    SortedOne("number");
    assert EndsWith("deviceId", "Id") by { assert "deviceId"[6..] == "Id"; }
    assert !EndsWith("number", "Id") by { assert "number"[4..][1] == 'r'; }
    assert !EndsWith("number", "id") by { assert "number"[4..][1] == 'r'; }
    assert EndsWith("number", "number") by { assert "number"[0..] == "number"; }
    assert FirstEnding([], "Id") == None && FirstEnding([], "id") == None;
  }
}
