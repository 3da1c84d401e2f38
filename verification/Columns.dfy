// A column of a conceptual table: bindings below one OID, indexed by what follows it.
module Columns {
  import opened Wrappers
  import opened Lexicographic
  import opened DottedText
  import opened Dicts
  import opened Sequences
  import opened MibAgent
  import opened OidWalk

  // ----- sort_mib_tree -----

  function Insert(b: Binding, sorted: seq<Binding>): seq<Binding> {
    if sorted == [] || LessEq(b.oid, sorted[0].oid) then [b] + sorted
    else [sorted[0]] + Insert(b, sorted[1..])
  }

  function SortMibTree(entries: seq<Binding>): seq<Binding> {
    if entries == [] then [] else Insert(entries[0], SortMibTree(entries[1..]))
  }

  function WithOid(entries: seq<Binding>, oid: Oid): seq<Binding> {
    if entries == [] then []
    else (if entries[0].oid == oid then [entries[0]] else []) + WithOid(entries[1..], oid)
  }

  lemma {:induction false} InsertOrdered(b: Binding, sorted: seq<Binding>)
    requires OrderedTree(sorted)
    ensures OrderedTree(Insert(b, sorted))
    ensures multiset(Insert(b, sorted)) == multiset{b} + multiset(sorted)
  {
    if sorted == [] {
    } else if LessEq(b.oid, sorted[0].oid) {
      HeadAtMost(b.oid, sorted);
      OrderedCons(b, sorted);
    } else {
      var rest := sorted[1..];
      assert sorted == [sorted[0]] + rest;
      OrderedTail(sorted);
      InsertOrdered(b, rest);
      Total(b.oid, sorted[0].oid);
      HeadAtMost(sorted[0].oid, sorted);
      forall x | x in Insert(b, rest) ensures LessEq(sorted[0].oid, x.oid) {
        assert x in multiset(Insert(b, rest));
      }
      OrderedCons(sorted[0], Insert(b, rest));
    }
  }

  lemma OrderedTail(sorted: seq<Binding>)
    requires sorted != [] && OrderedTree(sorted)
    ensures OrderedTree(sorted[1..])
  {
    var keys, rest := Keys(sorted), Keys(sorted[1..]);
    forall i, j | 0 <= i < j < |rest| ensures LessEq(rest[i], rest[j]) {
      assert rest[i] == keys[i + 1] && rest[j] == keys[j + 1];
    }
  }

  lemma HeadAtMost(oid: Oid, sorted: seq<Binding>)
    requires sorted != [] && OrderedTree(sorted) && LessEq(oid, sorted[0].oid)
    ensures forall x :: x in sorted ==> LessEq(oid, x.oid)
  {
    var keys := Keys(sorted);
    forall x | x in sorted ensures LessEq(oid, x.oid) {
      var i :| 0 <= i < |sorted| && sorted[i] == x;
      if i > 0 { assert LessEq(keys[0], keys[i]); }
      LessLessEq(oid, keys[0], keys[i]);
    }
  }

  lemma OrderedCons(b: Binding, rest: seq<Binding>)
    requires OrderedTree(rest) && forall x :: x in rest ==> LessEq(b.oid, x.oid)
    ensures OrderedTree([b] + rest)
  {
    var keys, tail := Keys([b] + rest), Keys(rest);
    forall i, j | 0 <= i < j < |keys| ensures LessEq(keys[i], keys[j]) {
      assert keys[j] == tail[j - 1] && rest[j - 1] in rest;
      if i > 0 { assert keys[i] == tail[i - 1]; }
    }
  }

  lemma {:induction false} InsertStable(b: Binding, sorted: seq<Binding>, oid: Oid)
    ensures WithOid(Insert(b, sorted), oid) == (if b.oid == oid then [b] else []) + WithOid(sorted, oid)
  {
    if sorted != [] && !LessEq(b.oid, sorted[0].oid) {
      InsertStable(b, sorted[1..], oid);
      var tail := WithOid(sorted[1..], oid);
      assert WithOid(sorted, oid) == (if sorted[0].oid == oid then [sorted[0]] else []) + tail;
      Irreflexive(b.oid);
      Total(b.oid, sorted[0].oid);
      assert sorted[0].oid != b.oid;
      assert ([sorted[0]] + Insert(b, sorted[1..]))[1..] == Insert(b, sorted[1..]);
    }
  }

  // sorted() by OID: in order, the same bindings, and stable among equal OIDs.
  lemma {:induction false} SortMeaning(entries: seq<Binding>)
    ensures OrderedTree(SortMibTree(entries))
    ensures multiset(SortMibTree(entries)) == multiset(entries)
    ensures forall oid :: WithOid(SortMibTree(entries), oid) == WithOid(entries, oid)
  {
    if entries != [] {
      SortMeaning(entries[1..]);
      InsertOrdered(entries[0], SortMibTree(entries[1..]));
      assert entries == [entries[0]] + entries[1..];
      forall oid ensures WithOid(SortMibTree(entries), oid) == WithOid(entries, oid) {
        InsertStable(entries[0], SortMibTree(entries[1..]), oid);
      }
    }
  }

  // ----- what a column walk collects -----

  datatype Cell = Cell(index: Oid, value: Value)

  // The bindings below the column's OID are exactly these cells, one for each index.
  ghost predicate ColumnHolds(tree: seq<Binding>, column: Oid, cells: set<Cell>) {
    && (forall c :: c in cells ==> c.index != [] && Binding(column + c.index, c.value) in tree)
    && (forall b :: b in tree && column < b.oid ==> Cell(b.oid[|column|..], b.value) in cells)
    && (forall c, d :: c in cells && d in cells && c.index == d.index ==> c == d)
  }

  // The cells a walk of the column reads, in the order it reads them.
  function Cells(tree: seq<Binding>, column: Oid): (r: seq<Cell>)
    ensures |r| == |FirstBelow(tree, column, |tree|)|
  {
    var found := FirstBelow(tree, column, |tree|);
    seq(|found|, i requires 0 <= i < |found| =>
      if column <= found[i].oid then Cell(found[i].oid[|column|..], found[i].value) else Cell(found[i].oid, found[i].value))
  }

  ghost predicate AscendingCells(cells: seq<Cell>) {
    forall i, j :: 0 <= i < j < |cells| ==> Less(cells[i].index, cells[j].index)
  }

  lemma {:induction false} FoundBelow(tree: seq<Binding>, column: Oid, n: nat)
    requires n <= |tree|
    ensures forall b :: b in FirstBelow(tree, column, n) ==> column < b.oid
  {
    if n > 0 { FoundBelow(tree, column, n - 1); }
  }

  lemma CellAt(tree: seq<Binding>, column: Oid, i: nat)
    requires i < |FirstBelow(tree, column, |tree|)|
    ensures var b := FirstBelow(tree, column, |tree|)[i];
            var c := Cells(tree, column)[i];
            column < b.oid && b == Binding(column + c.index, c.value) && c.index != []
  {
    FoundBelow(tree, column, |tree|);
    var b := FirstBelow(tree, column, |tree|)[i];
    assert b.oid == column + b.oid[|column|..];
  }

  lemma FirstHasOid(tree: seq<Binding>, i: nat) returns (k: nat)
    requires i < |tree|
    ensures k <= i && tree[k].oid == tree[i].oid && FirstOfItsOid(tree, k)
  {
    k := i;
    while !FirstOfItsOid(tree, k)
      invariant k <= i && tree[k].oid == tree[i].oid
      decreases k
    {
      var j :| 0 <= j < k && tree[j].oid == tree[k].oid;
      k := j;
    }
  }

  // A walk of a column that holds these cells reads exactly them, in index order.
  lemma CellsExact(tree: seq<Binding>, column: Oid, cells: set<Cell>)
    requires OrderedTree(tree) && ColumnHolds(tree, column, cells)
    ensures AscendingCells(Cells(tree, column))
    ensures forall c :: c in Cells(tree, column) <==> c in cells
  {
    var found, read := FirstBelow(tree, column, |tree|), Cells(tree, column);
    FirstBelowAscends(tree, column, |tree|);
    forall i, j | 0 <= i < j < |read| ensures Less(read[i].index, read[j].index) {
      CellAt(tree, column, i);
      CellAt(tree, column, j);
      CommonPrefix(column, read[i].index, read[j].index);
    }
    forall c | c in read ensures c in cells {
      var i :| 0 <= i < |read| && read[i] == c;
      CellAt(tree, column, i);
      FirstBelowHolds(tree, column, |tree|, found[i]);
      assert found[i].oid[|column|..] == c.index;
    }
    forall c | c in cells ensures c in read {
      CellIsRead(tree, column, cells, c);
    }
  }

  lemma CellIsRead(tree: seq<Binding>, column: Oid, cells: set<Cell>, c: Cell)
    requires ColumnHolds(tree, column, cells) && OrderedTree(tree) && c in cells
    ensures c in Cells(tree, column)
  {
    var i :| 0 <= i < |tree| && tree[i] == Binding(column + c.index, c.value);
    var k := FirstHasOid(tree, i);
    var b := tree[k];
    assert column < b.oid && b.oid[|column|..] == c.index;
    assert Cell(c.index, b.value) in cells;
    FirstBelowHolds(tree, column, |tree|, b);
    var found := FirstBelow(tree, column, |tree|);
    var at :| 0 <= at < |found| && found[at] == b;
    assert Cells(tree, column)[at] == c;
  }

  // ----- the collector's dict for one column, keyed by the index text -----

  function Suffix(oidText: string, prefix: string): string {
    var normalised := StripDots(oidText);
    var p := StripDots(prefix);
    if p + "." <= normalised then normalised[|p| + 1..] else normalised
  }

  function ColumnDict<V>(rows: seq<Pair>, prefix: string, extract: Value -> V): (d: Dict<string, V>)
    ensures forall t :: t in d.order ==> t in d.at
  {
    if rows == [] then Empty()
    else
      var last := rows[|rows| - 1];
      Put(ColumnDict(rows[..|rows| - 1], prefix, extract), Suffix(last.oid, prefix), extract(last.value))
  }

  method CollectColumn<V>(rows: seq<Pair>, prefix: string, extract: Value -> V) returns (d: Dict<string, V>)
    ensures d == ColumnDict(rows, prefix, extract)
  {
    d := Empty();
    for i := 0 to |rows|
      invariant d == ColumnDict(rows[..i], prefix, extract)
    {
      assert rows[..i + 1][..i] == rows[..i];
      d := Put(d, Suffix(rows[i].oid, prefix), extract(rows[i].value));
    }
    assert rows[..|rows|] == rows;
  }

  lemma SuffixIsIndex(column: Oid, index: Oid)
    requires column != [] && index != []
    ensures Suffix(OidText(column + index), OidText(column)) == OidText(index)
  {
    OidTextSplit(column);
    OidTextSplit(column + index);
    OidTextConcat(column, index);
  }

  lemma OidTextInjective(a: Oid, b: Oid)
    requires a != [] && b != [] && OidText(a) == OidText(b)
    ensures a == b
  {
    OidRoundTrip(a);
    OidRoundTrip(b);
  }

  ghost predicate RowsOf(rows: seq<Pair>, column: Oid, cells: seq<Cell>) {
    |rows| == |cells| &&
    forall i :: 0 <= i < |rows| ==> cells[i].index != [] && rows[i] == Pair(OidText(column + cells[i].index), cells[i].value)
  }

  lemma WalkedCells(tree: seq<Binding>, column: Oid) returns (rows: seq<Pair>)
    requires column != []
    ensures Walked(tree, OidText(column)) == Some(rows) && RowsOf(rows, column, Cells(tree, column))
  {
    OidRoundTrip(column);
    OidTextSplit(column);
    rows := Texts(FirstBelow(tree, column, |tree|));
    forall i | 0 <= i < |rows|
      ensures Cells(tree, column)[i].index != []
      ensures rows[i] == Pair(OidText(column + Cells(tree, column)[i].index), Cells(tree, column)[i].value)
    {
      CellAt(tree, column, i);
    }
  }

  ghost predicate DictOf<V>(d: Dict<string, V>, cells: seq<Cell>, extract: Value -> V) {
    && |d.order| == |cells|
    && (forall i :: 0 <= i < |cells| ==> d.order[i] == OidText(cells[i].index))
    && (forall i :: 0 <= i < |cells| ==>
          d.order[i] in d.at && d.at[d.order[i]] == extract(cells[i].value))
    && (forall t :: t in d.at ==> t in d.order)
  }

  lemma NewText<V>(d: Dict<string, V>, cells: seq<Cell>, extract: Value -> V, c: Cell)
    requires DictOf(d, cells, extract) && AscendingCells(cells + [c])
    requires c.index != [] && forall i :: 0 <= i < |cells| ==> cells[i].index != []
    ensures OidText(c.index) !in d.at
  {
    var t := OidText(c.index);
    if t in d.at {
      var i :| 0 <= i < |d.order| && d.order[i] == t;
      OidTextInjective(cells[i].index, c.index);
      assert Less((cells + [c])[i].index, (cells + [c])[|cells|].index);
      Irreflexive(c.index);
    }
  }

  lemma PutNew<V>(d: Dict<string, V>, cells: seq<Cell>, extract: Value -> V, c: Cell)
    requires DictOf(d, cells, extract) && OidText(c.index) !in d.at
    ensures DictOf(Put(d, OidText(c.index), extract(c.value)), cells + [c], extract)
  {}

  // The dict has one key per cell, in the order the cells were read.
  lemma {:induction false} ColumnDictOf<V>(rows: seq<Pair>, column: Oid, cells: seq<Cell>, extract: Value -> V)
    requires column != [] && RowsOf(rows, column, cells) && AscendingCells(cells)
    ensures DictOf(ColumnDict(rows, OidText(column), extract), cells, extract)
  {
    if rows != [] {
      var n := |rows| - 1;
      var front := cells[..n];
      assert cells == front + [cells[n]];
      assert AscendingCells(front) && RowsOf(rows[..n], column, front);
      ColumnDictOf(rows[..n], column, front, extract);
      ColumnDictStep(rows, column, front, cells[n], extract);
    }
  }

  lemma ColumnDictStep<V>(rows: seq<Pair>, column: Oid, front: seq<Cell>, c: Cell, extract: Value -> V)
    requires column != [] && |rows| == |front| + 1 && c.index != []
    requires RowsOf(rows[..|front|], column, front) && AscendingCells(front + [c])
    requires rows[|front|] == Pair(OidText(column + c.index), c.value)
    requires DictOf(ColumnDict(rows[..|front|], OidText(column), extract), front, extract)
    ensures DictOf(ColumnDict(rows, OidText(column), extract), front + [c], extract)
  {
    var before := ColumnDict(rows[..|front|], OidText(column), extract);
    SuffixIsIndex(column, c.index);
    NewText(before, front, extract, c);
    PutNew(before, front, extract, c);
  }

  // ----- tables written row by row -----

  // The bindings of all rows, as the build_* loops append them.
  function Encode<T>(rows: seq<T>, enc: T -> seq<Binding>): seq<Binding> {
    if rows == [] then [] else Encode(rows[..|rows| - 1], enc) + enc(rows[|rows| - 1])
  }

  // The loop of the build_* functions; None when a row cannot be encoded and it raises.
  method BuildEntries<T>(rows: seq<T>, encodable: T -> bool, enc: T -> seq<Binding>)
    returns (result: Option<seq<Binding>>)
    ensures result == if forall i :: 0 <= i < |rows| ==> encodable(rows[i]) then Some(Encode(rows, enc)) else None
  {
    var bindings := [];
    for i := 0 to |rows|
      invariant forall j :: 0 <= j < i ==> encodable(rows[j])
      invariant bindings == Encode(rows[..i], enc)
    {
      if !encodable(rows[i]) {
        return None;
      }
      assert rows[..i + 1][..i] == rows[..i];
      bindings := bindings + enc(rows[i]);
    }
    assert rows[..|rows|] == rows;
    result := Some(bindings);
  }

  lemma {:induction false} EncodeHolds<T>(rows: seq<T>, enc: T -> seq<Binding>, b: Binding)
    ensures b in Encode(rows, enc) <==> exists i :: 0 <= i < |rows| && b in enc(rows[i])
  {
    if rows != [] { EncodeHolds(rows[..|rows| - 1], enc, b); }
  }

  // The column of the tree comes from these rows alone, one binding for each, all with
  // different indexes.
  ghost predicate ColumnFrom<T>(tree: seq<Binding>, column: Oid, rows: seq<T>, index: T -> Oid, value: T -> Value) {
    && (forall i :: 0 <= i < |rows| ==>
          index(rows[i]) != [] && Binding(column + index(rows[i]), value(rows[i])) in tree)
    && (forall b :: b in tree && column < b.oid ==>
          exists i :: 0 <= i < |rows| && b == Binding(column + index(rows[i]), value(rows[i])))
    && (forall i, j :: 0 <= i < j < |rows| ==> index(rows[i]) != index(rows[j]))
  }

  // The rows in the order of a walk.
  ghost predicate RowOrder<T>(sorted: seq<T>, rows: seq<T>, index: T -> Oid) {
    && multiset(sorted) == multiset(rows)
    && forall i, j :: 0 <= i < j < |sorted| ==> Less(index(sorted[i]), index(sorted[j]))
  }

  lemma TreeHolds<T>(entries: seq<Binding>, other: seq<Binding>, rows: seq<T>, enc: T -> seq<Binding>, b: Binding)
    requires multiset(entries) == multiset(other) + multiset(Encode(rows, enc))
    ensures b in SortMibTree(entries) <==> (b in other || exists i :: 0 <= i < |rows| && b in enc(rows[i]))
  {
    SortMeaning(entries);
    EncodeHolds(rows, enc, b);
    assert b in SortMibTree(entries) <==> b in multiset(SortMibTree(entries));
    assert b in multiset(entries) <==> b in multiset(other) || b in multiset(Encode(rows, enc));
  }

  // In a sorted tree made of such rows and anything else outside the column, the column
  // has just these rows. Each row writes one binding into the column.
  lemma ColumnFromEntries<T>(entries: seq<Binding>, other: seq<Binding>, rows: seq<T>, enc: T -> seq<Binding>,
                             column: Oid, index: T -> Oid, value: T -> Value)
    requires multiset(entries) == multiset(other) + multiset(Encode(rows, enc))
    requires forall b :: b in other ==> !(column < b.oid)
    requires forall i :: 0 <= i < |rows| ==> index(rows[i]) != []
    requires forall i, b :: 0 <= i < |rows| && b in enc(rows[i]) && column < b.oid ==>
               b == Binding(column + index(rows[i]), value(rows[i]))
    requires forall i :: 0 <= i < |rows| ==> Binding(column + index(rows[i]), value(rows[i])) in enc(rows[i])
    requires forall i, j :: 0 <= i < j < |rows| ==> index(rows[i]) != index(rows[j])
    ensures OrderedTree(SortMibTree(entries))
    ensures ColumnFrom(SortMibTree(entries), column, rows, index, value)
  {
    SortMeaning(entries);
    var tree := SortMibTree(entries);
    forall i | 0 <= i < |rows| ensures Binding(column + index(rows[i]), value(rows[i])) in tree {
      var b := Binding(column + index(rows[i]), value(rows[i]));
      TreeHolds(entries, other, rows, enc, b);
    }
    forall b | b in tree && column < b.oid
      ensures exists i :: 0 <= i < |rows| && b == Binding(column + index(rows[i]), value(rows[i]))
    {
      TreeHolds(entries, other, rows, enc, b);
    }
  }

  function RowCells<T>(rows: seq<T>, index: T -> Oid, value: T -> Value): set<Cell> {
    set i | 0 <= i < |rows| :: Cell(index(rows[i]), value(rows[i]))
  }

  lemma RowsAreCells<T>(tree: seq<Binding>, column: Oid, rows: seq<T>, index: T -> Oid, value: T -> Value)
    requires OrderedTree(tree) && ColumnFrom(tree, column, rows, index, value)
    ensures AscendingCells(Cells(tree, column))
    ensures forall c :: c in Cells(tree, column) <==> c in RowCells(rows, index, value)
  {
    var cells := RowCells(rows, index, value);
    forall b | b in tree && column < b.oid ensures Cell(b.oid[|column|..], b.value) in cells {
      var i :| 0 <= i < |rows| && b == Binding(column + index(rows[i]), value(rows[i]));
      assert b.oid[|column|..] == index(rows[i]);
    }
    CellsExact(tree, column, cells);
  }

  ghost predicate RowsFor<T>(sorted: seq<T>, cells: seq<Cell>, rows: seq<T>, index: T -> Oid, value: T -> Value) {
    |sorted| == |cells| && forall k :: 0 <= k < |sorted| ==>
      sorted[k] in rows && cells[k] == Cell(index(sorted[k]), value(sorted[k]))
  }

  lemma PickRows<T>(cells: seq<Cell>, rows: seq<T>, index: T -> Oid, value: T -> Value) returns (sorted: seq<T>)
    requires forall c :: c in cells ==> c in RowCells(rows, index, value)
    ensures RowsFor(sorted, cells, rows, index, value)
  {
    sorted := [];
    while |sorted| < |cells|
      invariant |sorted| <= |cells|
      invariant RowsFor(sorted, cells[..|sorted|], rows, index, value)
    {
      var c := cells[|sorted|];
      assert c in cells && c in RowCells(rows, index, value);
      var i :| 0 <= i < |rows| && c == Cell(index(rows[i]), value(rows[i]));
      sorted := sorted + [rows[i]];
    }
    assert cells[..|sorted|] == cells;
  }

  lemma PickedAll<T>(sorted: seq<T>, cells: seq<Cell>, rows: seq<T>, index: T -> Oid, value: T -> Value)
    requires RowsFor(sorted, cells, rows, index, value) && AscendingCells(cells)
    requires forall c :: c in RowCells(rows, index, value) ==> c in cells
    requires forall i, j :: 0 <= i < j < |rows| ==> index(rows[i]) != index(rows[j])
    ensures RowOrder(sorted, rows, index)
  {
    forall i, j | 0 <= i < j < |sorted| ensures sorted[i] != sorted[j] {
      assert Less(cells[i].index, cells[j].index);
      Irreflexive(cells[j].index);
    }
    forall i | 0 <= i < |rows| ensures rows[i] in sorted {
      var c := Cell(index(rows[i]), value(rows[i]));
      assert c in RowCells(rows, index, value);
      var k :| 0 <= k < |cells| && cells[k] == c;
      var j :| 0 <= j < |rows| && rows[j] == sorted[k];
      assert index(rows[i]) == index(rows[j]);
    }
    SameElements(sorted, rows);
  }

  // The walk of a column visits the rows, each once, in index order.
  lemma RowsInOrder<T>(tree: seq<Binding>, column: Oid, rows: seq<T>, index: T -> Oid, value: T -> Value)
    returns (sorted: seq<T>)
    requires OrderedTree(tree) && ColumnFrom(tree, column, rows, index, value)
    ensures RowOrder(sorted, rows, index)
    ensures RowsFor(sorted, Cells(tree, column), rows, index, value)
  {
    RowsAreCells(tree, column, rows, index, value);
    sorted := PickRows(Cells(tree, column), rows, index, value);
    PickedAll(sorted, Cells(tree, column), rows, index, value);
  }

  // The dict of a column answers for every row.
  lemma DictAnswers<T, V>(tree: seq<Binding>, column: Oid, rows: seq<T>, index: T -> Oid, value: T -> Value,
                          pairs: seq<Pair>, extract: Value -> V, i: nat)
    requires OrderedTree(tree) && ColumnFrom(tree, column, rows, index, value) && column != []
    requires Walked(tree, OidText(column)) == Some(pairs) && i < |rows|
    ensures var d := ColumnDict(pairs, OidText(column), extract);
            var t := OidText(index(rows[i]));
            t in d.at && d.at[t] == extract(value(rows[i]))
  {
    RowsAreCells(tree, column, rows, index, value);
    var c := Cell(index(rows[i]), value(rows[i]));
    assert c in RowCells(rows, index, value);
    var walked := WalkedCells(tree, column);
    var cells := Cells(tree, column);
    ColumnDictOf(pairs, column, cells, extract);
    var k :| 0 <= k < |cells| && cells[k] == c;
  }

  // The dict of a column has its keys in row order.
  lemma DictOrder<T, V>(tree: seq<Binding>, column: Oid, rows: seq<T>, index: T -> Oid, value: T -> Value,
                        pairs: seq<Pair>, extract: Value -> V)
    returns (sorted: seq<T>)
    requires OrderedTree(tree) && ColumnFrom(tree, column, rows, index, value) && column != []
    requires Walked(tree, OidText(column)) == Some(pairs)
    ensures RowOrder(sorted, rows, index)
    ensures var d := ColumnDict(pairs, OidText(column), extract);
            |d.order| == |sorted| && forall k :: 0 <= k < |sorted| ==> d.order[k] == OidText(index(sorted[k]))
  {
    sorted := RowsInOrder(tree, column, rows, index, value);
    RowsAreCells(tree, column, rows, index, value);
    var walked := WalkedCells(tree, column);
    ColumnDictOf(pairs, column, Cells(tree, column), extract);
  }

  // ----- tables read row by row -----

  // One row per key, in order; None when reading one of them raises.
  function ReadRows<T>(order: seq<string>, entry: string -> Option<T>): Option<seq<T>> {
    if order == [] then Some([])
    else
      var front := ReadRows(order[..|order| - 1], entry);
      var last := entry(order[|order| - 1]);
      if front == None || last == None then None else Some(front.value + [last.value])
  }

  method CollectRows<T>(order: seq<string>, entry: string -> Option<T>) returns (r: Option<seq<T>>)
    ensures r == ReadRows(order, entry)
  {
    r := Some([]);
    for i := 0 to |order|
      invariant r == ReadRows(order[..i], entry)
    {
      assert order[..i + 1][..i] == order[..i];
      var row := entry(order[i]);
      r := if r == None || row == None then None else Some(r.value + [row.value]);
    }
    assert order[..|order|] == order;
  }

  lemma {:induction false} ReadRowsOf<T, U>(order: seq<string>, entry: string -> Option<U>, rows: seq<T>, f: T -> U)
    requires |order| == |rows|
    requires forall k :: 0 <= k < |order| ==> entry(order[k]) == Some(f(rows[k]))
    ensures ReadRows(order, entry) == Some(MapAll(rows, f))
  {
    if order != [] {
      var n := |order| - 1;
      ReadRowsOf(order[..n], entry, rows[..n], f);
      assert MapAll(rows, f) == MapAll(rows[..n], f) + [f(rows[n])];
    }
  }
}
