// The SNMP agent: a tree of bindings sorted by OID, served by binary search.
module MibAgent {
  import opened Wrappers
  import opened Lexicographic
  import opened DottedText

  type Byte = b: int | 0 <= b < 256

  datatype Value = Octets(bytes: seq<Byte>) | Number(n: int) | OidValue(oid: Oid)

  datatype Binding = Binding(oid: Oid, value: Value)

  // What one variable binding of a response carries.
  datatype Reply = Val(value: Value) | EndOfMibView | NoSuchInstance

  datatype VarBind = VarBind(oid: Oid, reply: Reply)

  function Keys(tree: seq<Binding>): (keys: seq<Oid>)
    ensures |keys| == |tree| && forall i :: 0 <= i < |tree| ==> keys[i] == tree[i].oid
  {
    seq(|tree|, i requires 0 <= i < |tree| => tree[i].oid)
  }

  ghost predicate Ordered(keys: seq<Oid>) {
    forall i, j :: 0 <= i < j < |keys| ==> LessEq(keys[i], keys[j])
  }

  ghost predicate OrderedTree(tree: seq<Binding>) {
    Ordered(Keys(tree))
  }

  // ----- bisect_left and bisect_right -----

  // Everything before position i is below x, everything from i on is not.
  ghost predicate SplitsLeft(keys: seq<Oid>, x: Oid, i: int) {
    0 <= i <= |keys| &&
    (forall j :: 0 <= j < i ==> Less(keys[j], x)) &&
    (forall j :: i <= j < |keys| ==> LessEq(x, keys[j]))
  }

  // Everything before position i is at most x, everything from i on is above it.
  ghost predicate SplitsRight(keys: seq<Oid>, x: Oid, i: int) {
    0 <= i <= |keys| &&
    (forall j :: 0 <= j < i ==> LessEq(keys[j], x)) &&
    (forall j :: i <= j < |keys| ==> Less(x, keys[j]))
  }

  lemma LessLessEq(a: Oid, b: Oid, c: Oid)
    requires LessEq(a, b) && LessEq(b, c)
    ensures LessEq(a, c)
    ensures Less(a, b) || Less(b, c) ==> Less(a, c)
  {
    if Less(a, b) && Less(b, c) { Transitive(a, b, c); }
  }

  lemma AllAtMost(keys: seq<Oid>, mid: nat, x: Oid)
    requires Ordered(keys) && mid < |keys|
    ensures LessEq(keys[mid], x) ==> forall j :: 0 <= j <= mid ==> LessEq(keys[j], x)
    ensures Less(keys[mid], x) ==> forall j :: 0 <= j <= mid ==> Less(keys[j], x)
    ensures LessEq(x, keys[mid]) ==> forall j :: mid <= j < |keys| ==> LessEq(x, keys[j])
    ensures Less(x, keys[mid]) ==> forall j :: mid <= j < |keys| ==> Less(x, keys[j])
  {
    forall j | 0 <= j <= mid && LessEq(keys[mid], x) ensures LessEq(keys[j], x) {
      LessLessEq(keys[j], keys[mid], x);
    }
    forall j | 0 <= j <= mid && Less(keys[mid], x) ensures Less(keys[j], x) {
      LessLessEq(keys[j], keys[mid], x);
    }
    forall j | mid <= j < |keys| && LessEq(x, keys[mid]) ensures LessEq(x, keys[j]) {
      LessLessEq(x, keys[mid], keys[j]);
    }
    forall j | mid <= j < |keys| && Less(x, keys[mid]) ensures Less(x, keys[j]) {
      LessLessEq(x, keys[mid], keys[j]);
    }
  }

  function BisectLeft(keys: seq<Oid>, x: Oid, lo: nat, hi: nat): (i: nat)
    requires lo <= hi <= |keys|
    ensures lo <= i <= hi
    decreases hi - lo
  {
    if lo == hi then lo
    else
      var mid := (lo + hi) / 2;
      if Less(keys[mid], x) then BisectLeft(keys, x, mid + 1, hi) else BisectLeft(keys, x, lo, mid)
  }

  function BisectRight(keys: seq<Oid>, x: Oid, lo: nat, hi: nat): (i: nat)
    requires lo <= hi <= |keys|
    ensures lo <= i <= hi
    decreases hi - lo
  {
    if lo == hi then lo
    else
      var mid := (lo + hi) / 2;
      if Less(x, keys[mid]) then BisectRight(keys, x, lo, mid) else BisectRight(keys, x, mid + 1, hi)
  }

  lemma {:induction false} BisectLeftSplits(keys: seq<Oid>, x: Oid, lo: nat, hi: nat)
    requires lo <= hi <= |keys| && Ordered(keys)
    requires forall j :: 0 <= j < lo ==> Less(keys[j], x)
    requires forall j :: hi <= j < |keys| ==> LessEq(x, keys[j])
    ensures SplitsLeft(keys, x, BisectLeft(keys, x, lo, hi))
    decreases hi - lo
  {
    if lo < hi {
      var mid := (lo + hi) / 2;
      AllAtMost(keys, mid, x);
      if Less(keys[mid], x) {
        BisectLeftSplits(keys, x, mid + 1, hi);
      } else {
        Total(keys[mid], x);
        BisectLeftSplits(keys, x, lo, mid);
      }
    }
  }

  lemma {:induction false} BisectRightSplits(keys: seq<Oid>, x: Oid, lo: nat, hi: nat)
    requires lo <= hi <= |keys| && Ordered(keys)
    requires forall j :: 0 <= j < lo ==> LessEq(keys[j], x)
    requires forall j :: hi <= j < |keys| ==> Less(x, keys[j])
    ensures SplitsRight(keys, x, BisectRight(keys, x, lo, hi))
    decreases hi - lo
  {
    if lo < hi {
      var mid := (lo + hi) / 2;
      AllAtMost(keys, mid, x);
      if Less(x, keys[mid]) {
        BisectRightSplits(keys, x, lo, mid);
      } else {
        Total(keys[mid], x);
        BisectRightSplits(keys, x, mid + 1, hi);
      }
    }
  }

  // ----- what the lookups compute -----

  function Find(tree: seq<Binding>, oid: Oid): Option<Binding> {
    var i := BisectLeft(Keys(tree), oid, 0, |tree|);
    if i < |tree| && tree[i].oid == oid then Some(tree[i]) else None
  }

  function Next(tree: seq<Binding>, oid: Oid): Option<Binding> {
    var i := BisectRight(Keys(tree), oid, 0, |tree|);
    if i < |tree| then Some(tree[i]) else None
  }

  // On a sorted tree GET finds the first binding with exactly this OID, or there is none.
  lemma FindIsFirst(tree: seq<Binding>, oid: Oid) returns (i: nat)
    requires OrderedTree(tree)
    ensures i <= |tree| && forall j :: 0 <= j < i ==> tree[j].oid != oid
    ensures i < |tree| ==> tree[i].oid == oid && Find(tree, oid) == Some(tree[i])
    ensures i == |tree| ==> Find(tree, oid) == None
  {
    var keys := Keys(tree);
    BisectLeftSplits(keys, oid, 0, |tree|);
    i := BisectLeft(keys, oid, 0, |tree|);
    Irreflexive(oid);
    if i < |tree| && keys[i] != oid {
      forall j | i <= j < |tree| ensures keys[j] != oid {
        LessLessEq(oid, keys[i], keys[j]);
      }
      i := |tree|;
    }
  }

  // On a sorted tree GETNEXT finds the first binding above the given OID, or there is none.
  lemma NextIsFirst(tree: seq<Binding>, oid: Oid) returns (i: nat)
    requires OrderedTree(tree)
    ensures SplitsRight(Keys(tree), oid, i)
    ensures Next(tree, oid) == if i < |tree| then Some(tree[i]) else None
  {
    BisectRightSplits(Keys(tree), oid, 0, |tree|);
    i := BisectRight(Keys(tree), oid, 0, |tree|);
  }

  // ----- responses, for any way of answering one GETNEXT -----

  type GetNext = Oid -> VarBind

  function NextOf(tree: seq<Binding>): GetNext {
    oid =>
      match Next(tree, oid)
      case Some(b) => VarBind(b.oid, Val(b.value))
      case None => VarBind(oid, EndOfMibView)
  }

  function Answers(next: GetNext, oids: seq<Oid>): (r: seq<VarBind>)
    ensures |r| == |oids| && forall i :: 0 <= i < |oids| ==> r[i] == next(oids[i])
  {
    seq(|oids|, i requires 0 <= i < |oids| => next(oids[i]))
  }

  // Where repeated GETNEXT from `oid` stands after k steps.
  function After(next: GetNext, oid: Oid, k: nat): Oid {
    if k == 0 then oid else next(After(next, oid, k - 1)).oid
  }

  function AfterAll(next: GetNext, oids: seq<Oid>, k: nat): (r: seq<Oid>)
    ensures |r| == |oids| && forall i :: 0 <= i < |oids| ==> r[i] == After(next, oids[i], k)
  {
    seq(|oids|, i requires 0 <= i < |oids| => After(next, oids[i], k))
  }

  predicate AllEnded(row: seq<VarBind>) {
    forall i :: 0 <= i < |row| ==> row[i].reply == EndOfMibView
  }

  // Row k: one GETNEXT for every repeater from where it stands after k steps.
  function Row(next: GetNext, oids: seq<Oid>, k: nat): seq<VarBind> {
    Answers(next, AfterAll(next, oids, k))
  }

  function FirstRows(next: GetNext, oids: seq<Oid>, count: nat): (rows: seq<seq<VarBind>>)
    ensures |rows| == count && forall k :: 0 <= k < count ==> rows[k] == Row(next, oids, k)
  {
    seq(count, k requires 0 <= k < count => Row(next, oids, k))
  }

  function RowEnded(next: GetNext, oids: seq<Oid>): nat -> bool {
    (k: nat) => AllEnded(Row(next, oids, k))
  }

  // How many of the rows k, k+1, .. n-1 are sent: up to and including the first that ended.
  function RowCount(ended: nat -> bool, k: nat, n: nat): (c: nat)
    ensures k <= n ==> k + c <= n
    decreases n - k
  {
    if n <= k then 0 else if ended(k) then 1 else 1 + RowCount(ended, k + 1, n)
  }

  lemma {:induction false} RowCountStops(ended: nat -> bool, k: nat, n: nat)
    ensures forall row :: k <= row < k + RowCount(ended, k, n) - 1 ==> !ended(row)
    ensures k + RowCount(ended, k, n) < n ==>
              0 < RowCount(ended, k, n) && ended(k + RowCount(ended, k, n) - 1)
    decreases n - k
  {
    if k < n && !ended(k) { RowCountStops(ended, k + 1, n); }
  }

  function Concat<T>(rows: seq<seq<T>>): seq<T> {
    if rows == [] then [] else Concat(rows[..|rows| - 1]) + rows[|rows| - 1]
  }

  lemma OneMoreRow(next: GetNext, oids: seq<Oid>, k: nat)
    ensures Concat(FirstRows(next, oids, k + 1)) == Concat(FirstRows(next, oids, k)) + Row(next, oids, k)
  {
    assert FirstRows(next, oids, k + 1)[..k] == FirstRows(next, oids, k);
  }

  // After one GETNEXT for each repeater they stand one step further.
  lemma Stepped(next: GetNext, oids: seq<Oid>, k: nat, current: seq<Oid>)
    requires |current| == |oids| && forall i :: 0 <= i < |oids| ==> current[i] == Row(next, oids, k)[i].oid
    ensures current == AfterAll(next, oids, k + 1)
  {}

  lemma CountOneMore(ended: nat -> bool, k: nat, n: nat)
    requires k < n
    ensures RowCount(ended, k, n) == if ended(k) then 1 else 1 + RowCount(ended, k + 1, n)
  {}

  function Clamp(x: int, high: nat): (r: nat)
    ensures r <= high && (0 <= x <= high ==> r == x)
  {
    if x < 0 then 0 else if x > high then high else x
  }

  // How many rows of repeaters a GetBulk response has.
  function BulkRows(next: GetNext, oids: seq<Oid>, nonRepeaters: int, maxRepetitions: int): nat {
    var repeaters := oids[Clamp(nonRepeaters, |oids|)..];
    if repeaters == [] then 0
    else RowCount(RowEnded(next, repeaters), 0, Clamp(maxRepetitions, 100))
  }

  // The response to a GetBulk request, said through single GETNEXT steps.
  function Bulk(next: GetNext, oids: seq<Oid>, nonRepeaters: int, maxRepetitions: int): seq<VarBind> {
    var n := Clamp(nonRepeaters, |oids|);
    var rows := BulkRows(next, oids, nonRepeaters, maxRepetitions);
    Answers(next, oids[..n]) + Concat(FirstRows(next, oids[n..], rows))
  }

  class SNMPAgent {
    var mibTree: seq<Binding>
    var oidKeys: seq<Oid>

    ghost predicate Valid()
      reads this
    {
      oidKeys == Keys(mibTree)
    }

    constructor (tree: seq<Binding>)
      ensures Valid() && mibTree == tree
    {
      mibTree := tree;
      oidKeys := Keys(tree);
    }

    method UpdateMibTree(newTree: seq<Binding>)
      modifies this
      ensures Valid() && mibTree == newTree
    {
      mibTree := newTree;
      oidKeys := Keys(newTree);
    }

    method GetExact(oid: Oid) returns (r: Option<Binding>)
      requires Valid()
      ensures r == Find(mibTree, oid)
    {
      var idx := BisectLeft(oidKeys, oid, 0, |oidKeys|);
      if idx < |oidKeys| && oidKeys[idx] == oid {
        return Some(mibTree[idx]);
      }
      r := None;
    }

    method GetNext(oid: Oid) returns (r: Option<Binding>)
      requires Valid()
      ensures r == Next(mibTree, oid)
    {
      var idx := BisectRight(oidKeys, oid, 0, |oidKeys|);
      if idx < |oidKeys| {
        return Some(mibTree[idx]);
      }
      r := None;
    }

    method ProcessGet(oids: seq<Oid>) returns (result: seq<VarBind>)
      requires Valid()
      ensures |result| == |oids|
      ensures forall i :: 0 <= i < |oids| ==> result[i] == GetReply(mibTree, oids[i])
    {
      result := [];
      for i := 0 to |oids|
        invariant |result| == i
        invariant forall j :: 0 <= j < i ==> result[j] == GetReply(mibTree, oids[j])
      {
        var found := GetExact(oids[i]);
        if found.Some? {
          result := result + [VarBind(oids[i], Val(found.value.value))];
        } else {
          result := result + [VarBind(oids[i], NoSuchInstance)];
        }
      }
    }

    method ProcessGetNext(oids: seq<Oid>) returns (result: seq<VarBind>)
      requires Valid()
      ensures result == Answers(NextOf(mibTree), oids)
    {
      result := [];
      for i := 0 to |oids|
        invariant result == Answers(NextOf(mibTree), oids[..i])
      {
        var found := GetNext(oids[i]);
        if found.Some? {
          result := result + [VarBind(found.value.oid, Val(found.value.value))];
        } else {
          result := result + [VarBind(oids[i], EndOfMibView)];
        }
      }
      assert oids[..|oids|] == oids;
    }

    method ProcessGetBulk(oids: seq<Oid>, nonRepeaters: int, maxRepetitions: int)
      returns (result: seq<VarBind>)
      requires Valid()
      ensures result == Bulk(NextOf(mibTree), oids, nonRepeaters, maxRepetitions)
    {
      var n := Clamp(nonRepeaters, |oids|);
      var m := Clamp(maxRepetitions, 100);
      result := ProcessGetNext(oids[..n]);
      var repeaters := oids[n..];
      if repeaters == [] || m == 0 {
        return;
      }
      var rows := Repeat(repeaters, m);
      result := result + rows;
    }

    // Walk every repeater forward, at most m times.
    method Repeat(repeaters: seq<Oid>, m: nat) returns (result: seq<VarBind>)
      requires Valid()
      ensures var next := NextOf(mibTree);
              result == Concat(FirstRows(next, repeaters, RowCount(RowEnded(next, repeaters), 0, m)))
    {
      result := [];
      ghost var next := NextOf(mibTree);
      ghost var ended := RowEnded(next, repeaters);
      var current := repeaters;
      var rep := 0;
      while rep < m
        invariant rep <= m
        invariant current == AfterAll(next, repeaters, rep)
        invariant RowCount(ended, 0, m) == rep + RowCount(ended, rep, m)
        invariant result == Concat(FirstRows(next, repeaters, rep))
      {
        var row, stepped, allEnd := BulkRow(current);
        Stepped(next, repeaters, rep, stepped);
        OneMoreRow(next, repeaters, rep);
        CountOneMore(ended, rep, m);
        result, current := result + row, stepped;
        if allEnd {
          return;
        }
        rep := rep + 1;
      }
    }

    // One pass over the repeaters: the inner loop of a GetBulk.
    method BulkRow(oids: seq<Oid>) returns (row: seq<VarBind>, current: seq<Oid>, allEnd: bool)
      requires Valid()
      ensures row == Answers(NextOf(mibTree), oids)
      ensures |current| == |oids| && forall i :: 0 <= i < |oids| ==> current[i] == row[i].oid
      ensures allEnd == AllEnded(row)
    {
      row, current, allEnd := [], oids, true;
      for i := 0 to |oids|
        invariant row == Answers(NextOf(mibTree), oids[..i])
        invariant |current| == |oids| && current[i..] == oids[i..]
        invariant forall j :: 0 <= j < i ==> current[j] == row[j].oid
        invariant allEnd == AllEnded(row)
      {
        assert current[i] == oids[i];
        assert oids[..i + 1] == oids[..i] + [oids[i]];
        var found := GetNext(current[i]);
        if found.Some? {
          row := row + [VarBind(found.value.oid, Val(found.value.value))];
          current := current[i := found.value.oid];
          allEnd := false;
          assert row[i].reply != EndOfMibView;
        } else {
          row := row + [VarBind(current[i], EndOfMibView)];
        }
      }
      assert oids[..|oids|] == oids;
    }
  }

  function GetReply(tree: seq<Binding>, oid: Oid): VarBind {
    match Find(tree, oid)
    case Some(b) => VarBind(oid, Val(b.value))
    case None => VarBind(oid, NoSuchInstance)
  }

  // ----- GETBULK against iterated GETNEXT -----

  lemma {:induction false} ConcatRows<T>(rows: seq<seq<T>>, width: nat)
    requires forall k :: 0 <= k < |rows| ==> |rows[k]| == width
    ensures |Concat(rows)| == |rows| * width
  {
    if rows != [] {
      ConcatRows(rows[..|rows| - 1], width);
      assert |rows| * width == (|rows| - 1) * width + width;
    }
  }

  function At<T>(s: seq<T>, i: int): Option<T> {
    if 0 <= i < |s| then Some(s[i]) else None
  }

  lemma {:induction false} ConcatAt<T>(head: seq<T>, rows: seq<seq<T>>, width: nat, k: nat, i: nat)
    requires forall j :: 0 <= j < |rows| ==> |rows[j]| == width
    requires k < |rows| && i < width
    ensures At(head + Concat(rows), |head| + k * width + i) == Some(rows[k][i])
    decreases |rows|
  {
    var front := rows[..|rows| - 1];
    ConcatRows(front, width);
    assert head + Concat(rows) == (head + Concat(front)) + rows[|rows| - 1];
    if k < |front| { ConcatAt(head, front, width, k, i); }
  }

  lemma ProductMonotone(a: nat, b: nat, c: nat)
    requires a <= b
    ensures 0 <= a * c <= b * c
  {}

  // The response has the non-repeaters, then whole rows; never more than N + min(M, 100) * R
  // bindings. The rows stop after the first in which every repeater has ended.
  lemma BulkShape(next: GetNext, oids: seq<Oid>, nonRepeaters: int, maxRepetitions: int)
    ensures var n := Clamp(nonRepeaters, |oids|);
            var m := Clamp(maxRepetitions, 100);
            var rows := BulkRows(next, oids, nonRepeaters, maxRepetitions);
            var width := |oids[n..]|;
            && rows <= m
            && |Bulk(next, oids, nonRepeaters, maxRepetitions)| == n + rows * width <= n + m * width
            && (n < |oids| && rows < m ==> 0 < rows && RowEnded(next, oids[n..])(rows - 1))
            && forall k :: 0 <= k < rows - 1 ==> !RowEnded(next, oids[n..])(k)
  {
    var n := Clamp(nonRepeaters, |oids|);
    var m := Clamp(maxRepetitions, 100);
    var rows := BulkRows(next, oids, nonRepeaters, maxRepetitions);
    RowCountStops(RowEnded(next, oids[n..]), 0, m);
    ConcatRows(FirstRows(next, oids[n..], rows), |oids[n..]|);
    ProductMonotone(rows, m, |oids[n..]|);
  }

  // Each non-repeater answers one GETNEXT.
  lemma BulkNonRepeater(next: GetNext, oids: seq<Oid>, nonRepeaters: int, maxRepetitions: int, i: nat)
    requires i < Clamp(nonRepeaters, |oids|)
    ensures var r := Bulk(next, oids, nonRepeaters, maxRepetitions);
            i < |r| && r[i] == next(oids[i])
  {
    var n := Clamp(nonRepeaters, |oids|);
    assert Answers(next, oids[..n])[i] == next(oids[i]);
  }

  lemma RowsAt(next: GetNext, head: seq<VarBind>, repeaters: seq<Oid>, count: nat, k: nat, i: nat)
    requires k < count && i < |repeaters|
    ensures At(head + Concat(FirstRows(next, repeaters, count)), |head| + k * |repeaters| + i)
            == Some(next(After(next, repeaters[i], k)))
  {
    var rows := FirstRows(next, repeaters, count);
    ConcatAt(head, rows, |repeaters|, k, i);
    assert rows[k] == Answers(next, AfterAll(next, repeaters, k));
  }

  // Row k of repeater i is GETNEXT at the OID that k steps have reached.
  lemma BulkRepeater(next: GetNext, oids: seq<Oid>, nonRepeaters: int, maxRepetitions: int, k: nat, i: nat)
    requires i < |oids[Clamp(nonRepeaters, |oids|)..]|
    requires k < BulkRows(next, oids, nonRepeaters, maxRepetitions)
    ensures var n := Clamp(nonRepeaters, |oids|);
            At(Bulk(next, oids, nonRepeaters, maxRepetitions), n + k * |oids[n..]| + i)
            == Some(next(After(next, oids[n + i], k)))
  {
    var n := Clamp(nonRepeaters, |oids|);
    var head := Answers(next, oids[..n]);
    assert |head| == n;
    RowsAt(next, head, oids[n..], BulkRows(next, oids, nonRepeaters, maxRepetitions), k, i);
    assert oids[n..][i] == oids[n + i];
  }

  // Once the view has ended for a repeater it stays at the last OID it reached.
  lemma {:induction false} EndedStays(tree: seq<Binding>, oid: Oid, k: nat, m: nat)
    requires k <= m
    requires NextOf(tree)(After(NextOf(tree), oid, k)).reply == EndOfMibView
    ensures After(NextOf(tree), oid, m) == After(NextOf(tree), oid, k)
    decreases m - k
  {
    if k < m {
      assert After(NextOf(tree), oid, k + 1) == After(NextOf(tree), oid, k);
      EndedStays(tree, oid, k + 1, m);
    }
  }
}
