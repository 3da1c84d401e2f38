// Masking secrets and deleting volatile fields of a payload by path.
module Redactor {
  import opened Wrappers
  import opened Json
  import opened Sequences

  // A walk step: into a field, or into every item of an array.
  datatype Step = Key(name: string) | Items

  type Path = seq<Step>

  type Hash = Json -> string

  // What replaces a secret: enough to see that it changed, not what it was.
  function Sentinel(v: Json, h: Hash): Json {
    Obj(map["_redacted" := Bool(true), "_hash" := Str(h(v))])
  }

  // mask_path: the values at the path become sentinels; whatever does not resolve is skipped.
  function Mask(j: Json, path: Path, h: Hash): Json
    decreases |path|
  {
    if path == [] then j
    else
      var rest := path[1..];
      var inner := (v: Json) => if rest == [] then Sentinel(v, h) else Mask(v, rest, h);
      match path[0]
      case Key(k) => if j.Obj? && k in j.fields then Obj(j.fields[k := inner(j.fields[k])]) else j
      case Items => if j.Arr? then Arr(MapAll(j.items, inner)) else j
  }

  // delete_path: the fields at the path are removed. A path ending in an array step removes nothing.
  function Delete(j: Json, path: Path): Json
    decreases |path|
  {
    if path == [] then j
    else
      var rest := path[1..];
      match path[0]
      case Key(k) =>
        if j.Obj? && k in j.fields
        then Obj(if rest == [] then j.fields - {k} else j.fields[k := Delete(j.fields[k], rest)])
        else j
      case Items => if j.Arr? then Arr(MapAll(j.items, v => Delete(v, rest))) else j
  }

  function MaskAll(j: Json, paths: seq<Path>, h: Hash): Json
    decreases |paths|
  {
    if paths == [] then j else MaskAll(Mask(j, paths[0], h), paths[1..], h)
  }

  function DeleteAll(j: Json, paths: seq<Path>): Json
    decreases |paths|
  {
    if paths == [] then j else DeleteAll(Delete(j, paths[0]), paths[1..])
  }

  // redact: the masked and normalised payload, as canonical text.
  function Redact(payload: Json, masks: seq<Path>, deletes: seq<Path>, h: Hash, canon: Json -> string): string {
    canon(DeleteAll(MaskAll(payload, masks, h), deletes))
  }

  // ----- masking loses nothing -----

  lemma SentinelInjective(a: Json, b: Json, h: Hash)
    requires Injective(h) && Sentinel(a, h) == Sentinel(b, h)
    ensures a == b
  {
    assert Sentinel(a, h).fields["_hash"] == Sentinel(b, h).fields["_hash"];
  }

  // One level of masking, seen as a function on the values it reaches.
  function Inner(v: Json, rest: Path, h: Hash): Json {
    if rest == [] then Sentinel(v, h) else Mask(v, rest, h)
  }

  lemma {:induction false} MaskInjective(a: Json, b: Json, path: Path, h: Hash)
    requires Injective(h) && Mask(a, path, h) == Mask(b, path, h)
    ensures a == b
    decreases |path|
  {
    if path != [] {
      var rest := path[1..];
      forall v, w | Inner(v, rest, h) == Inner(w, rest, h) ensures v == w {
        if rest == [] { SentinelInjective(v, w, h); } else { MaskInjective(v, w, rest, h); }
      }
      match path[0]
      case Key(k) =>
        if a.Obj? && k in a.fields {
          var x, y := Mask(a, path, h).fields, Mask(b, path, h).fields;
          assert x[k] == Inner(a.fields[k], rest, h) && y[k] == Inner(b.fields[k], rest, h);
          assert a.fields == x[k := a.fields[k]] && b.fields == y[k := b.fields[k]];
        }
      case Items =>
        if a.Arr? {
          forall i | 0 <= i < |a.items| ensures a.items[i] == b.items[i] {
            assert Mask(a, path, h).items[i] == Inner(a.items[i], rest, h);
            assert Mask(b, path, h).items[i] == Inner(b.items[i], rest, h);
          }
        }
    }
  }

  // Masking along any list of paths is injective.
  lemma {:induction false} MaskAllInjective(a: Json, b: Json, paths: seq<Path>, h: Hash)
    requires Injective(h) && MaskAll(a, paths, h) == MaskAll(b, paths, h)
    ensures a == b
    decreases |paths|
  {
    if paths != [] {
      MaskAllInjective(Mask(a, paths[0], h), Mask(b, paths[0], h), paths[1..], h);
      MaskInjective(a, b, paths[0], h);
    }
  }

  // ----- where masking acts -----

  datatype Pos = Field(name: string) | Index(i: nat)

  // The value at a position, if there is one.
  function At(j: Json, pos: seq<Pos>): Option<Json>
    decreases |pos|
  {
    if pos == [] then Some(j)
    else
      match pos[0]
      case Field(k) => if j.Obj? && k in j.fields then At(j.fields[k], pos[1..]) else None
      case Index(i) => if j.Arr? && i < |j.items| then At(j.items[i], pos[1..]) else None
  }

  predicate StepFits(s: Step, p: Pos) {
    match s
    case Key(k) => p == Field(k)
    case Items => p.Index?
  }

  // The path selects this position.
  predicate Selects(path: Path, pos: seq<Pos>) {
    |path| == |pos| && forall i :: 0 <= i < |path| ==> StepFits(path[i], pos[i])
  }

  // The path and the position part ways: neither selects a part of the other.
  predicate Apart(path: Path, pos: seq<Pos>) {
    exists i :: 0 <= i < |path| && i < |pos| && !StepFits(path[i], pos[i])
  }

  lemma ApartTail(path: Path, pos: seq<Pos>)
    requires path != [] && pos != [] && Apart(path, pos) && StepFits(path[0], pos[0])
    ensures Apart(path[1..], pos[1..])
  {
    var i :| 0 <= i < |path| && i < |pos| && !StepFits(path[i], pos[i]);
    assert !StepFits(path[1..][i - 1], pos[1..][i - 1]);
  }

  // A selected value becomes its sentinel.
  lemma {:induction false} MaskSelected(j: Json, path: Path, h: Hash, pos: seq<Pos>)
    requires path != [] && Selects(path, pos)
    ensures At(Mask(j, path, h), pos) == match At(j, pos) case Some(v) => Some(Sentinel(v, h)) case None => None
    decreases |path|
  {
    assert StepFits(path[0], pos[0]);
    var rest, tail := path[1..], pos[1..];
    assert Selects(rest, tail);
    forall v ensures rest != [] ==> At(Inner(v, rest, h), tail) == match At(v, tail) case Some(w) => Some(Sentinel(w, h)) case None => None {
      if rest != [] { MaskSelected(v, rest, h, tail); }
    }
    match path[0]
    case Key(k) => if j.Obj? && k in j.fields { assert Mask(j, path, h).fields[k] == Inner(j.fields[k], rest, h); }
    case Items => if j.Arr? && pos[0].i < |j.items| { assert Mask(j, path, h).items[pos[0].i] == Inner(j.items[pos[0].i], rest, h); }
  }

  // A value apart from the path stays what it was.
  lemma {:induction false} MaskApart(j: Json, path: Path, h: Hash, pos: seq<Pos>)
    requires path != [] && Apart(path, pos)
    ensures At(Mask(j, path, h), pos) == At(j, pos)
    decreases |path|
  {
    var rest, tail := path[1..], pos[1..];
    if StepFits(path[0], pos[0]) {
      ApartTail(path, pos);
      assert rest != [];
      forall v ensures At(Inner(v, rest, h), tail) == At(v, tail) {
        MaskApart(v, rest, h, tail);
      }
      match path[0]
      case Key(k) => if j.Obj? && k in j.fields { assert Mask(j, path, h).fields[k] == Inner(j.fields[k], rest, h); }
      case Items => if j.Arr? && pos[0].i < |j.items| { assert Mask(j, path, h).items[pos[0].i] == Inner(j.items[pos[0].i], rest, h); }
    }
  }

  // What is left of a value when its parts are not looked at.
  datatype Shape = Fields(names: set<string>) | Length(n: nat) | Scalar(j: Json)

  function ShapeOf(j: Json): Shape {
    match j
    case Obj(fields) => Fields(fields.Keys)
    case Arr(items) => Length(|items|)
    case _ => Scalar(j)
  }

  function ShapeAt(j: Json, pos: seq<Pos>): Option<Shape> {
    match At(j, pos) case Some(v) => Some(ShapeOf(v)) case None => None
  }

  // A proper part of the path selects the position.
  predicate Above(path: Path, pos: seq<Pos>) {
    |pos| < |path| && Selects(path[..|pos|], pos)
  }

  // A value above the selected ones keeps its kind, its keys and its length.
  lemma {:induction false} MaskAbove(j: Json, path: Path, h: Hash, pos: seq<Pos>)
    requires Above(path, pos)
    ensures ShapeAt(Mask(j, path, h), pos) == ShapeAt(j, pos)
    decreases |path|
  {
    var rest := path[1..];
    if pos == [] {
      if path[0].Key? && j.Obj? && path[0].name in j.fields {
        assert Mask(j, path, h).fields.Keys == j.fields.Keys;
      }
    } else {
      var tail := pos[1..];
      assert StepFits(path[..|pos|][0], pos[0]);
      assert Above(rest, tail) by {
        assert path[..|pos|][1..] == rest[..|tail|];
      }
      assert rest != [];
      forall v ensures ShapeAt(Inner(v, rest, h), tail) == ShapeAt(v, tail) {
        MaskAbove(v, rest, h, tail);
      }
      match path[0]
      case Key(k) => if j.Obj? && k in j.fields { assert Mask(j, path, h).fields[k] == Inner(j.fields[k], rest, h); }
      case Items => if j.Arr? && pos[0].i < |j.items| { assert Mask(j, path, h).items[pos[0].i] == Inner(j.items[pos[0].i], rest, h); }
    }
  }

  // ----- masking along paths of which none is a prefix of another -----

  predicate Incomparable(p: Path, q: Path) {
    !(p <= q) && !(q <= p)
  }

  ghost predicate AllIncomparable(paths: seq<Path>) {
    (forall p :: p in paths ==> p != []) &&
    forall i, j :: 0 <= i < j < |paths| ==> Incomparable(paths[i], paths[j])
  }

  lemma TailIncomparable(paths: seq<Path>)
    requires paths != [] && AllIncomparable(paths)
    ensures AllIncomparable(paths[1..]) && paths[0] != []
    ensures forall q :: q in paths[1..] ==> Incomparable(paths[0], q) && Incomparable(q, paths[0])
  {
    assert paths[0] in paths;
    forall q | q in paths[1..] ensures q in paths && Incomparable(paths[0], q) {
      var k :| 0 <= k < |paths[1..]| && paths[1..][k] == q;
      assert paths[k + 1] == q;
    }
    forall i, j | 0 <= i < j < |paths[1..]| ensures Incomparable(paths[1..][i], paths[1..][j]) {
      assert Incomparable(paths[i + 1], paths[j + 1]);
    }
  }

  lemma {:induction false} FirstDifference(p: Path, q: Path) returns (i: nat)
    requires Incomparable(p, q)
    ensures i < |p| && i < |q| && p[i] != q[i] && p[..i] == q[..i]
  {
    if p[0] != q[0] {
      return 0;
    }
    i := FirstDifference(p[1..], q[1..]);
    i := i + 1;
    assert p[..i] == [p[0]] + p[1..][..i - 1] && q[..i] == [q[0]] + q[1..][..i - 1];
  }

  lemma SelectedIsApart(p: Path, q: Path, pos: seq<Pos>)
    requires Incomparable(p, q) && Selects(q, pos)
    ensures Apart(p, pos)
  {
    var i := FirstDifference(p, q);
    assert StepFits(q[i], pos[i]);
    assert !StepFits(p[i], pos[i]);
  }

  // At a position that one of the paths selects: the sentinel of the original value.
  lemma {:induction false} MaskAllSelected(j: Json, paths: seq<Path>, h: Hash, path: Path, pos: seq<Pos>)
    requires AllIncomparable(paths) && path in paths && Selects(path, pos)
    ensures At(MaskAll(j, paths, h), pos) == match At(j, pos) case Some(v) => Some(Sentinel(v, h)) case None => None
    decreases |paths|
  {
    var first := Mask(j, paths[0], h);
    if path == paths[0] {
      MaskSelected(j, path, h, pos);
      forall q | q in paths[1..] ensures q != [] && Apart(q, pos) {
        var k :| 0 <= k < |paths[1..]| && paths[1..][k] == q;
        var i := k + 1;
        assert paths[i] == q && q in paths;
        assert Incomparable(paths[0], paths[i]);
        SelectedIsApart(q, path, pos);
      }
      MaskAllApart(first, paths[1..], h, pos);
    } else {
      var i :| 0 < i < |paths| && paths[i] == path;
      assert Incomparable(paths[0], paths[i]);
      SelectedIsApart(paths[0], path, pos);
      MaskApart(j, paths[0], h, pos);
      assert paths[1..][i - 1] == path;
      TailIncomparable(paths);
      MaskAllSelected(first, paths[1..], h, path, pos);
    }
  }

  // At a position apart from all paths: the original value.
  lemma {:induction false} MaskAllApart(j: Json, paths: seq<Path>, h: Hash, pos: seq<Pos>)
    requires forall q :: q in paths ==> q != [] && Apart(q, pos)
    ensures At(MaskAll(j, paths, h), pos) == At(j, pos)
    decreases |paths|
  {
    if paths != [] {
      assert paths[0] in paths && forall q :: q in paths[1..] ==> q in paths;
      MaskApart(j, paths[0], h, pos);
      MaskAllApart(Mask(j, paths[0], h), paths[1..], h, pos);
    }
  }

  // At any other position outside the masked values: the original kind, keys and length.
  lemma {:induction false} MaskAllAbove(j: Json, paths: seq<Path>, h: Hash, pos: seq<Pos>)
    requires forall q :: q in paths ==> q != [] && (Apart(q, pos) || Above(q, pos))
    ensures ShapeAt(MaskAll(j, paths, h), pos) == ShapeAt(j, pos)
    decreases |paths|
  {
    if paths != [] {
      assert paths[0] in paths && forall q :: q in paths[1..] ==> q in paths;
      if Apart(paths[0], pos) { MaskApart(j, paths[0], h, pos); } else { MaskAbove(j, paths[0], h, pos); }
      MaskAllAbove(Mask(j, paths[0], h), paths[1..], h, pos);
    }
  }

  // ----- the order of incomparable paths does not matter -----

  lemma {:induction false} MaskCommutes(j: Json, p: Path, q: Path, h: Hash)
    requires Incomparable(p, q)
    ensures Mask(Mask(j, p, h), q, h) == Mask(Mask(j, q, h), p, h)
    decreases |p|
  {
    if p[0].Key? && q[0].Key? && j.Obj? {
      MaskFieldsCommute(j, p, q, h);
    } else if p[0].Items? && q[0].Items? && j.Arr? {
      MaskItemsCommute(j, p, q, h);
    }
  }

  lemma IncomparableRest(p: Path, q: Path)
    requires Incomparable(p, q) && p[0] == q[0]
    ensures Incomparable(p[1..], q[1..])
  {
    assert p == [p[0]] + p[1..] && q == [q[0]] + q[1..];
  }

  lemma {:induction false} InnerCommutes(v: Json, p: Path, q: Path, h: Hash)
    requires Incomparable(p, q) && p[0] == q[0]
    ensures Inner(Inner(v, p[1..], h), q[1..], h) == Inner(Inner(v, q[1..], h), p[1..], h)
    decreases |p|, 0
  {
    IncomparableRest(p, q);
    MaskCommutes(v, p[1..], q[1..], h);
  }

  // What one mask does to the fields of an object, one level down.
  function MaskField(fields: map<string, Json>, p: Path, h: Hash): map<string, Json>
    requires p != [] && p[0].Key?
  {
    var k := p[0].name;
    if k in fields then fields[k := Inner(fields[k], p[1..], h)] else fields
  }

  lemma MaskInObject(j: Json, p: Path, h: Hash)
    requires p != [] && p[0].Key? && j.Obj?
    ensures Mask(j, p, h) == Obj(MaskField(j.fields, p, h))
  {}

  lemma {:induction false} MaskFieldsCommute(j: Json, p: Path, q: Path, h: Hash)
    requires Incomparable(p, q) && p[0].Key? && q[0].Key? && j.Obj?
    ensures Mask(Mask(j, p, h), q, h) == Mask(Mask(j, q, h), p, h)
    decreases |p|, 1
  {
    MaskInObject(j, p, h);
    MaskInObject(j, q, h);
    MaskInObject(Mask(j, p, h), q, h);
    MaskInObject(Mask(j, q, h), p, h);
    var k, l := p[0].name, q[0].name;
    if k == l && k in j.fields {
      InnerCommutes(j.fields[k], p, q, h);
    }
    assert MaskField(MaskField(j.fields, p, h), q, h) == MaskField(MaskField(j.fields, q, h), p, h);
  }

  lemma MaskItem(j: Json, p: Path, h: Hash)
    requires p != [] && p[0].Items? && j.Arr?
    ensures Mask(j, p, h).Arr? && |Mask(j, p, h).items| == |j.items|
    ensures forall i :: 0 <= i < |j.items| ==> Mask(j, p, h).items[i] == Inner(j.items[i], p[1..], h)
  {}

  lemma {:induction false} MaskItemsCommute(j: Json, p: Path, q: Path, h: Hash)
    requires Incomparable(p, q) && p[0].Items? && q[0].Items? && j.Arr?
    ensures Mask(Mask(j, p, h), q, h) == Mask(Mask(j, q, h), p, h)
    decreases |p|, 1
  {
    MaskItem(j, p, h);
    MaskItem(j, q, h);
    var x, y := Mask(j, p, h), Mask(j, q, h);
    MaskItem(x, q, h);
    MaskItem(y, p, h);
    forall i | 0 <= i < |j.items| ensures Mask(x, q, h).items[i] == Mask(y, p, h).items[i] {
      InnerCommutes(j.items[i], p, q, h);
    }
    assert Mask(x, q, h).items == Mask(y, p, h).items;
  }

  lemma {:induction false} MaskFirst(j: Json, front: seq<Path>, p: Path, back: seq<Path>, h: Hash)
    requires forall q :: q in front ==> Incomparable(q, p)
    ensures MaskAll(j, front + [p] + back, h) == MaskAll(Mask(j, p, h), front + back, h)
    decreases |front|
  {
    var all := front + [p] + back;
    if front == [] {
      assert all[1..] == back && front + back == back;
    } else {
      assert all[1..] == front[1..] + [p] + back && (front + back)[1..] == front[1..] + back;
      MaskFirst(Mask(j, front[0], h), front[1..], p, back, h);
      MaskCommutes(j, front[0], p, h);
    }
  }

  lemma {:induction false} MaskAnyOrder(j: Json, paths: seq<Path>, others: seq<Path>, h: Hash)
    requires AllIncomparable(paths) && multiset(paths) == multiset(others)
    ensures MaskAll(j, paths, h) == MaskAll(j, others, h)
    decreases |paths|
  {
    if paths == [] {
      assert |others| == |multiset(others)| == 0;
    } else {
      var p, rest := paths[0], paths[1..];
      TailIncomparable(paths);
      assert paths == [p] + rest;
      var front, back := TakeOut(rest, p, others);
      forall q | q in front ensures Incomparable(q, p) {
        assert q in multiset(front + back);
        assert q in rest;
      }
      MaskFirst(j, front, p, back, h);
      MaskAnyOrder(Mask(j, p, h), rest, front + back, h);
    }
  }

  // ----- deletion -----

  // What one deletion does to the fields of an object, one level down.
  function DeleteField(fields: map<string, Json>, p: Path): map<string, Json>
    requires p != [] && p[0].Key?
  {
    var k := p[0].name;
    if k !in fields then fields
    else if |p| == 1 then fields - {k}
    else fields[k := Delete(fields[k], p[1..])]
  }

  lemma DeleteFromObject(j: Json, p: Path)
    requires p != [] && p[0].Key? && j.Obj?
    ensures Delete(j, p) == Obj(DeleteField(j.fields, p))
  {}

  lemma DeleteFromItems(j: Json, p: Path)
    requires p != [] && p[0].Items? && j.Arr?
    ensures Delete(j, p).Arr? && |Delete(j, p).items| == |j.items|
    ensures forall i :: 0 <= i < |j.items| ==> Delete(j, p).items[i] == Delete(j.items[i], p[1..])
  {}

  // Any two deletions commute ...
  lemma {:induction false} DeleteCommutes(j: Json, p: Path, q: Path)
    ensures Delete(Delete(j, p), q) == Delete(Delete(j, q), p)
    decreases |p|, 1
  {
    if p != [] && q != [] {
      if p[0].Key? && q[0].Key? && j.Obj? {
        DeleteFromObject(j, p);
        DeleteFromObject(j, q);
        DeleteFromObject(Delete(j, p), q);
        DeleteFromObject(Delete(j, q), p);
        DeleteFieldCommutes(j.fields, p, q);
      } else if p[0].Items? && q[0].Items? && j.Arr? {
        DeleteItemsCommute(j, p, q);
      }
    }
  }

  lemma {:induction false} DeleteFieldCommutes(fields: map<string, Json>, p: Path, q: Path)
    requires p != [] && q != [] && p[0].Key? && q[0].Key?
    ensures DeleteField(DeleteField(fields, p), q) == DeleteField(DeleteField(fields, q), p)
    decreases |p|, 0
  {
    var k := p[0].name;
    if q[0].name == k && k in fields && |p| > 1 && |q| > 1 {
      DeleteCommutes(fields[k], p[1..], q[1..]);
    }
  }

  lemma {:induction false} DeleteItemsCommute(j: Json, p: Path, q: Path)
    requires p != [] && q != [] && p[0].Items? && q[0].Items? && j.Arr?
    ensures Delete(Delete(j, p), q) == Delete(Delete(j, q), p)
    decreases |p|, 0
  {
    DeleteFromItems(j, p);
    DeleteFromItems(j, q);
    var x, y := Delete(j, p), Delete(j, q);
    DeleteFromItems(x, q);
    DeleteFromItems(y, p);
    forall i | 0 <= i < |j.items| ensures Delete(x, q).items[i] == Delete(y, p).items[i] {
      DeleteCommutes(j.items[i], p[1..], q[1..]);
    }
    assert Delete(x, q).items == Delete(y, p).items;
  }

  // ... and deleting twice is deleting once.
  lemma {:induction false} DeleteIdempotent(j: Json, p: Path)
    ensures Delete(Delete(j, p), p) == Delete(j, p)
    decreases |p|
  {
    if p != [] && p[0].Key? && j.Obj? {
      DeleteFromObject(j, p);
      DeleteFromObject(Delete(j, p), p);
      if p[0].name in j.fields && |p| > 1 { DeleteIdempotent(j.fields[p[0].name], p[1..]); }
      assert DeleteField(DeleteField(j.fields, p), p) == DeleteField(j.fields, p);
    } else if p != [] && p[0].Items? && j.Arr? {
      DeleteFromItems(j, p);
      var x := Delete(j, p);
      DeleteFromItems(x, p);
      forall i | 0 <= i < |j.items| ensures Delete(x, p).items[i] == x.items[i] {
        DeleteIdempotent(j.items[i], p[1..]);
      }
      assert Delete(x, p).items == x.items;
    }
  }

  // ----- what redaction preserves -----

  // The deletion removes a field inside a masked value.
  predicate Inside(mask: Path, delete: Path) {
    mask < delete && delete[|delete| - 1].Key?
  }

  // A path that ends in an array step removes nothing.
  lemma {:induction false} DeleteItemsIsNothing(j: Json, d: Path)
    requires d == [] || d[|d| - 1] == Items
    ensures Delete(j, d) == j
    decreases |d|
  {
    if d != [] {
      forall v ensures Delete(v, d[1..]) == v {
        DeleteItemsIsNothing(v, d[1..]);
      }
    }
  }

  // A deletion that does not reach inside the masked values can be done first.
  lemma {:induction false} MaskDeleteCommute(j: Json, m: Path, d: Path, h: Hash)
    requires m != [] && !Inside(m, d)
    ensures Delete(Mask(j, m, h), d) == Mask(Delete(j, d), m, h)
    decreases |m|, 2
  {
    if d == [] || d[|d| - 1] == Items {
      DeleteItemsIsNothing(Mask(j, m, h), d);
      DeleteItemsIsNothing(j, d);
    } else if m[0].Key? && d[0].Key? && j.Obj? {
      MaskInObject(j, m, h);
      DeleteFromObject(j, d);
      DeleteFromObject(Mask(j, m, h), d);
      MaskInObject(Delete(j, d), m, h);
      FieldMaskDelete(j.fields, m, d, h);
    } else if m[0].Items? && d[0].Items? && j.Arr? {
      ItemsMaskDelete(j, m, d, h);
    }
  }

  lemma OutsideRest(m: Path, d: Path)
    requires m != [] && d != [] && m[0] == d[0] && !Inside(m, d) && |d| > 1 && d[|d| - 1].Key?
    ensures m[1..] != [] && !Inside(m[1..], d[1..])
  {
    assert m == [m[0]] + m[1..] && d == [d[0]] + d[1..];
    assert d[1..][|d[1..]| - 1] == d[|d| - 1];
  }

  lemma {:induction false} FieldMaskDelete(fields: map<string, Json>, m: Path, d: Path, h: Hash)
    requires m != [] && d != [] && m[0].Key? && d[0].Key? && !Inside(m, d) && d[|d| - 1].Key?
    ensures DeleteField(MaskField(fields, m, h), d) == MaskField(DeleteField(fields, d), m, h)
    decreases |m|, 1
  {
    var k := m[0].name;
    if d[0].name == k && k in fields && |d| > 1 {
      OutsideRest(m, d);
      MaskDeleteCommute(fields[k], m[1..], d[1..], h);
    }
  }

  lemma {:induction false} ItemsMaskDelete(j: Json, m: Path, d: Path, h: Hash)
    requires m != [] && d != [] && m[0].Items? && d[0].Items? && j.Arr? && !Inside(m, d) && d[|d| - 1].Key?
    ensures Delete(Mask(j, m, h), d) == Mask(Delete(j, d), m, h)
    decreases |m|, 1
  {
    MaskItem(j, m, h);
    DeleteFromItems(j, d);
    var x, y := Mask(j, m, h), Delete(j, d);
    DeleteFromItems(x, d);
    MaskItem(y, m, h);
    OutsideRest(m, d);
    forall i | 0 <= i < |j.items| ensures Delete(x, d).items[i] == Mask(y, m, h).items[i] {
      MaskDeleteCommute(j.items[i], m[1..], d[1..], h);
    }
    assert Delete(x, d).items == Mask(y, m, h).items;
  }

  lemma {:induction false} MaskAllDelete(j: Json, masks: seq<Path>, d: Path, h: Hash)
    requires forall m :: m in masks ==> m != [] && !Inside(m, d)
    ensures Delete(MaskAll(j, masks, h), d) == MaskAll(Delete(j, d), masks, h)
    decreases |masks|
  {
    if masks != [] {
      assert masks[0] in masks && forall m :: m in masks[1..] ==> m in masks;
      MaskAllDelete(Mask(j, masks[0], h), masks[1..], d, h);
      MaskDeleteCommute(j, masks[0], d, h);
    }
  }

  lemma {:induction false} MaskAllDeleteAll(j: Json, masks: seq<Path>, deletes: seq<Path>, h: Hash)
    requires forall m, d :: m in masks && d in deletes ==> m != [] && !Inside(m, d)
    ensures DeleteAll(MaskAll(j, masks, h), deletes) == MaskAll(DeleteAll(j, deletes), masks, h)
    decreases |deletes|
  {
    if deletes != [] {
      assert deletes[0] in deletes && forall d :: d in deletes[1..] ==> d in deletes;
      MaskAllDelete(j, masks, deletes[0], h);
      MaskAllDeleteAll(Delete(j, deletes[0]), masks, deletes[1..], h);
    }
  }

  lemma RedactedText(j: Json, masks: seq<Path>, deletes: seq<Path>, h: Hash, canon: Json -> string)
    requires forall m, d :: m in masks && d in deletes ==> m != [] && !Inside(m, d)
    ensures Redact(j, masks, deletes, h, canon) == canon(MaskAll(DeleteAll(j, deletes), masks, h))
  {
    MaskAllDeleteAll(j, masks, deletes, h);
  }

  // Two payloads redact to the same text exactly when they are equal once the volatile
  // fields are deleted, provided that no deletion removes a field inside a masked value. An area
  // with masks only, or with deletions only, is the case where one list is empty.
  lemma RedactLaw(a: Json, b: Json, masks: seq<Path>, deletes: seq<Path>, h: Hash, canon: Json -> string)
    requires Injective(h) && Injective(canon)
    requires forall m, d :: m in masks && d in deletes ==> m != [] && !Inside(m, d)
    ensures Redact(a, masks, deletes, h, canon) == Redact(b, masks, deletes, h, canon)
            <==> DeleteAll(a, deletes) == DeleteAll(b, deletes)
  {
    RedactedText(a, masks, deletes, h, canon);
    RedactedText(b, masks, deletes, h, canon);
    var x, y := DeleteAll(a, deletes), DeleteAll(b, deletes);
    if canon(MaskAll(x, masks, h)) == canon(MaskAll(y, masks, h)) {
      MaskAllInjective(x, y, masks, h);
    }
  }

  // ----- the proviso is exact -----

  // A payload with just this path in it.
  function Nest(path: Path, leaf: Json): Json {
    if path == [] then leaf
    else
      match path[0]
      case Key(k) => Obj(map[k := Nest(path[1..], leaf)])
      case Items => Arr([Nest(path[1..], leaf)])
  }

  lemma {:induction false} NestInjective(path: Path, x: Json, y: Json)
    requires Nest(path, x) == Nest(path, y)
    ensures x == y
  {
    if path != [] {
      match path[0]
      case Key(k) =>
        assert Nest(path, x).fields[k] == Nest(path, y).fields[k];
        NestInjective(path[1..], x, y);
      case Items =>
        assert Nest(path, x).items[0] == Nest(path, y).items[0];
        NestInjective(path[1..], x, y);
    }
  }

  lemma {:induction false} NestConcat(p: Path, q: Path, leaf: Json)
    ensures Nest(p + q, leaf) == Nest(p, Nest(q, leaf))
  {
    if p == [] {
      assert p + q == q;
    } else {
      assert (p + q)[1..] == p[1..] + q;
      NestConcat(p[1..], q, leaf);
    }
  }

  lemma {:induction false} MaskNest(m: Path, v: Json, h: Hash)
    requires m != []
    ensures Mask(Nest(m, v), m, h) == Nest(m, Sentinel(v, h))
  {
    if |m| == 1 {
      assert Nest(m[1..], v) == v && Nest(m[1..], Sentinel(v, h)) == Sentinel(v, h);
    } else {
      MaskNest(m[1..], v, h);
    }
    match m[0]
    case Key(k) => assert Mask(Nest(m, v), m, h).fields[k] == Nest(m[1..], Sentinel(v, h));
    case Items => assert Mask(Nest(m, v), m, h).items[0] == Nest(m[1..], Sentinel(v, h));
  }

  lemma {:induction false} DeleteNest(m: Path, v: Json, r: Path)
    requires r != []
    ensures Delete(Nest(m, v), m + r) == Nest(m, Delete(v, r))
  {
    if m == [] {
      assert m + r == r;
    } else {
      assert (m + r)[1..] == m[1..] + r;
      DeleteNest(m[1..], v, r);
      match m[0]
      case Key(k) => assert Delete(Nest(m, v), m + r).fields[k] == Nest(m[1..], Delete(v, r));
      case Items => assert Delete(Nest(m, v), m + r).items[0] == Nest(m[1..], Delete(v, r));
    }
  }

  // The leaf that the deletion removes does not matter.
  lemma {:induction false} DeleteLeaf(d: Path, x: Json, y: Json)
    requires d != [] && d[|d| - 1].Key?
    ensures Delete(Nest(d, x), d) == Delete(Nest(d, y), d)
  {
    if |d| == 1 {
      var k := d[0].name;
      assert Delete(Nest(d, x), d).fields == Delete(Nest(d, y), d).fields;
    } else {
      DeleteLeaf(d[1..], x, y);
      match d[0]
      case Key(k) => assert Delete(Nest(d, x), d).fields == Delete(Nest(d, y), d).fields;
      case Items => assert Delete(Nest(d, x), d).items == Delete(Nest(d, y), d).items;
    }
  }

  // Unless the deletion takes the hash itself, the sentinels of different values stay different.
  lemma SentinelsStayDifferent(x: Json, y: Json, r: Path, h: Hash)
    requires Injective(h) && x != y && r != [] && r != [Key("_hash")]
    ensures Delete(Sentinel(x, h), r) != Delete(Sentinel(y, h), r)
  {
    var a, b := Delete(Sentinel(x, h), r), Delete(Sentinel(y, h), r);
    if r[0] == Key("_hash") {
      assert r == [r[0]] + r[1..];
      assert Delete(Str(h(x)), r[1..]) == Str(h(x)) && Delete(Str(h(y)), r[1..]) == Str(h(y));
    }
    assert a.fields["_hash"] == Str(h(x)) && b.fields["_hash"] == Str(h(y));
  }

  // The law for one mask and one deletion.
  ghost predicate Law(m: Path, d: Path, h: Hash) {
    forall a, b :: Delete(Mask(a, m, h), d) == Delete(Mask(b, m, h), d) <==> Delete(a, d) == Delete(b, d)
  }

  // A deletion inside a masked value always breaks the law: either a change of a deleted
  // field shows in the hash, or the deletion takes the hash and hides every change.
  lemma LawBroken(m: Path, d: Path, h: Hash) returns (a: Json, b: Json)
    requires Injective(h) && m != [] && Inside(m, d)
    ensures !(Delete(Mask(a, m, h), d) == Delete(Mask(b, m, h), d) <==> Delete(a, d) == Delete(b, d))
  {
    var r := d[|m|..];
    assert d == m + r;
    var x, y := Null, Bool(true);
    if r != [Key("_hash")] {
      x, y := Nest(r, Null), Nest(r, Bool(true));
      if x == y { NestInjective(r, Null, Bool(true)); }
    }
    a, b := Nest(m, x), Nest(m, y);
    MaskNest(m, x, h);
    MaskNest(m, y, h);
    DeleteNest(m, Sentinel(x, h), r);
    DeleteNest(m, Sentinel(y, h), r);
    if r != [Key("_hash")] {
      NestConcat(m, r, Null);
      NestConcat(m, r, Bool(true));
      DeleteLeaf(d, Null, Bool(true));
      SentinelsStayDifferent(x, y, r, h);
      if Delete(Mask(a, m, h), d) == Delete(Mask(b, m, h), d) {
        NestInjective(m, Delete(Sentinel(x, h), r), Delete(Sentinel(y, h), r));
      }
    } else {
      assert Delete(Sentinel(x, h), r).fields == Delete(Sentinel(y, h), r).fields;
      DeleteNest(m, x, r);
      DeleteNest(m, y, r);
      if Nest(m, x) == Nest(m, y) { NestInjective(m, x, y); }
    }
  }

  lemma LawExactly(m: Path, d: Path, h: Hash)
    requires Injective(h) && m != []
    ensures Law(m, d, h) <==> !Inside(m, d)
  {
    if Inside(m, d) {
      var a, b := LawBroken(m, d, h);
    } else {
      forall a, b ensures Delete(Mask(a, m, h), d) == Delete(Mask(b, m, h), d) <==> Delete(a, d) == Delete(b, d) {
        MaskDeleteCommute(a, m, d, h);
        MaskDeleteCommute(b, m, d, h);
        if Mask(Delete(a, d), m, h) == Mask(Delete(b, d), m, h) {
          MaskInjective(Delete(a, d), Delete(b, d), m, h);
        }
      }
    }
  }
}
