// Differences of two objects: a list of field changes keyed by dotted path.
module DiffEngine {
  import opened Wrappers
  import opened Lexicographic
  import opened Json

  type Fields = map<string, Json>

  // K is how a place is named: a path of keys, or the dotted text of one.
  datatype Change<K> =
    | FieldChanged(key: K, before: Json, after: Json)
    | FieldAdded(key: K, value: Json)
    | FieldRemoved(key: K, value: Json)
    | SecretChanged(key: K)

  predicate IsSecretKey(k: string) {
    |k| >= 5 && k[|k| - 5..] == "_hash"
  }

  // ----- the diff, with places as paths of keys -----

  function Push(k: string, c: Change<seq<string>>): Change<seq<string>> {
    match c
    case FieldChanged(path, before, after) => FieldChanged([k] + path, before, after)
    case FieldAdded(path, value) => FieldAdded([k] + path, value)
    case FieldRemoved(path, value) => FieldRemoved([k] + path, value)
    case SecretChanged(path) => SecretChanged([k] + path)
  }

  function PushAll(k: string, cs: seq<Change<seq<string>>>): (r: seq<Change<seq<string>>>)
    ensures |r| == |cs| && forall i :: 0 <= i < |cs| ==> r[i] == Push(k, cs[i])
  {
    seq(|cs|, i requires 0 <= i < |cs| => Push(k, cs[i]))
  }

  datatype Diff<K> = Diff(changes: seq<Change<K>>, unchangedCount: nat)

  function Plus<K>(d: Diff<K>, e: Diff<K>): Diff<K> {
    Diff(d.changes + e.changes, d.unchangedCount + e.unchangedCount)
  }

  function Keys(a: Json, b: Json): set<string>
    requires a.Obj? && b.Obj?
  {
    a.fields.Keys + b.fields.Keys
  }

  function ObjectDiff(a: Json, b: Json, h: Json -> string): Diff<seq<string>>
    requires a.Obj? && b.Obj?
    decreases a, 1, 0
  {
    KeysDiff(a, b, Sorted(Keys(a, b)), h)
  }

  function KeysDiff(a: Json, b: Json, keys: seq<string>, h: Json -> string): Diff<seq<string>>
    requires a.Obj? && b.Obj? && forall k :: k in keys ==> k in Keys(a, b)
    decreases a, 0, |keys| + 1
  {
    if keys == [] then Diff([], 0)
    else Plus(KeysDiff(a, b, keys[..|keys| - 1], h), FieldDiff(a, b, keys[|keys| - 1], h))
  }

  function FieldDiff(a: Json, b: Json, k: string, h: Json -> string): Diff<seq<string>>
    requires a.Obj? && b.Obj? && k in Keys(a, b)
    decreases a, 0, 0
  {
    if k !in a.fields then Diff([FieldAdded([k], b.fields[k])], 0)
    else if k !in b.fields then Diff([FieldRemoved([k], a.fields[k])], 0)
    else
      var x, y := a.fields[k], b.fields[k];
      if x.Obj? && y.Obj? then
        var d := ObjectDiff(x, y, h);
        Diff(PushAll(k, d.changes), d.unchangedCount)
      else if IsSecretKey(k) then
        if x != y then Diff([SecretChanged([k])], 0) else Diff([], 1)
      else if h(x) != h(y) then Diff([FieldChanged([k], x, y)], 0)
      else Diff([], 1)
  }

  // ----- the list is empty exactly when the objects are equal -----

  lemma {:induction false} EmptyExactlyWhenEqual(a: Json, b: Json, h: Json -> string)
    requires a.Obj? && b.Obj? && Injective(h)
    ensures ObjectDiff(a, b, h).changes == [] <==> a == b
    decreases a, 1, 0
  {
    KeysEmpty(a, b, Sorted(Keys(a, b)), h);
    if forall k :: k in Keys(a, b) ==> k in a.fields && k in b.fields && a.fields[k] == b.fields[k] {
      assert a.fields == b.fields;
    }
  }

  lemma {:induction false} KeysEmpty(a: Json, b: Json, keys: seq<string>, h: Json -> string)
    requires a.Obj? && b.Obj? && Injective(h) && forall k :: k in keys ==> k in Keys(a, b)
    ensures KeysDiff(a, b, keys, h).changes == [] <==>
            forall k :: k in keys ==> k in a.fields && k in b.fields && a.fields[k] == b.fields[k]
    decreases a, 0, |keys| + 1
  {
    if keys != [] {
      var front, k := keys[..|keys| - 1], keys[|keys| - 1];
      assert keys == front + [k];
      KeysEmpty(a, b, front, h);
      FieldEmpty(a, b, k, h);
    }
  }

  lemma {:induction false} FieldEmpty(a: Json, b: Json, k: string, h: Json -> string)
    requires a.Obj? && b.Obj? && Injective(h) && k in Keys(a, b)
    ensures FieldDiff(a, b, k, h).changes == [] <==> k in a.fields && k in b.fields && a.fields[k] == b.fields[k]
    decreases a, 0, 0
  {
    if k in a.fields && k in b.fields && a.fields[k].Obj? && b.fields[k].Obj? {
      EmptyExactlyWhenEqual(a.fields[k], b.fields[k], h);
    }
  }

  // ----- the other way round -----

  function Reverse<K>(c: Change<K>): Change<K> {
    match c
    case FieldChanged(k, before, after) => FieldChanged(k, after, before)
    case FieldAdded(k, value) => FieldRemoved(k, value)
    case FieldRemoved(k, value) => FieldAdded(k, value)
    case SecretChanged(k) => c
  }

  function ReverseAll<K>(cs: seq<Change<K>>): (r: seq<Change<K>>)
    ensures |r| == |cs| && forall i :: 0 <= i < |cs| ==> r[i] == Reverse(cs[i])
  {
    seq(|cs|, i requires 0 <= i < |cs| => Reverse(cs[i]))
  }

  // Diffing in the other direction gives the mirror image, change by change, with the
  // same number of unchanged fields.
  lemma {:induction false} MirrorImage(a: Json, b: Json, h: Json -> string)
    requires a.Obj? && b.Obj?
    ensures ObjectDiff(b, a, h) == Diff(ReverseAll(ObjectDiff(a, b, h).changes), ObjectDiff(a, b, h).unchangedCount)
    decreases a, 1, 0
  {
    assert Keys(a, b) == Keys(b, a);
    KeysMirror(a, b, Sorted(Keys(a, b)), h);
  }

  lemma {:induction false} KeysMirror(a: Json, b: Json, keys: seq<string>, h: Json -> string)
    requires a.Obj? && b.Obj? && forall k :: k in keys ==> k in Keys(a, b) && k in Keys(b, a)
    ensures KeysDiff(b, a, keys, h) == Diff(ReverseAll(KeysDiff(a, b, keys, h).changes), KeysDiff(a, b, keys, h).unchangedCount)
    decreases a, 0, |keys| + 1
  {
    if keys != [] {
      var front, k := keys[..|keys| - 1], keys[|keys| - 1];
      KeysMirror(a, b, front, h);
      FieldMirror(a, b, k, h);
      ReverseConcat(KeysDiff(a, b, front, h).changes, FieldDiff(a, b, k, h).changes);
    }
  }

  lemma ReverseConcat<K>(x: seq<Change<K>>, y: seq<Change<K>>)
    ensures ReverseAll(x + y) == ReverseAll(x) + ReverseAll(y)
  {}

  lemma {:induction false} FieldMirror(a: Json, b: Json, k: string, h: Json -> string)
    requires a.Obj? && b.Obj? && k in Keys(a, b)
    ensures FieldDiff(b, a, k, h) == Diff(ReverseAll(FieldDiff(a, b, k, h).changes), FieldDiff(a, b, k, h).unchangedCount)
    decreases a, 0, 0
  {
    if k in a.fields && k in b.fields && a.fields[k].Obj? && b.fields[k].Obj? {
      MirrorImage(a.fields[k], b.fields[k], h);
      var d := ObjectDiff(a.fields[k], b.fields[k], h);
      assert PushAll(k, ReverseAll(d.changes)) == ReverseAll(PushAll(k, d.changes));
    }
  }

  // ----- applying the changes -----

  // Set (or with None, remove) the field at a path of existing objects.
  function Edit(j: Json, path: seq<string>, value: Option<Json>): Json
    decreases |path|
  {
    if path == [] || !j.Obj? then j
    else
      var k := path[0];
      if |path| == 1 then Obj(match value case Some(v) => j.fields[k := v] case None => j.fields - {k})
      else if k in j.fields then Obj(j.fields[k := Edit(j.fields[k], path[1..], value)])
      else j
  }

  // A rotated secret carries no value, so it cannot be applied.
  function ApplyOne(j: Json, c: Change<seq<string>>): Json {
    match c
    case FieldChanged(path, _, after) => Edit(j, path, Some(after))
    case FieldAdded(path, value) => Edit(j, path, Some(value))
    case FieldRemoved(path, _) => Edit(j, path, None)
    case SecretChanged(_) => j
  }

  function Apply(j: Json, cs: seq<Change<seq<string>>>): Json
    decreases |cs|
  {
    if cs == [] then j else ApplyOne(Apply(j, cs[..|cs| - 1]), cs[|cs| - 1])
  }

  // b, except that where a secret was rotated the value of a is kept.
  function Rebuilt(a: Json, b: Json): Json
    requires a.Obj? && b.Obj?
    decreases a, 1
  {
    Obj(map k | k in b.fields :: RebuiltField(a, b, k))
  }

  function RebuiltField(a: Json, b: Json, k: string): Json
    requires a.Obj? && b.Obj? && k in b.fields
    decreases a, 0
  {
    if k !in a.fields then b.fields[k]
    else if a.fields[k].Obj? && b.fields[k].Obj? then Rebuilt(a.fields[k], b.fields[k])
    else if IsSecretKey(k) then a.fields[k]
    else b.fields[k]
  }

  // What the diff of field k makes of that field of j.
  function WithField(j: Json, a: Json, b: Json, k: string): Json
    requires j.Obj? && a.Obj? && b.Obj?
  {
    Obj(if k in b.fields then j.fields[k := RebuiltField(a, b, k)] else j.fields - {k})
  }

  ghost predicate Located(cs: seq<Change<seq<string>>>) {
    forall i :: 0 <= i < |cs| ==> cs[i].key != []
  }

  lemma {:induction false} ApplyConcat(j: Json, x: seq<Change<seq<string>>>, y: seq<Change<seq<string>>>)
    ensures Apply(j, x + y) == Apply(Apply(j, x), y)
    decreases |y|
  {
    if y == [] {
      assert x + y == x;
    } else {
      assert (x + y)[..|x + y| - 1] == x + y[..|y| - 1];
      ApplyConcat(j, x, y[..|y| - 1]);
    }
  }

  // Changes below k change only the value at k.
  lemma {:induction false} ApplyBelow(j: Json, k: string, cs: seq<Change<seq<string>>>)
    requires j.Obj? && k in j.fields && Located(cs)
    ensures Apply(j, PushAll(k, cs)) == Obj(j.fields[k := Apply(j.fields[k], cs)])
    decreases |cs|
  {
    if cs == [] {
      assert j.fields[k := j.fields[k]] == j.fields;
    } else {
      var n := |cs| - 1;
      assert PushAll(k, cs)[..n] == PushAll(k, cs[..n]);
      ApplyBelow(j, k, cs[..n]);
      var before := Obj(j.fields[k := Apply(j.fields[k], cs[..n])]);
      OneBelow(before, k, cs[n]);
      assert before.fields[k := Apply(j.fields[k], cs)] == j.fields[k := Apply(j.fields[k], cs)];
    }
  }

  lemma OneBelow(j: Json, k: string, c: Change<seq<string>>)
    requires j.Obj? && k in j.fields && c.key != []
    ensures ApplyOne(j, Push(k, c)) == Obj(j.fields[k := ApplyOne(j.fields[k], c)])
  {
    assert ([k] + c.key)[1..] == c.key;
    assert j.fields[k := j.fields[k]] == j.fields;
  }

  lemma {:induction false} DiffLocated(a: Json, b: Json, h: Json -> string)
    requires a.Obj? && b.Obj?
    ensures Located(ObjectDiff(a, b, h).changes)
    decreases a, 1, 0
  {
    KeysLocated(a, b, Sorted(Keys(a, b)), h);
  }

  lemma {:induction false} KeysLocated(a: Json, b: Json, keys: seq<string>, h: Json -> string)
    requires a.Obj? && b.Obj? && forall k :: k in keys ==> k in Keys(a, b)
    ensures Located(KeysDiff(a, b, keys, h).changes)
    decreases a, 0, |keys| + 1
  {
    if keys != [] {
      KeysLocated(a, b, keys[..|keys| - 1], h);
      var k := keys[|keys| - 1];
      if k in a.fields && k in b.fields && a.fields[k].Obj? && b.fields[k].Obj? {
        DiffLocated(a.fields[k], b.fields[k], h);
      }
    }
  }

  // j has the same field k as a, or like a has none.
  predicate SameField(j: Json, a: Json, k: string) {
    j.Obj? && a.Obj? && (k in j.fields <==> k in a.fields) && (k in a.fields ==> j.fields[k] == a.fields[k])
  }

  lemma {:induction false} ApplyField(j: Json, a: Json, b: Json, k: string, h: Json -> string)
    requires a.Obj? && b.Obj? && Injective(h) && k in Keys(a, b) && SameField(j, a, k)
    ensures Apply(j, FieldDiff(a, b, k, h).changes) == WithField(j, a, b, k)
    decreases a, 0, 0
  {
    if k in a.fields && k in b.fields && a.fields[k].Obj? && b.fields[k].Obj? {
      DiffLocated(a.fields[k], b.fields[k], h);
      ApplyBelow(j, k, ObjectDiff(a.fields[k], b.fields[k], h).changes);
      ApplyRebuilds(a.fields[k], b.fields[k], h);
    } else {
      ApplySingle(j, a, b, k, h);
    }
  }

  lemma ApplySingle(j: Json, a: Json, b: Json, k: string, h: Json -> string)
    requires a.Obj? && b.Obj? && Injective(h) && k in Keys(a, b) && SameField(j, a, k)
    requires !(k in a.fields && k in b.fields && a.fields[k].Obj? && b.fields[k].Obj?)
    ensures Apply(j, FieldDiff(a, b, k, h).changes) == WithField(j, a, b, k)
  {
    var cs := FieldDiff(a, b, k, h).changes;
    if |cs| == 1 {
      assert cs[..0] == [];
      assert Apply(j, cs) == ApplyOne(j, cs[0]);
    }
    if k in j.fields { assert j.fields[k := j.fields[k]] == j.fields; }
  }

  // After the diffs of some keys: those fields are b's, the others still a's.
  ghost predicate HalfRebuilt(r: Json, a: Json, b: Json, keys: seq<string>)
    requires a.Obj? && b.Obj?
  {
    && r.Obj?
    && (forall k :: k !in keys ==> SameField(r, a, k))
    && (forall k :: k in keys ==> (k in r.fields <==> k in b.fields) && (k in b.fields ==> r.fields[k] == RebuiltField(a, b, k)))
  }

  lemma OneMoreField(r: Json, a: Json, b: Json, front: seq<string>, k: string)
    requires a.Obj? && b.Obj? && HalfRebuilt(r, a, b, front) && k !in front
    ensures HalfRebuilt(WithField(r, a, b, k), a, b, front + [k])
  {}

  lemma {:induction false} ApplyKeys(a: Json, b: Json, keys: seq<string>, h: Json -> string)
    requires a.Obj? && b.Obj? && Injective(h) && forall k :: k in keys ==> k in Keys(a, b)
    requires forall i, j :: 0 <= i < j < |keys| ==> keys[i] != keys[j]
    ensures HalfRebuilt(Apply(a, KeysDiff(a, b, keys, h).changes), a, b, keys)
    decreases a, 0, |keys| + 1
  {
    if keys != [] {
      var n := |keys| - 1;
      var front, k := keys[..n], keys[n];
      assert keys == front + [k];
      ApplyKeys(a, b, front, h);
      var before := Apply(a, KeysDiff(a, b, front, h).changes);
      ApplyField(before, a, b, k, h);
      ApplyConcat(a, KeysDiff(a, b, front, h).changes, FieldDiff(a, b, k, h).changes);
      OneMoreField(before, a, b, front, k);
    }
  }

  // Applying a diff to its first object gives the second, but for rotated secrets.
  lemma {:induction false} ApplyRebuilds(a: Json, b: Json, h: Json -> string)
    requires a.Obj? && b.Obj? && Injective(h)
    ensures Apply(a, ObjectDiff(a, b, h).changes) == Rebuilt(a, b)
    decreases a, 1, 0
  {
    var keys := Sorted(Keys(a, b));
    SortedDistinct(Keys(a, b));
    ApplyKeys(a, b, keys, h);
    AllRebuilt(Apply(a, KeysDiff(a, b, keys, h).changes), a, b, keys);
  }

  lemma AllRebuilt(r: Json, a: Json, b: Json, keys: seq<string>)
    requires a.Obj? && b.Obj? && HalfRebuilt(r, a, b, keys) && forall k :: k in keys <==> k in Keys(a, b)
    ensures r == Rebuilt(a, b)
  {
    forall k ensures k in r.fields <==> k in b.fields {
      if k !in keys { assert SameField(r, a, k); }
    }
    assert r.fields == Rebuilt(a, b).fields;
  }

  // ----- when the rebuilt object is the second one -----

  ghost predicate NoSecret<K>(cs: seq<Change<K>>) {
    forall i :: 0 <= i < |cs| ==> !cs[i].SecretChanged?
  }

  // Applying the diff gives the second object exactly when no secret was rotated.
  lemma {:induction false} RebuiltExactly(a: Json, b: Json, h: Json -> string)
    requires a.Obj? && b.Obj? && Injective(h)
    ensures Rebuilt(a, b) == b <==> NoSecret(ObjectDiff(a, b, h).changes)
    decreases a, 1, 0
  {
    KeysRebuilt(a, b, Sorted(Keys(a, b)), h);
    if forall k :: k in b.fields ==> RebuiltField(a, b, k) == b.fields[k] {
      assert Rebuilt(a, b).fields == b.fields;
    } else {
      var k :| k in b.fields && RebuiltField(a, b, k) != b.fields[k];
      assert Rebuilt(a, b).fields[k] != b.fields[k];
    }
  }

  lemma {:induction false} KeysRebuilt(a: Json, b: Json, keys: seq<string>, h: Json -> string)
    requires a.Obj? && b.Obj? && Injective(h) && forall k :: k in keys ==> k in Keys(a, b)
    ensures NoSecret(KeysDiff(a, b, keys, h).changes) <==>
            forall k :: k in keys && k in b.fields ==> RebuiltField(a, b, k) == b.fields[k]
    decreases a, 0, |keys| + 1
  {
    if keys != [] {
      var front, k := keys[..|keys| - 1], keys[|keys| - 1];
      assert keys == front + [k];
      KeysRebuilt(a, b, front, h);
      FieldRebuilt(a, b, k, h);
      NoSecretConcat(KeysDiff(a, b, front, h).changes, FieldDiff(a, b, k, h).changes);
    }
  }

  lemma NoSecretConcat<K>(x: seq<Change<K>>, y: seq<Change<K>>)
    ensures NoSecret(x + y) <==> NoSecret(x) && NoSecret(y)
  {
    if NoSecret(x + y) {
      forall i | 0 <= i < |x| ensures !x[i].SecretChanged? { assert (x + y)[i] == x[i]; }
      forall i | 0 <= i < |y| ensures !y[i].SecretChanged? { assert (x + y)[|x| + i] == y[i]; }
    }
  }

  lemma {:induction false} FieldRebuilt(a: Json, b: Json, k: string, h: Json -> string)
    requires a.Obj? && b.Obj? && Injective(h) && k in Keys(a, b)
    ensures NoSecret(FieldDiff(a, b, k, h).changes) <==> (k in b.fields ==> RebuiltField(a, b, k) == b.fields[k])
    decreases a, 0, 0
  {
    if k in a.fields && k in b.fields && a.fields[k].Obj? && b.fields[k].Obj? {
      RebuiltExactly(a.fields[k], b.fields[k], h);
      var cs := ObjectDiff(a.fields[k], b.fields[k], h).changes;
      assert forall i :: 0 <= i < |cs| ==> PushAll(k, cs)[i].SecretChanged? == cs[i].SecretChanged?;
      assert NoSecret(PushAll(k, cs)) <==> NoSecret(cs);
    } else {
      var cs := FieldDiff(a, b, k, h).changes;
      assert |cs| == 1 ==> (NoSecret(cs) <==> !cs[0].SecretChanged?);
    }
  }
}
