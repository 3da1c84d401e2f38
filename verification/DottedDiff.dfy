// The object diff as it is computed and written: keys are dotted texts.
module DottedDiff {
  import opened Lexicographic
  import opened DottedText
  import opened Json
  import opened DiffEngine

  function Full(prefix: string, k: string): string {
    if prefix != "" then prefix + "." + k else k
  }

  function FullPath(prefix: string, path: seq<string>): string
    decreases |path|
  {
    if path == [] then prefix else FullPath(Full(prefix, path[0]), path[1..])
  }

  function Rekey<K, L>(c: Change<K>, f: K -> L): Change<L> {
    match c
    case FieldChanged(k, before, after) => FieldChanged(f(k), before, after)
    case FieldAdded(k, value) => FieldAdded(f(k), value)
    case FieldRemoved(k, value) => FieldRemoved(f(k), value)
    case SecretChanged(k) => SecretChanged(f(k))
  }

  function RekeyAll<K, L>(cs: seq<Change<K>>, f: K -> L): (r: seq<Change<L>>)
    ensures |r| == |cs| && forall i :: 0 <= i < |cs| ==> r[i] == Rekey(cs[i], f)
  {
    seq(|cs|, i requires 0 <= i < |cs| => Rekey(cs[i], f))
  }

  function Texts(prefix: string, cs: seq<Change<seq<string>>>): seq<Change<string>> {
    RekeyAll(cs, path => FullPath(prefix, path))
  }

  lemma TextsConcat(prefix: string, x: seq<Change<seq<string>>>, y: seq<Change<seq<string>>>)
    ensures Texts(prefix, x + y) == Texts(prefix, x) + Texts(prefix, y)
  {}

  lemma TextsBelow(prefix: string, k: string, cs: seq<Change<seq<string>>>)
    ensures Texts(prefix, PushAll(k, cs)) == Texts(Full(prefix, k), cs)
  {
    forall i | 0 <= i < |cs| ensures Texts(prefix, PushAll(k, cs))[i] == Texts(Full(prefix, k), cs)[i] {
      assert ([k] + cs[i].key)[1..] == cs[i].key;
    }
  }

  lemma TextsOfOne(prefix: string, c: Change<seq<string>>, k: string)
    requires c.key == [k]
    ensures Texts(prefix, [c]) == [Rekey(c, (path: seq<string>) => Full(prefix, k))]
  {
    assert FullPath(prefix, [k]) == Full(prefix, k);
  }

  // _object_diff: one pass over the sorted keys, descending into fields that are objects
  // on both sides.
  method ObjectDiffText(a: Json, b: Json, prefix: string, h: Json -> string)
    returns (changes: seq<Change<string>>, unchangedCount: nat)
    requires a.Obj? && b.Obj?
    ensures changes == Texts(prefix, ObjectDiff(a, b, h).changes)
    ensures unchangedCount == ObjectDiff(a, b, h).unchangedCount
    decreases a
  {
    changes, unchangedCount := [], 0;
    var keys := Sorted(a.fields.Keys + b.fields.Keys);
    for i := 0 to |keys|
      invariant changes == Texts(prefix, KeysDiff(a, b, keys[..i], h).changes)
      invariant unchangedCount == KeysDiff(a, b, keys[..i], h).unchangedCount
    {
      var k := keys[i];
      assert keys[..i + 1][..i] == keys[..i];
      var more, same := FieldDiffText(a, b, prefix, k, h);
      TextsConcat(prefix, KeysDiff(a, b, keys[..i], h).changes, FieldDiff(a, b, k, h).changes);
      changes := changes + more;
      unchangedCount := unchangedCount + same;
    }
    assert keys[..|keys|] == keys;
  }

  // The body of the loop: what one key adds.
  method FieldDiffText(a: Json, b: Json, prefix: string, k: string, h: Json -> string)
    returns (changes: seq<Change<string>>, unchangedCount: nat)
    requires a.Obj? && b.Obj? && k in Keys(a, b)
    ensures changes == Texts(prefix, FieldDiff(a, b, k, h).changes)
    ensures unchangedCount == FieldDiff(a, b, k, h).unchangedCount
    decreases a, 0
  {
    var fullKey := Full(prefix, k);
    changes, unchangedCount := [], 0;
    ghost var d := FieldDiff(a, b, k, h);
    if k !in a.fields {
      changes := [FieldAdded(fullKey, b.fields[k])];
      TextsOfOne(prefix, d.changes[0], k);
    } else if k !in b.fields {
      changes := [FieldRemoved(fullKey, a.fields[k])];
      TextsOfOne(prefix, d.changes[0], k);
    } else if a.fields[k].Obj? && b.fields[k].Obj? {
      changes, unchangedCount := ObjectDiffText(a.fields[k], b.fields[k], fullKey, h);
      TextsBelow(prefix, k, ObjectDiff(a.fields[k], b.fields[k], h).changes);
    } else if IsSecretKey(k) {
      if a.fields[k] != b.fields[k] {
        changes := [SecretChanged(fullKey)];
        TextsOfOne(prefix, d.changes[0], k);
      } else {
        unchangedCount := 1;
      }
    } else if h(a.fields[k]) != h(b.fields[k]) {
      changes := [FieldChanged(fullKey, a.fields[k], b.fields[k])];
      TextsOfOne(prefix, d.changes[0], k);
    } else {
      unchangedCount := 1;
    }
  }

  // ----- reading dotted keys back -----

  predicate Plain(path: seq<string>) {
    forall i :: 0 <= i < |path| ==> '.' !in path[i]
  }

  // No key holds a dot, and an empty first key stands alone.
  predicate Readable(path: seq<string>) {
    path != [] && Plain(path) && (path[0] != "" || |path| == 1)
  }

  function Read(cs: seq<Change<string>>): seq<Change<seq<string>>> {
    RekeyAll(cs, text => Split('.', text))
  }

  lemma {:induction false} BelowIsJoin(prefix: string, path: seq<string>)
    requires prefix != "" && path != []
    ensures FullPath(prefix, path) == prefix + "." + Join('.', path)
    decreases |path|
  {
    if |path| > 1 {
      BelowIsJoin(prefix + "." + path[0], path[1..]);
      assert prefix + "." + path[0] + "." + Join('.', path[1..]) == prefix + "." + (path[0] + "." + Join('.', path[1..]));
    } else {
      assert FullPath(Full(prefix, path[0]), path[1..]) == Full(prefix, path[0]);
    }
  }

  lemma ReadableReads(path: seq<string>)
    requires Readable(path)
    ensures Split('.', FullPath("", path)) == path
  {
    if |path| > 1 {
      BelowIsJoin(path[0], path[1..]);
    } else {
      assert FullPath("", path) == FullPath(path[0], path[1..]) == path[0];
    }
    assert FullPath("", path) == Join('.', path);
    SplitJoin('.', path);
  }

  // Empty keys at the front leave no trace in the text.
  lemma {:induction false} FewerParts(path: seq<string>)
    requires path != [] && Plain(path)
    ensures |Split('.', FullPath("", path))| <= |path|
    ensures path[0] == "" && |path| > 1 ==> |Split('.', FullPath("", path))| < |path|
    decreases |path|
  {
    if path[0] == "" && |path| > 1 {
      assert Plain(path[1..]) by {
        forall i | 0 <= i < |path[1..]| ensures '.' !in path[1..][i] { assert path[1..][i] == path[i + 1]; }
      }
      assert FullPath("", path) == FullPath("", path[1..]);
      FewerParts(path[1..]);
    } else {
      ReadableReads(path);
    }
  }

  // The text of a path splits into the path exactly if no key holds a dot and an empty
  // first key stands alone.
  lemma PathReadsExactly(path: seq<string>)
    ensures Split('.', FullPath("", path)) == path <==> Readable(path)
  {
    if Readable(path) {
      ReadableReads(path);
    } else if path != [] && Plain(path) {
      FewerParts(path);
    } else if path != [] {
      var i :| 0 <= i < |path| && '.' in path[i];
      assert path[i] in path;
    }
  }

  ghost predicate AllReadable(cs: seq<Change<seq<string>>>) {
    forall i :: 0 <= i < |cs| ==> Readable(cs[i].key)
  }

  // A written diff reads back exactly if every changed place is readable.
  lemma DiffReadsExactly(cs: seq<Change<seq<string>>>)
    ensures Read(Texts("", cs)) == cs <==> AllReadable(cs)
  {
    forall i | 0 <= i < |cs| ensures Read(Texts("", cs))[i] == cs[i] <==> Readable(cs[i].key) {
      PathReadsExactly(cs[i].key);
    }
  }

  // Reading the written diff of two objects and applying it to the first gives the second
  // exactly when no secret was rotated; a rotated secret keeps its old value and everything
  // else is the second object's.
  lemma DottedDiffRebuilds(a: Json, b: Json, h: Json -> string)
    requires a.Obj? && b.Obj? && AllReadable(ObjectDiff(a, b, h).changes) && Injective(h)
    ensures var cs := Texts("", ObjectDiff(a, b, h).changes);
            && Apply(a, Read(cs)) == Rebuilt(a, b)
            && (Apply(a, Read(cs)) == b <==> NoSecret(cs))
  {
    var d := ObjectDiff(a, b, h).changes;
    var cs := Texts("", d);
    DiffReadsExactly(d);
    forall i | 0 <= i < |d| ensures cs[i].SecretChanged? == d[i].SecretChanged? {}
    ApplyRebuilds(a, b, h);
    RebuiltExactly(a, b, h);
  }

  // ----- keys that are always readable -----

  // No key of the object, nor of the objects inside its fields, holds a dot.
  ghost predicate PlainKeys(j: Json) {
    j.Obj? ==> forall k :: k in j.fields ==> '.' !in k && PlainKeys(j.fields[k])
  }

  ghost predicate PlainPaths(cs: seq<Change<seq<string>>>) {
    forall i :: 0 <= i < |cs| ==> cs[i].key != [] && Plain(cs[i].key)
  }

  lemma {:induction false} DiffPlain(a: Json, b: Json, h: Json -> string)
    requires a.Obj? && b.Obj? && PlainKeys(a) && PlainKeys(b)
    ensures PlainPaths(ObjectDiff(a, b, h).changes)
    decreases a, 1, 0
  {
    KeysPlain(a, b, Sorted(Keys(a, b)), h);
  }

  lemma {:induction false} KeysPlain(a: Json, b: Json, keys: seq<string>, h: Json -> string)
    requires a.Obj? && b.Obj? && PlainKeys(a) && PlainKeys(b) && forall k :: k in keys ==> k in Keys(a, b)
    ensures PlainPaths(KeysDiff(a, b, keys, h).changes)
    decreases a, 0, |keys| + 1
  {
    if keys != [] {
      KeysPlain(a, b, keys[..|keys| - 1], h);
      FieldPlain(a, b, keys[|keys| - 1], h);
    }
  }

  lemma {:induction false} FieldPlain(a: Json, b: Json, k: string, h: Json -> string)
    requires a.Obj? && b.Obj? && PlainKeys(a) && PlainKeys(b) && k in Keys(a, b)
    ensures PlainPaths(FieldDiff(a, b, k, h).changes)
    decreases a, 0, 0
  {
    assert '.' !in k;
    if k in a.fields && k in b.fields && a.fields[k].Obj? && b.fields[k].Obj? {
      DiffPlain(a.fields[k], b.fields[k], h);
    }
  }

  // Dot-free keys, and no empty key that is an object on both sides.
  ghost predicate ReadableKeys(a: Json, b: Json)
    requires a.Obj? && b.Obj?
  {
    PlainKeys(a) && PlainKeys(b) &&
    !("" in a.fields && "" in b.fields && a.fields[""].Obj? && b.fields[""].Obj?)
  }

  lemma FieldReadable(a: Json, b: Json, k: string, h: Json -> string)
    requires a.Obj? && b.Obj? && ReadableKeys(a, b) && k in Keys(a, b)
    ensures AllReadable(FieldDiff(a, b, k, h).changes)
  {
    FieldPlain(a, b, k, h);
  }

  lemma AllReadableConcat(x: seq<Change<seq<string>>>, y: seq<Change<seq<string>>>)
    requires AllReadable(x) && AllReadable(y)
    ensures AllReadable(x + y)
  {}

  lemma {:induction false} KeysReadable(a: Json, b: Json, keys: seq<string>, h: Json -> string)
    requires a.Obj? && b.Obj? && ReadableKeys(a, b) && forall k :: k in keys ==> k in Keys(a, b)
    ensures AllReadable(KeysDiff(a, b, keys, h).changes)
    decreases |keys|
  {
    if keys != [] {
      var front, k := keys[..|keys| - 1], keys[|keys| - 1];
      KeysReadable(a, b, front, h);
      FieldReadable(a, b, k, h);
      AllReadableConcat(KeysDiff(a, b, front, h).changes, FieldDiff(a, b, k, h).changes);
    }
  }

  // Such objects always have a diff that reads back.
  lemma DiffReadable(a: Json, b: Json, h: Json -> string)
    requires a.Obj? && b.Obj? && ReadableKeys(a, b)
    ensures AllReadable(ObjectDiff(a, b, h).changes)
  {
    KeysReadable(a, b, Sorted(Keys(a, b)), h);
  }

  // ----- two different objects with one written diff -----

  lemma {:induction false} OnlyAdded(a: Json, c: Json, keys: seq<string>, t: string, h: Json -> string)
    requires a.Obj? && c.Obj? && t !in a.fields && t in c.fields && c.fields == a.fields[t := c.fields[t]]
    requires forall k :: k in a.fields ==> a.fields[k] == Obj(map[])
    requires forall k :: k in keys ==> k in Keys(a, c)
    requires forall i, j :: 0 <= i < j < |keys| ==> keys[i] != keys[j]
    ensures KeysDiff(a, c, keys, h).changes == if t in keys then [FieldAdded([t], c.fields[t])] else []
  {
    if keys != [] {
      var n := |keys| - 1;
      var front, k := keys[..n], keys[n];
      assert keys == front + [k];
      OnlyAdded(a, c, front, t, h);
      if k != t {
        assert k in keys && k in Keys(a, c);
        NothingInside(h);
        assert FieldDiff(a, c, k, h).changes == PushAll(k, []) == [];
      } else {
        assert k !in front;
        assert FieldDiff(a, c, k, h).changes == [FieldAdded([t], c.fields[t])];
      }
    }
  }

  lemma NothingInside(h: Json -> string)
    ensures ObjectDiff(Obj(map[]), Obj(map[]), h).changes == []
  {
    SortedMeaning({});
  }

  lemma AddedBeside(a: Json, c: Json, t: string, h: Json -> string)
    requires a.Obj? && c.Obj? && t !in a.fields && t in c.fields && c.fields == a.fields[t := c.fields[t]]
    requires forall k :: k in a.fields ==> a.fields[k] == Obj(map[])
    ensures ObjectDiff(a, c, h).changes == [FieldAdded([t], c.fields[t])]
  {
    SortedDistinct(Keys(a, c));
    SortedMeaning(Keys(a, c));
    OnlyAdded(a, c, Sorted(Keys(a, c)), t, h);
  }

  // Whatever the keys p and q and the value v: adding v under q inside the object at p, and
  // adding it beside p under the text of that place, are written as the same change.
  lemma DottedDiffAmbiguous(p: string, q: string, v: Json, h: Json -> string)
    requires Full(p, q) != p
    ensures var a, b := Obj(map[p := Obj(map[])]), Obj(map[p := Obj(map[q := v])]);
            var c := Obj(map[p := Obj(map[]), Full(p, q) := v]);
            b != c && Texts("", ObjectDiff(a, b, h).changes) == Texts("", ObjectDiff(a, c, h).changes)
                   == [FieldAdded(Full(p, q), v)]
  {
    var t, inner := Full(p, q), Obj(map[q := v]);
    var a, b := Obj(map[p := Obj(map[])]), Obj(map[p := inner]);
    var c := Obj(map[p := Obj(map[]), t := v]);
    assert t in c.fields && t !in b.fields;
    AddedInside(p, q, v, h);
    AddedBeside(a, c, t, h);
    TextsOfOne("", FieldAdded([t], v), t);
    TextOfTwo(p, q, v);
  }

  lemma TextOfTwo(p: string, q: string, v: Json)
    ensures Texts("", [FieldAdded([p, q], v)]) == [FieldAdded(Full(p, q), v)]
  {
    assert [p, q][1..] == [q];
    assert FullPath("", [p, q]) == FullPath(p, [q]) == FullPath(Full(p, q), []);
  }

  lemma OneKey(a: Json, b: Json, k: string, h: Json -> string)
    requires a.Obj? && b.Obj? && Keys(a, b) == {k}
    ensures ObjectDiff(a, b, h).changes == FieldDiff(a, b, k, h).changes
  {
    SortedOne(k);
    assert [k][..0] == [];
    assert KeysDiff(a, b, [k], h) == Plus(KeysDiff(a, b, [], h), FieldDiff(a, b, k, h));
  }

  lemma AddedInside(p: string, q: string, v: Json, h: Json -> string)
    ensures ObjectDiff(Obj(map[p := Obj(map[])]), Obj(map[p := Obj(map[q := v])]), h).changes == [FieldAdded([p, q], v)]
  {
    var none, inner := Obj(map[]), Obj(map[q := v]);
    var a, b := Obj(map[p := none]), Obj(map[p := inner]);
    OneKey(none, inner, q, h);
    OneKey(a, b, p, h);
    assert FieldDiff(a, b, p, h).changes == PushAll(p, [FieldAdded([q], v)]);
    assert [p] + [q] == [p, q];
  }
}
