// When a written object diff still says how to get from the first object to the second.
module DottedRebuild {
  import opened Wrappers
  import opened DottedText
  import opened Lexicographic
  import opened Json
  import opened DiffEngine
  import opened DottedDiff

  // ----- the value at a path -----

  function Get(j: Json, path: seq<string>): Option<Json>
    decreases |path|
  {
    if path == [] then Some(j)
    else if j.Obj? && path[0] in j.fields then Get(j.fields[path[0]], path[1..])
    else None
  }

  predicate IsObj(v: Option<Json>) {
    v.Some? && v.value.Obj?
  }

  // Equal, or objects both: nothing that a change at this very place would report.
  predicate Alike(v: Option<Json>, w: Option<Json>) {
    v == w || (IsObj(v) && IsObj(w))
  }

  lemma {:induction false} GetConcat(j: Json, x: seq<string>, y: seq<string>)
    ensures Get(j, x + y) == match Get(j, x) case Some(v) => Get(v, y) case None => None
    decreases |x|
  {
    if x == [] {
      assert x + y == y;
    } else {
      assert (x + y)[1..] == x[1..] + y;
      if j.Obj? && x[0] in j.fields { GetConcat(j.fields[x[0]], x[1..], y); }
    }
  }

  ghost predicate NoDeeper(j: Json, n: nat) {
    forall path :: Get(j, path).Some? ==> |path| <= n
  }

  lemma {:induction false} Depth(j: Json) returns (n: nat)
    ensures NoDeeper(j, n)
    decreases j, 1
  {
    n := 0;
    if j.Obj? {
      n := DepthBelow(j, j.fields.Keys);
      n := n + 1;
      forall path | Get(j, path).Some? ensures |path| <= n {
        if path != [] { assert Get(j.fields[path[0]], path[1..]).Some?; }
      }
    }
  }

  lemma {:induction false} DepthBelow(j: Json, keys: set<string>) returns (n: nat)
    requires j.Obj? && keys <= j.fields.Keys
    ensures forall k :: k in keys ==> NoDeeper(j.fields[k], n)
    decreases j, 0, |keys|
  {
    n := 0;
    if keys != {} {
      var k :| k in keys;
      var m := Depth(j.fields[k]);
      n := DepthBelow(j, keys - {k});
      n := if m < n then n else m;
    }
  }

  // ----- what edits do to the value at a path -----

  lemma {:induction false} EditBrings(j: Json, path: seq<string>, value: Option<Json>, x: seq<string>)
    requires path != [] && Get(Edit(j, path, value), x).Some? && !Alike(Get(j, x), Get(Edit(j, path, value), x))
    ensures path <= x && value.Some? && Get(value.value, x[|path|..]) == Get(Edit(j, path, value), x)
    decreases |path|
  {
    if |path| > 1 && x != [] && x[0] == path[0] {
      EditBrings(j.fields[path[0]], path[1..], value, x[1..]);
      assert x[1..][|path[1..]|..] == x[|path|..];
    }
  }

  lemma {:induction false} EditRemoves(j: Json, path: seq<string>, value: Option<Json>, x: seq<string>)
    requires path != [] && Get(j, x).Some? && Get(Edit(j, path, value), x) == None
    ensures path <= x && (value.Some? || Get(Edit(j, path, value), path) == None)
    decreases |path|
  {
    if |path| > 1 && x != [] && x[0] == path[0] {
      EditRemoves(j.fields[path[0]], path[1..], value, x[1..]);
    }
  }

  function NewValue<K>(c: Change<K>): Option<Json> {
    match c
    case FieldChanged(_, _, after) => Some(after)
    case FieldAdded(_, value) => Some(value)
    case FieldRemoved(_, _) => None
    case SecretChanged(_) => None
  }

  // The change writes, at x or above, a value that has something at x.
  ghost predicate Brings(c: Change<seq<string>>, x: seq<string>) {
    c.key <= x && NewValue(c).Some? && Get(NewValue(c).value, x[|c.key|..]).Some?
  }

  ghost predicate OneBrings(cs: seq<Change<seq<string>>>, x: seq<string>) {
    exists i :: 0 <= i < |cs| && Brings(cs[i], x)
  }

  lemma {:induction false} ApplyBrings(j: Json, cs: seq<Change<seq<string>>>, x: seq<string>)
    requires Located(cs) && Get(Apply(j, cs), x).Some? && !Alike(Get(j, x), Get(Apply(j, cs), x))
    ensures OneBrings(cs, x)
    decreases |cs|
  {
    var n := |cs| - 1;
    var before, c := Apply(j, cs[..n]), cs[n];
    assert Apply(j, cs) == ApplyOne(before, c);
    if !Alike(Get(before, x), Get(Apply(j, cs), x)) {
      EditBrings(before, c.key, NewValue(c), x);
      assert Brings(cs[n], x);
    } else {
      ApplyBrings(j, cs[..n], x);
      var i :| 0 <= i < n && Brings(cs[..n][i], x);
      assert Brings(cs[i], x);
    }
  }

  // The change writes a value at x or above, or removes a place there for good.
  ghost predicate Removes(c: Change<seq<string>>, x: seq<string>, after: Json) {
    c.key <= x && (NewValue(c).Some? || Get(after, c.key) == None)
  }

  ghost predicate OneRemoves(cs: seq<Change<seq<string>>>, x: seq<string>, after: Json) {
    exists i :: 0 <= i < |cs| && Removes(cs[i], x, after)
  }

  lemma {:induction false} ApplyRemoves(j: Json, cs: seq<Change<seq<string>>>, x: seq<string>)
    requires Located(cs) && Get(j, x).Some? && Get(Apply(j, cs), x) == None
    ensures OneRemoves(cs, x, Apply(j, cs))
    decreases |cs|
  {
    var n := |cs| - 1;
    var before, c, after := Apply(j, cs[..n]), cs[n], Apply(j, cs);
    assert after == ApplyOne(before, c);
    if Get(before, x).Some? {
      EditRemoves(before, c.key, NewValue(c), x);
      assert Removes(cs[n], x, after);
    } else {
      ApplyRemoves(j, cs[..n], x);
      var i :| 0 <= i < n && Removes(cs[..n][i], x, before);
      StillRemoved(before, cs[i], c, x);
      assert Removes(cs[i], x, after) || Removes(cs[n], x, after);
    }
  }

  lemma StillRemoved(before: Json, old': Change<seq<string>>, c: Change<seq<string>>, x: seq<string>)
    requires Removes(old', x, before) && c.key != []
    ensures Removes(old', x, ApplyOne(before, c)) || Removes(c, x, ApplyOne(before, c))
  {
    var after := ApplyOne(before, c);
    if NewValue(old') == None && Get(after, old'.key).Some? {
      EditBrings(before, c.key, NewValue(c), old'.key);
    }
  }

  // ----- what a listed change says about the two objects -----

  ghost predicate Marks(a: Json, b: Json, c: Change<seq<string>>) {
    && c.key != []
    && !Alike(Get(a, c.key), Get(b, c.key))
    && (NewValue(c).Some? ==> Get(b, c.key) == NewValue(c))
    && forall n :: 0 <= n < |c.key| ==> IsObj(Get(a, c.key[..n])) && IsObj(Get(b, c.key[..n]))
  }

  ghost predicate AllMark(a: Json, b: Json, cs: seq<Change<seq<string>>>) {
    forall i :: 0 <= i < |cs| ==> Marks(a, b, cs[i])
  }

  lemma MarksBelow(a: Json, b: Json, k: string, c: Change<seq<string>>)
    requires a.Obj? && b.Obj? && k in a.fields && k in b.fields && Marks(a.fields[k], b.fields[k], c)
    ensures Marks(a, b, Push(k, c))
  {
    var path := [k] + c.key;
    assert path[1..] == c.key && NewValue(Push(k, c)) == NewValue(c) && Push(k, c).key == path;
    forall n | 0 <= n < |path| ensures IsObj(Get(a, path[..n])) && IsObj(Get(b, path[..n])) {
      if n > 0 {
        assert path[..n][1..] == c.key[..n - 1];
      }
    }
  }

  lemma {:induction false} DiffMarks(a: Json, b: Json, h: Json -> string)
    requires a.Obj? && b.Obj?
    ensures AllMark(a, b, ObjectDiff(a, b, h).changes)
    decreases a, 1, 0
  {
    KeysMark(a, b, Sorted(Keys(a, b)), h);
  }

  lemma {:induction false} KeysMark(a: Json, b: Json, keys: seq<string>, h: Json -> string)
    requires a.Obj? && b.Obj? && forall k :: k in keys ==> k in Keys(a, b)
    ensures AllMark(a, b, KeysDiff(a, b, keys, h).changes)
    decreases a, 0, |keys| + 1
  {
    if keys != [] {
      KeysMark(a, b, keys[..|keys| - 1], h);
      FieldMarks(a, b, keys[|keys| - 1], h);
    }
  }

  lemma {:induction false} FieldMarks(a: Json, b: Json, k: string, h: Json -> string)
    requires a.Obj? && b.Obj? && k in Keys(a, b)
    ensures AllMark(a, b, FieldDiff(a, b, k, h).changes)
    decreases a, 0, 0
  {
    if k in a.fields && k in b.fields && a.fields[k].Obj? && b.fields[k].Obj? {
      DiffMarks(a.fields[k], b.fields[k], h);
      var cs := ObjectDiff(a.fields[k], b.fields[k], h).changes;
      forall i | 0 <= i < |cs| ensures Marks(a, b, PushAll(k, cs)[i]) { MarksBelow(a, b, k, cs[i]); }
    } else {
      FieldMarksOne(a, b, k, h);
    }
  }

  lemma FieldMarksOne(a: Json, b: Json, k: string, h: Json -> string)
    requires a.Obj? && b.Obj? && k in Keys(a, b)
    requires !(k in a.fields && k in b.fields && a.fields[k].Obj? && b.fields[k].Obj?)
    ensures AllMark(a, b, FieldDiff(a, b, k, h).changes)
  {
    var cs := FieldDiff(a, b, k, h).changes;
    forall i | 0 <= i < |cs| ensures Marks(a, b, cs[i]) {
      assert cs[i].key == [k] && [k][1..] == [] && [k][..0] == [];
    }
  }

  // ----- how a place reads back -----

  function ReadBack(path: seq<string>): seq<string> {
    Split('.', FullPath("", path))
  }

  lemma {:induction false} PartsPlain(s: string)
    ensures Plain(Split('.', s))
    decreases |s|
  {
    if s != "" { PartsPlain(s[1..]); }
  }

  // Only an empty key alone reads back with an empty first key, unless a key holds a dot.
  lemma {:induction false} EmptyFirst(path: seq<string>)
    requires path != [] && Plain(path) && ReadBack(path)[0] == ""
    ensures ReadBack(path) == [""]
    decreases |path|
  {
    if Readable(path) {
      PathReadsExactly(path);
    } else {
      assert Plain(path[1..]) by {
        forall i | 0 <= i < |path[1..]| ensures '.' !in path[1..][i] { assert path[1..][i] == path[i + 1]; }
      }
      assert FullPath("", path) == FullPath("", path[1..]);
      EmptyFirst(path[1..]);
    }
  }

  // ----- a rebuild that succeeds although some place is not readable -----

  // The changes tell a from b, and reading them back and applying them turns a into b.
  ghost predicate Works(a: Json, b: Json, cs: seq<Change<seq<string>>>) {
    a.Obj? && b.Obj? && AllMark(a, b, cs) && Apply(a, Read(Texts("", cs))) == b
  }

  lemma ReadAt(cs: seq<Change<seq<string>>>, i: nat)
    requires i < |cs|
    ensures var r := Read(Texts("", cs))[i]; r.key == ReadBack(cs[i].key) && NewValue(r) == NewValue(cs[i])
  {}

  lemma ReadLocated(cs: seq<Change<seq<string>>>)
    ensures Located(Read(Texts("", cs)))
  {
    forall i | 0 <= i < |cs| ensures Read(Texts("", cs))[i].key != [] { ReadAt(cs, i); }
  }

  // x extends a listed change, so a and b differ there, if b has anything there.
  lemma BelowChange(a: Json, b: Json, c: Change<seq<string>>, x: seq<string>)
    requires Marks(a, b, c) && c.key <= x && Get(b, x).Some?
    ensures !Alike(Get(a, x), Get(b, x))
  {
    var rest := x[|c.key|..];
    assert x == c.key + rest;
    GetConcat(a, c.key, rest);
    GetConcat(b, c.key, rest);
  }

  // What b has at or below a listed change was brought there by some change: b has it at
  // or below that one, too.
  lemma BroughtFrom(a: Json, b: Json, cs: seq<Change<seq<string>>>, i: nat, x: seq<string>) returns (j: nat)
    requires Works(a, b, cs) && i < |cs| && cs[i].key <= x && Get(b, x).Some?
    ensures j < |cs| && ReadBack(cs[j].key) <= x
    ensures Get(b, cs[j].key + x[|ReadBack(cs[j].key)|..]).Some?
  {
    var rs := Read(Texts("", cs));
    BelowChange(a, b, cs[i], x);
    ReadLocated(cs);
    ApplyBrings(a, rs, x);
    j :| 0 <= j < |rs| && Brings(rs[j], x);
    ReadAt(cs, j);
    GetConcat(b, cs[j].key, x[|ReadBack(cs[j].key)|..]);
  }

  // What b lacks at a listed change was removed there by some change.
  lemma RemovedBy(a: Json, b: Json, cs: seq<Change<seq<string>>>, i: nat) returns (j: nat)
    requires Works(a, b, cs) && i < |cs| && Get(b, cs[i].key) == None
    ensures j < |cs| && ReadBack(cs[j].key) <= cs[i].key
    ensures Get(b, cs[j].key).Some? || Get(b, ReadBack(cs[j].key)) == None
  {
    var rs := Read(Texts("", cs));
    assert Marks(a, b, cs[i]);
    ReadLocated(cs);
    ApplyRemoves(a, rs, cs[i].key);
    j :| 0 <= j < |rs| && Removes(rs[j], cs[i].key, b);
    ReadAt(cs, j);
    assert Marks(a, b, cs[j]);
  }

  // No listed place is strictly inside another.
  lemma NoneInside(a: Json, b: Json, cs: seq<Change<seq<string>>>, i: nat, j: nat)
    requires AllMark(a, b, cs) && i < |cs| && j < |cs| && cs[j].key <= cs[i].key
    ensures cs[j].key == cs[i].key
  {
    if |cs[j].key| < |cs[i].key| { AboveIsAlike(a, b, cs[i], cs[j].key); }
  }

  lemma AboveIsAlike(a: Json, b: Json, c: Change<seq<string>>, q: seq<string>)
    requires Marks(a, b, c) && q <= c.key && |q| < |c.key|
    ensures Alike(Get(a, q), Get(b, q)) && Get(b, q).Some?
  {
    assert c.key[..|q|] == q;
  }

  // A change that reads back strictly above a listed place is not readable itself.
  lemma AboveUnreadable(a: Json, b: Json, cs: seq<Change<seq<string>>>, i: nat, j: nat)
    requires AllMark(a, b, cs) && i < |cs| && j < |cs|
    requires ReadBack(cs[j].key) <= cs[i].key && ReadBack(cs[j].key) != cs[i].key
    ensures !Readable(cs[j].key)
  {
    if Readable(cs[j].key) {
      PathReadsExactly(cs[j].key);
      NoneInside(a, b, cs, i, j);
    }
  }

  // Nor is one that reads back to an empty first key, if a listed place without dots is not.
  lemma EmptyUnreadable(a: Json, b: Json, cs: seq<Change<seq<string>>>, i: nat, j: nat)
    requires AllMark(a, b, cs) && i < |cs| && j < |cs|
    requires Plain(cs[i].key) && !Readable(cs[i].key) && ReadBack(cs[j].key)[0] == ""
    ensures !Readable(cs[j].key)
    ensures Plain(cs[j].key) ==> ReadBack(cs[j].key) == [""] && |cs[j].key| > 1
  {
    assert Marks(a, b, cs[i]) && Marks(a, b, cs[j]);
    if Plain(cs[j].key) { EmptyFirst(cs[j].key); }
    if Readable(cs[j].key) {
      PathReadsExactly(cs[j].key);
      assert cs[j].key == [""] <= cs[i].key;
      NoneInside(a, b, cs, i, j);
    }
  }

  // The keys up to the first that holds a dot.
  function UpToDot(path: seq<string>): (n: nat)
    requires !Plain(path)
    ensures 0 < n <= |path| && '.' in path[n - 1]
  {
    if '.' in path[0] then 1 else
      assert !Plain(path[1..]) by {
        var i :| 0 <= i < |path| && '.' in path[i];
        assert path[1..][i - 1] == path[i];
      }
      1 + UpToDot(path[1..])
  }

  // A path that reads back has no dot, so it ends before a key with one.
  lemma EndsBeforeDot(path: seq<string>, front: seq<string>, rest: seq<string>)
    requires ReadBack(path) <= front + rest && front != [] && '.' in front[|front| - 1]
    ensures |ReadBack(path)| < |front|
  {
    var q := ReadBack(path);
    PartsPlain(FullPath("", path));
    if |q| >= |front| { SameAt(q, front, rest, |front| - 1); }
  }

  lemma SameAt(q: seq<string>, front: seq<string>, rest: seq<string>, k: nat)
    requires q <= front + rest && k < |q| && k < |front|
    ensures q[k] == front[k]
  {}

  // b has something at front + rest, at or below an unreadable place, where front ends with
  // a key that holds a dot.
  ghost predicate Stuck(a: Json, b: Json, cs: seq<Change<seq<string>>>, i: nat, front: seq<string>, rest: seq<string>) {
    && Works(a, b, cs) && i < |cs| && !Readable(cs[i].key)
    && front != [] && '.' in front[|front| - 1]
    && cs[i].key <= front + rest && (Plain(cs[i].key) || front <= cs[i].key)
    && Get(b, front + rest).Some?
  }

  // The same rest, or a longer one, below an unreadable place that a key with a dot ends.
  lemma StuckBelow(a: Json, b: Json, cs: seq<Change<seq<string>>>, j: nat, tail: seq<string>, rest: seq<string>)
    returns (front: seq<string>, rest': seq<string>)
    requires Works(a, b, cs) && j < |cs| && !Readable(cs[j].key)
    requires tail != [] && '.' in tail[|tail| - 1] && Get(b, cs[j].key + (tail + rest)).Some?
    ensures Stuck(a, b, cs, j, front, rest')
    ensures if Plain(cs[j].key) then front == cs[j].key + tail && rest' == rest else |rest'| > |rest|
  {
    var path := cs[j].key;
    if Plain(path) {
      front, rest' := path + tail, rest;
      assert front + rest' == path + (tail + rest);
    } else {
      var n := UpToDot(path);
      front, rest' := path[..n], path[n..] + tail + rest;
      Regroup(path, n, tail, rest);
    }
  }

  lemma Regroup(path: seq<string>, n: nat, tail: seq<string>, rest: seq<string>)
    requires n <= |path|
    ensures path[..n] + (path[n..] + tail + rest) == path + (tail + rest)
    ensures path[..n] <= path <= path + (tail + rest)
  {}

  // Where it was brought from, b has it again.
  lemma StuckFrom(a: Json, b: Json, cs: seq<Change<seq<string>>>, i: nat, front: seq<string>, rest: seq<string>)
    returns (j: nat, tail: seq<string>)
    requires Stuck(a, b, cs, i, front, rest)
    ensures j < |cs| && !Readable(cs[j].key) && Get(b, cs[j].key + (tail + rest)).Some?
    ensures tail != [] && '.' in tail[|tail| - 1]
    ensures Plain(cs[i].key) && Plain(cs[j].key) ==> |cs[j].key + tail| > |front|
  {
    var x := front + rest;
    j := BroughtFrom(a, b, cs, i, x);
    var q := ReadBack(cs[j].key);
    EndsBeforeDot(cs[j].key, front, rest);
    tail := front[|q|..];
    assert x[|q|..] == tail + rest;
    if Plain(cs[i].key) {
      assert Marks(a, b, cs[i]);
      assert q[0] == x[0] == cs[i].key[0];
      EmptyUnreadable(a, b, cs, i, j);
    } else {
      PartAbove(q, cs[i].key, front, rest);
      AboveUnreadable(a, b, cs, i, j);
    }
  }

  lemma PartAbove(q: seq<string>, path: seq<string>, front: seq<string>, rest: seq<string>)
    requires q <= front + rest && |q| < |front| && front <= path && path <= front + rest
    ensures q <= path && q != path
  {
    assert q == (front + rest)[..|q|] == path[..|q|];
  }

  lemma StuckAgain(a: Json, b: Json, cs: seq<Change<seq<string>>>, i: nat, front: seq<string>, rest: seq<string>)
    returns (j: nat, front': seq<string>, rest': seq<string>)
    requires Stuck(a, b, cs, i, front, rest)
    ensures Stuck(a, b, cs, j, front', rest')
    ensures |rest'| > |rest| || (rest' == rest && Plain(cs[j].key) && (Plain(cs[i].key) ==> |front'| > |front|))
  {
    var tail;
    j, tail := StuckFrom(a, b, cs, i, front, rest);
    front', rest' := StuckBelow(a, b, cs, j, tail, rest);
  }

  // As b is finite, that cannot be.
  lemma {:induction false} NeverStuck(a: Json, b: Json, cs: seq<Change<seq<string>>>, i: nat, front: seq<string>,
                                      rest: seq<string>, n: nat)
    requires Stuck(a, b, cs, i, front, rest) && NoDeeper(b, n)
    ensures false
    decreases n - |rest|, !Plain(cs[i].key), n - |front|
  {
    assert |front + rest| <= n;
    var j, front', rest' := StuckAgain(a, b, cs, i, front, rest);
    assert |front' + rest'| <= n;
    NeverStuck(a, b, cs, j, front', rest', n);
  }

  lemma StuckAtDot(a: Json, b: Json, cs: seq<Change<seq<string>>>, i: nat, k: nat, front: seq<string>, rest: seq<string>)
    requires Works(a, b, cs) && i < |cs| && !Plain(cs[i].key) && Get(b, cs[i].key).Some?
    requires 0 < k <= |cs[i].key| && '.' in cs[i].key[k - 1] && front == cs[i].key[..k] && rest == cs[i].key[k..]
    ensures Stuck(a, b, cs, i, front, rest)
  {
    assert front + rest == cs[i].key;
  }

  // b has nothing at a listed place with a dot ...
  lemma NothingAtDotted(a: Json, b: Json, cs: seq<Change<seq<string>>>, i: nat, n: nat)
    requires Works(a, b, cs) && i < |cs| && NoDeeper(b, n) && !Plain(cs[i].key)
    ensures Get(b, cs[i].key) == None
  {
    if Get(b, cs[i].key).Some? {
      var k := UpToDot(cs[i].key);
      var front, rest := cs[i].key[..k], cs[i].key[k..];
      StuckAtDot(a, b, cs, i, k, front, rest);
      NeverStuck(a, b, cs, i, front, rest, n);
    }
  }

  // ... nor at or below one inside an empty first key.
  lemma {:induction false} NothingInEmpty(a: Json, b: Json, cs: seq<Change<seq<string>>>, i: nat, x: seq<string>, n: nat)
    requires Works(a, b, cs) && i < |cs| && NoDeeper(b, n)
    requires Plain(cs[i].key) && !Readable(cs[i].key) && cs[i].key <= x
    ensures Get(b, x) == None
    decreases n - |x|
  {
    if Get(b, x).Some? {
      assert Marks(a, b, cs[i]);
      var j := BroughtFrom(a, b, cs, i, x);
      var q := ReadBack(cs[j].key);
      assert q[0] == x[0] == cs[i].key[0];
      EmptyUnreadable(a, b, cs, i, j);
      var x' := cs[j].key + x[|q|..];
      if Plain(cs[j].key) {
        NothingInEmpty(a, b, cs, j, x', n);
      } else {
        GetConcat(b, cs[j].key, x[|q|..]);
        NothingAtDotted(a, b, cs, j, n);
      }
    }
  }

  lemma NothingThere(a: Json, b: Json, cs: seq<Change<seq<string>>>, i: nat, n: nat)
    requires Works(a, b, cs) && i < |cs| && NoDeeper(b, n) && !Readable(cs[i].key)
    ensures Get(b, cs[i].key) == None
  {
    assert Marks(a, b, cs[i]);
    if Plain(cs[i].key) { NothingInEmpty(a, b, cs, i, cs[i].key, n); } else { NothingAtDotted(a, b, cs, i, n); }
  }

  // So something was removed at each unreadable place; but by what?
  lemma {:induction false} AllAreReadable(a: Json, b: Json, cs: seq<Change<seq<string>>>, i: nat, n: nat)
    requires Works(a, b, cs) && i < |cs| && NoDeeper(b, n)
    ensures Readable(cs[i].key)
    decreases Plain(cs[i].key)
  {
    if !Readable(cs[i].key) {
      NothingThere(a, b, cs, i, n);
      var j := RemovedBy(a, b, cs, i);
      var q := ReadBack(cs[j].key);
      assert Marks(a, b, cs[i]);
      PartsPlain(FullPath("", cs[j].key));
      if Plain(cs[i].key) {
        assert q[0] == cs[i].key[0];
        EmptyUnreadable(a, b, cs, i, j);
        if !Plain(cs[j].key) { AllAreReadable(a, b, cs, j, n); }
      } else {
        AboveUnreadable(a, b, cs, i, j);
      }
      AboveIsAlike(a, b, cs[i], q);
      NothingThere(a, b, cs, j, n);
    }
  }

  // Reading the written diff of two objects and applying it to the first gives the second
  // exactly when every changed place is readable and no secret was rotated.
  lemma RebuildsExactly(a: Json, b: Json, h: Json -> string)
    requires a.Obj? && b.Obj? && Injective(h)
    ensures var d := ObjectDiff(a, b, h).changes;
            Apply(a, Read(Texts("", d))) == b <==> AllReadable(d) && NoSecret(d)
  {
    var d := ObjectDiff(a, b, h).changes;
    DiffMarks(a, b, h);
    if Apply(a, Read(Texts("", d))) == b {
      var n := Depth(b);
      forall i | 0 <= i < |d| ensures Readable(d[i].key) { AllAreReadable(a, b, d, i, n); }
    }
    if AllReadable(d) {
      DiffReadsExactly(d);
      ApplyRebuilds(a, b, h);
      RebuiltExactly(a, b, h);
    }
  }
}
