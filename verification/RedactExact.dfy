// When redaction tells two payloads apart exactly by what is left after the deletions.
module RedactExact {
  import opened Wrappers
  import opened Json
  import opened Sequences
  import opened Redactor

  // The deletion removes a field that holds all the values at the mask, or these themselves.
  predicate Covers(delete: Path, mask: Path) {
    delete != [] && delete <= mask && delete[|delete| - 1].Key?
  }

  predicate Covered(mask: Path, deletes: seq<Path>) {
    exists d :: d in deletes && Covers(d, mask)
  }

  // Whatever a deletion removes inside a masked value, another removes with that value.
  ghost predicate Safe(masks: seq<Path>, deletes: seq<Path>) {
    forall m, d :: m in masks && d in deletes && m != [] && Inside(m, d) ==> Covered(m, deletes)
  }

  // The redacted texts are equal exactly if the payloads are, once the fields are deleted.
  predicate Faithful(a: Json, b: Json, masks: seq<Path>, deletes: seq<Path>, h: Hash, canon: Json -> string) {
    Redact(a, masks, deletes, h, canon) == Redact(b, masks, deletes, h, canon)
    <==> DeleteAll(a, deletes) == DeleteAll(b, deletes)
  }

  ghost predicate KeepsLaw(masks: seq<Path>, deletes: seq<Path>, h: Hash, canon: Json -> string) {
    forall a, b :: Faithful(a, b, masks, deletes, h, canon)
  }

  // ----- safe lists keep the law -----

  // Masking what a deletion removes makes no difference.
  lemma {:induction false} MaskThenCover(j: Json, m: Path, d: Path, h: Hash)
    requires Covers(d, m)
    ensures Delete(Mask(j, m, h), d) == Delete(j, d)
    decreases |m|
  {
    if d[0].Key? && j.Obj? {
      var k := d[0].name;
      MaskInObject(j, m, h);
      DeleteFromObject(j, d);
      DeleteFromObject(Mask(j, m, h), d);
      if k in j.fields && |d| > 1 { CoverBelow(j.fields[k], m, d, h); }
      assert DeleteField(MaskField(j.fields, m, h), d) == DeleteField(j.fields, d);
    } else if d[0].Items? && j.Arr? {
      ItemsMaskThenCover(j, m, d, h);
    }
  }

  lemma {:induction false} CoverBelow(v: Json, m: Path, d: Path, h: Hash)
    requires Covers(d, m) && |d| > 1
    ensures Delete(Inner(v, m[1..], h), d[1..]) == Delete(v, d[1..])
    decreases |m|, 0
  {
    assert d[1..] <= m[1..] && d[1..][|d[1..]| - 1] == d[|d| - 1];
    MaskThenCover(v, m[1..], d[1..], h);
  }

  lemma {:induction false} ItemsMaskThenCover(j: Json, m: Path, d: Path, h: Hash)
    requires Covers(d, m) && d[0].Items? && j.Arr?
    ensures Delete(Mask(j, m, h), d) == Delete(j, d)
    decreases |m|, 1
  {
    MaskItem(j, m, h);
    DeleteFromItems(j, d);
    var x, y := Mask(j, m, h), Delete(j, d);
    DeleteFromItems(x, d);
    forall i | 0 <= i < |j.items| ensures Delete(x, d).items[i] == y.items[i] {
      CoverBelow(j.items[i], m, d, h);
    }
    assert Delete(x, d).items == y.items;
  }

  // A deletion of the list can be done once more before it.
  lemma {:induction false} DeleteFirst(j: Json, d: Path, deletes: seq<Path>)
    requires d in deletes
    ensures DeleteAll(Delete(j, d), deletes) == DeleteAll(j, deletes)
    decreases |deletes|
  {
    if deletes[0] == d {
      DeleteIdempotent(j, d);
    } else {
      DeleteCommutes(j, d, deletes[0]);
      DeleteFirst(Delete(j, deletes[0]), d, deletes[1..]);
    }
  }

  lemma CoveredMask(j: Json, m: Path, deletes: seq<Path>, h: Hash)
    requires Covered(m, deletes)
    ensures DeleteAll(Mask(j, m, h), deletes) == DeleteAll(j, deletes)
  {
    var d :| d in deletes && Covers(d, m);
    DeleteFirst(Mask(j, m, h), d, deletes);
    MaskThenCover(j, m, d, h);
    DeleteFirst(j, d, deletes);
  }

  // The masks that matter.
  function Kept(masks: seq<Path>, deletes: seq<Path>): seq<Path> {
    if masks == [] then []
    else (if masks[0] == [] || Covered(masks[0], deletes) then [] else [masks[0]]) + Kept(masks[1..], deletes)
  }

  lemma SafeTail(masks: seq<Path>, deletes: seq<Path>)
    requires masks != [] && Safe(masks, deletes)
    ensures Safe(masks[1..], deletes)
    ensures masks[0] != [] && !Covered(masks[0], deletes) ==> forall d :: d in deletes ==> !Inside(masks[0], d)
  {
    assert masks[0] in masks && forall m :: m in masks[1..] ==> m in masks;
  }

  lemma KeptMask(j: Json, m: Path, deletes: seq<Path>, h: Hash)
    requires m != [] && forall d :: d in deletes ==> !Inside(m, d)
    ensures DeleteAll(Mask(j, m, h), deletes) == Mask(DeleteAll(j, deletes), m, h)
  {
    MaskAllDeleteAll(j, [m], deletes, h);
    assert [m][1..] == [];
    assert MaskAll(j, [m], h) == Mask(j, m, h) && MaskAll(DeleteAll(j, deletes), [m], h) == Mask(DeleteAll(j, deletes), m, h);
  }

  lemma {:induction false} DeletedFirst(j: Json, masks: seq<Path>, deletes: seq<Path>, h: Hash)
    requires Safe(masks, deletes)
    ensures DeleteAll(MaskAll(j, masks, h), deletes) == MaskAll(DeleteAll(j, deletes), Kept(masks, deletes), h)
    decreases |masks|
  {
    if masks != [] {
      var m, rest := masks[0], masks[1..];
      SafeTail(masks, deletes);
      DeletedFirst(Mask(j, m, h), rest, deletes, h);
      if m != [] && Covered(m, deletes) {
        CoveredMask(j, m, deletes, h);
        assert Kept(masks, deletes) == Kept(rest, deletes);
      } else if m != [] {
        KeptMask(j, m, deletes, h);
        assert Kept(masks, deletes)[1..] == Kept(rest, deletes);
      } else {
        assert Kept(masks, deletes) == Kept(rest, deletes);
      }
    }
  }

  lemma SafeKeepsLaw(masks: seq<Path>, deletes: seq<Path>, h: Hash, canon: Json -> string)
    requires Injective(h) && Injective(canon) && Safe(masks, deletes)
    ensures KeepsLaw(masks, deletes, h, canon)
  {
    forall a, b ensures Faithful(a, b, masks, deletes, h, canon) {
      DeletedFirst(a, masks, deletes, h);
      DeletedFirst(b, masks, deletes, h);
      var x, y := DeleteAll(a, deletes), DeleteAll(b, deletes);
      if MaskAll(x, Kept(masks, deletes), h) == MaskAll(y, Kept(masks, deletes), h) {
        MaskAllInjective(x, y, Kept(masks, deletes), h);
      }
    }
  }

  // ----- other lists break it: payloads with one masked value in them -----

  lemma {:induction false} MaskBelowNest(m: Path, v: Json, s: Path, h: Hash)
    requires m != []
    ensures Mask(Nest(m, v), m + s, h) == Nest(m, Inner(v, s, h))
    decreases |m|
  {
    var all := m + s;
    assert all[1..] == m[1..] + s;
    if |m| == 1 {
      assert m[1..] == [] && all[1..] == s;
    } else {
      MaskBelowNest(m[1..], v, s, h);
    }
    match m[0]
    case Key(k) => assert Mask(Nest(m, v), all, h).fields == map[k := Nest(m[1..], Inner(v, s, h))];
    case Items => assert Mask(Nest(m, v), all, h).items == [Nest(m[1..], Inner(v, s, h))];
  }

  lemma {:induction false} MaskApartFromNest(m: Path, v: Json, q: Path, h: Hash)
    requires q == [] || Incomparable(q, m)
    ensures Mask(Nest(m, v), q, h) == Nest(m, v)
    decreases |m|
  {
    if q != [] && m[0] == q[0] {
      IncomparableRest(q, m);
      MaskApartFromNest(m[1..], v, q[1..], h);
    }
  }

  // What the masks at or below m make of the value at m.
  function MaskBelow(v: Json, masks: seq<Path>, m: Path, h: Hash): Json
    decreases |masks|
  {
    if masks == [] then v else MaskBelow(MaskOne(v, masks[0], m, h), masks[1..], m, h)
  }

  function MaskOne(v: Json, q: Path, m: Path, h: Hash): Json {
    if m <= q then Inner(v, q[|m|..], h) else v
  }

  ghost predicate NoneAbove(masks: seq<Path>, m: Path) {
    forall q :: q in masks ==> q == [] || m <= q || Incomparable(q, m)
  }

  lemma {:induction false} MaskAllNest(m: Path, v: Json, masks: seq<Path>, h: Hash)
    requires m != [] && NoneAbove(masks, m)
    ensures MaskAll(Nest(m, v), masks, h) == Nest(m, MaskBelow(v, masks, m, h))
    decreases |masks|
  {
    if masks != [] {
      var q := masks[0];
      assert q in masks && forall p :: p in masks[1..] ==> p in masks;
      if m <= q {
        assert q == m + q[|m|..];
        MaskBelowNest(m, v, q[|m|..], h);
      } else {
        MaskApartFromNest(m, v, q, h);
      }
      MaskAllNest(m, MaskOne(v, q, m, h), masks[1..], h);
    }
  }

  lemma {:induction false} MaskBelowInjective(x: Json, y: Json, masks: seq<Path>, m: Path, h: Hash)
    requires Injective(h) && MaskBelow(x, masks, m, h) == MaskBelow(y, masks, m, h)
    ensures x == y
    decreases |masks|
  {
    if masks != [] {
      MaskBelowInjective(MaskOne(x, masks[0], m, h), MaskOne(y, masks[0], m, h), masks[1..], m, h);
      if m == masks[0] {
        SentinelInjective(x, y, h);
      } else if m <= masks[0] {
        MaskInjective(x, y, masks[0][|m|..], h);
      }
    }
  }

  lemma {:induction false} DeleteApartFromNest(m: Path, v: Json, d: Path)
    requires Incomparable(d, m)
    ensures Delete(Nest(m, v), d) == Nest(m, v)
    decreases |m|
  {
    if m[0] == d[0] {
      IncomparableRest(d, m);
      DeleteApartFromNest(m[1..], v, d[1..]);
    }
  }

  // What the deletions below m make of the value at m.
  function DeleteBelow(v: Json, deletes: seq<Path>, m: Path): Json
    decreases |deletes|
  {
    if deletes == [] then v else DeleteBelow(DeleteOne(v, deletes[0], m), deletes[1..], m)
  }

  function DeleteOne(v: Json, d: Path, m: Path): Json {
    if m < d then Delete(v, d[|m|..]) else v
  }

  lemma DeleteOneNest(m: Path, v: Json, d: Path)
    requires !Covers(d, m)
    ensures Delete(Nest(m, v), d) == Nest(m, DeleteOne(v, d, m))
  {
    if m < d {
      assert d == m + d[|m|..];
      DeleteNest(m, v, d[|m|..]);
    } else if d <= m {
      DeleteItemsIsNothing(Nest(m, v), d);
    } else {
      DeleteApartFromNest(m, v, d);
    }
  }

  lemma {:induction false} DeleteAllNest(m: Path, v: Json, deletes: seq<Path>)
    requires !Covered(m, deletes)
    ensures DeleteAll(Nest(m, v), deletes) == Nest(m, DeleteBelow(v, deletes, m))
    decreases |deletes|
  {
    if deletes != [] {
      assert deletes[0] in deletes && forall d :: d in deletes[1..] ==> d in deletes;
      DeleteOneNest(m, v, deletes[0]);
      DeleteAllNest(m, DeleteOne(v, deletes[0], m), deletes[1..]);
    }
  }

  // ----- all that is left of a masked value is one hash, or nothing -----

  // A value around the place of a hash; in a closed one that place is gone.
  datatype Frame = Hole | Around(others: map<string, Json>, inner: Frame) | Closed(j: Json)

  function Plug(f: Frame, t: string): Json {
    match f
    case Hole => Str(t)
    case Around(others, inner) => Obj(others["_hash" := Plug(inner, t)])
    case Closed(j) => j
  }

  predicate Open(f: Frame) {
    match f case Hole => true case Around(_, inner) => Open(inner) case Closed(_) => false
  }

  lemma {:induction false} PlugExactly(f: Frame, t: string, u: string)
    ensures Plug(f, t) == Plug(f, u) <==> t == u || !Open(f)
  {
    if f.Around? {
      PlugExactly(f.inner, t, u);
      assert Plug(f, t).fields["_hash"] == Plug(f.inner, t) && Plug(f, u).fields["_hash"] == Plug(f.inner, u);
    }
  }

  ghost predicate Sealed(v: Json, f: Frame) {
    exists t :: v == Plug(f, t)
  }

  function FrameOfSentinel(): Frame {
    Around(map["_redacted" := Bool(true)], Hole)
  }

  lemma SentinelSealed(v: Json, h: Hash)
    ensures Sealed(Sentinel(v, h), FrameOfSentinel())
  {
    assert Sentinel(v, h) == Plug(FrameOfSentinel(), h(v));
  }

  // Masking at or below a sealed value leaves a sealed one.
  function MaskFrame(f: Frame, s: Path, h: Hash): Frame
    decreases |s|
  {
    if s == [] then FrameOfSentinel()
    else
      match f
      case Hole => f
      case Closed(j) => Closed(Mask(j, s, h))
      case Around(others, inner) =>
        if s[0] == Key("_hash") then Around(others, MaskFrame(inner, s[1..], h))
        else if s[0].Key? && s[0].name in others then Around(others[s[0].name := Inner(others[s[0].name], s[1..], h)], inner)
        else f
  }

  lemma {:induction false} MaskSealed(f: Frame, t: string, s: Path, h: Hash)
    ensures Sealed(Inner(Plug(f, t), s, h), MaskFrame(f, s, h))
    decreases |s|
  {
    var v := Plug(f, t);
    if s == [] {
      SentinelSealed(v, h);
    } else if f.Around? && s[0] == Key("_hash") {
      MaskSealed(f.inner, t, s[1..], h);
      var u :| Inner(Plug(f.inner, t), s[1..], h) == Plug(MaskFrame(f.inner, s[1..], h), u);
      assert Mask(v, s, h).fields == f.others["_hash" := Plug(MaskFrame(f.inner, s[1..], h), u)];
      assert Mask(v, s, h) == Plug(MaskFrame(f, s, h), u);
    } else {
      assert Mask(v, s, h) == Plug(MaskFrame(f, s, h), t) by {
        if f.Around? && s[0].Key? && s[0].name in f.others { MaskInObject(v, s, h); }
      }
    }
  }

  // Deletion inside a sealed value keeps the hash or removes it, whatever it is.
  function DeleteFrame(f: Frame, s: Path): Frame
    requires s != []
    decreases |s|
  {
    match f
    case Hole => f
    case Closed(j) => Closed(Delete(j, s))
    case Around(others, inner) =>
      if s[0] == Key("_hash") then
        if |s| == 1 then Closed(Obj(others - {"_hash"})) else Around(others, DeleteFrame(inner, s[1..]))
      else if s[0].Key? then Around(DeleteField(others, s), inner)
      else f
  }

  lemma {:induction false} DeleteSealed(f: Frame, t: string, s: Path)
    requires s != []
    ensures Delete(Plug(f, t), s) == Plug(DeleteFrame(f, s), t)
    decreases |s|
  {
    if f.Around? && s[0].Key? {
      DeleteFromObject(Plug(f, t), s);
      if s[0].name == "_hash" && |s| > 1 { DeleteSealed(f.inner, t, s[1..]); }
    }
  }

  function MaskFrames(f: Frame, masks: seq<Path>, m: Path, h: Hash): Frame
    decreases |masks|
  {
    if masks == [] then f
    else MaskFrames(if m <= masks[0] then MaskFrame(f, masks[0][|m|..], h) else f, masks[1..], m, h)
  }

  lemma {:induction false} MasksSeal(v: Json, f: Frame, masks: seq<Path>, m: Path, h: Hash)
    requires Sealed(v, f)
    ensures Sealed(MaskBelow(v, masks, m, h), MaskFrames(f, masks, m, h))
    decreases |masks|
  {
    if masks != [] {
      var t :| v == Plug(f, t);
      if m <= masks[0] {
        MaskSealed(f, t, masks[0][|m|..], h);
        MasksSeal(MaskOne(v, masks[0], m, h), MaskFrame(f, masks[0][|m|..], h), masks[1..], m, h);
      } else {
        MasksSeal(v, f, masks[1..], m, h);
      }
    }
  }

  // The frame that the masks put around every value at m.
  function FrameAt(masks: seq<Path>, m: Path, h: Hash): Frame
    requires m in masks
  {
    if masks[0] == m then MaskFrames(FrameOfSentinel(), masks[1..], m, h) else FrameAt(masks[1..], m, h)
  }

  lemma {:induction false} FrameSeals(v: Json, masks: seq<Path>, m: Path, h: Hash)
    requires m in masks
    ensures Sealed(MaskBelow(v, masks, m, h), FrameAt(masks, m, h))
    decreases |masks|
  {
    var w := MaskOne(v, masks[0], m, h);
    if masks[0] == m {
      assert w == Sentinel(v, h);
      SentinelSealed(v, h);
      MasksSeal(w, FrameOfSentinel(), masks[1..], m, h);
    } else {
      FrameSeals(w, masks[1..], m, h);
    }
  }

  function DeleteFrames(f: Frame, deletes: seq<Path>, m: Path): Frame
    decreases |deletes|
  {
    if deletes == [] then f
    else DeleteFrames(if m < deletes[0] then DeleteFrame(f, deletes[0][|m|..]) else f, deletes[1..], m)
  }

  lemma {:induction false} DeletesSealed(f: Frame, t: string, deletes: seq<Path>, m: Path)
    ensures DeleteBelow(Plug(f, t), deletes, m) == Plug(DeleteFrames(f, deletes, m), t)
    decreases |deletes|
  {
    if deletes != [] {
      if m < deletes[0] {
        DeleteSealed(f, t, deletes[0][|m|..]);
        DeletesSealed(DeleteFrame(f, deletes[0][|m|..]), t, deletes[1..], m);
      } else {
        DeletesSealed(f, t, deletes[1..], m);
      }
    }
  }

  // Different values at m end up different exactly if the frame is still open.
  lemma LeftOfMasked(x: Json, y: Json, masks: seq<Path>, deletes: seq<Path>, m: Path, h: Hash)
    requires Injective(h) && m in masks && x != y
    ensures DeleteBelow(MaskBelow(x, masks, m, h), deletes, m) != DeleteBelow(MaskBelow(y, masks, m, h), deletes, m)
            <==> Open(DeleteFrames(FrameAt(masks, m, h), deletes, m))
  {
    var f := FrameAt(masks, m, h);
    FrameSeals(x, masks, m, h);
    FrameSeals(y, masks, m, h);
    if MaskBelow(x, masks, m, h) == MaskBelow(y, masks, m, h) { MaskBelowInjective(x, y, masks, m, h); }
    var t :| MaskBelow(x, masks, m, h) == Plug(f, t);
    var u :| MaskBelow(y, masks, m, h) == Plug(f, u);
    DeletesSealed(f, t, deletes, m);
    DeletesSealed(f, u, deletes, m);
    PlugExactly(DeleteFrames(f, deletes, m), t, u);
  }

  // ----- the breaking payloads -----

  // The shortest mask above or at this one.
  lemma {:induction false} TopMask(masks: seq<Path>, m: Path) returns (top: Path)
    requires m in masks && m != []
    ensures top in masks && top != [] && top <= m && NoneAbove(masks, top)
    decreases |m|
  {
    if NoneAbove(masks, m) {
      top := m;
    } else {
      var q :| q in masks && q != [] && !(m <= q) && !Incomparable(q, m);
      top := TopMask(masks, q);
    }
  }

  lemma {:induction false} ScalarStays(v: Json, deletes: seq<Path>, m: Path)
    requires !v.Obj? && !v.Arr?
    ensures DeleteBelow(v, deletes, m) == v
    decreases |deletes|
  {
    if deletes != [] {
      assert DeleteOne(v, deletes[0], m) == v;
      ScalarStays(v, deletes[1..], m);
    }
  }

  lemma NestDiffers(m: Path, x: Json, y: Json)
    requires x != y
    ensures Nest(m, x) != Nest(m, y)
  {
    if Nest(m, x) == Nest(m, y) { NestInjective(m, x, y); }
  }

  // Two payloads with x and y at m redact differently exactly if the frame is still open.
  lemma RedactNest(x: Json, y: Json, masks: seq<Path>, deletes: seq<Path>, m: Path, h: Hash, canon: Json -> string)
    requires Injective(h) && Injective(canon) && x != y
    requires m in masks && m != [] && NoneAbove(masks, m) && !Covered(m, deletes)
    ensures Redact(Nest(m, x), masks, deletes, h, canon) != Redact(Nest(m, y), masks, deletes, h, canon)
            <==> Open(DeleteFrames(FrameAt(masks, m, h), deletes, m))
  {
    MaskAllNest(m, x, masks, h);
    MaskAllNest(m, y, masks, h);
    var v, w := MaskBelow(x, masks, m, h), MaskBelow(y, masks, m, h);
    DeleteAllNest(m, v, deletes);
    DeleteAllNest(m, w, deletes);
    LeftOfMasked(x, y, masks, deletes, m, h);
    if DeleteBelow(v, deletes, m) != DeleteBelow(w, deletes, m) {
      NestDiffers(m, DeleteBelow(v, deletes, m), DeleteBelow(w, deletes, m));
    }
  }

  // Payloads that differ only where something is deleted.
  lemma DeletedLeaf(d: Path, deletes: seq<Path>)
    requires d in deletes && d != [] && d[|d| - 1].Key?
    ensures DeleteAll(Nest(d, Null), deletes) == DeleteAll(Nest(d, Bool(true)), deletes)
  {
    DeleteFirst(Nest(d, Null), d, deletes);
    DeleteFirst(Nest(d, Bool(true)), d, deletes);
    DeleteLeaf(d, Null, Bool(true));
  }

  // Payloads that differ where nothing is deleted.
  lemma KeptLeaf(m: Path, deletes: seq<Path>)
    requires !Covered(m, deletes)
    ensures DeleteAll(Nest(m, Null), deletes) != DeleteAll(Nest(m, Bool(true)), deletes)
  {
    DeleteAllNest(m, Null, deletes);
    DeleteAllNest(m, Bool(true), deletes);
    ScalarStays(Null, deletes, m);
    ScalarStays(Bool(true), deletes, m);
    NestDiffers(m, Null, Bool(true));
  }

  // If the hash is left, it shows a change in a deleted field; if not, a change that no
  // deletion hides does not show.
  lemma UnsafeBreaksLaw(masks: seq<Path>, deletes: seq<Path>, h: Hash, canon: Json -> string) returns (a: Json, b: Json)
    requires Injective(h) && Injective(canon) && !Safe(masks, deletes)
    ensures !Faithful(a, b, masks, deletes, h, canon)
  {
    var m0, d :| m0 in masks && d in deletes && m0 != [] && Inside(m0, d) && !Covered(m0, deletes);
    var m := TopMask(masks, m0);
    TopUncovered(m, m0, d, deletes);
    if Open(DeleteFrames(FrameAt(masks, m, h), deletes, m)) {
      var r := d[|m|..];
      assert d == m + r;
      NestConcat(m, r, Null);
      NestConcat(m, r, Bool(true));
      a, b := Nest(d, Null), Nest(d, Bool(true));
      NestDiffers(r, Null, Bool(true));
      RedactNest(Nest(r, Null), Nest(r, Bool(true)), masks, deletes, m, h, canon);
      DeletedLeaf(d, deletes);
    } else {
      a, b := Nest(m, Null), Nest(m, Bool(true));
      RedactNest(Null, Bool(true), masks, deletes, m, h, canon);
      KeptLeaf(m, deletes);
    }
  }

  lemma TopUncovered(m: Path, m0: Path, d: Path, deletes: seq<Path>)
    requires m <= m0 && Inside(m0, d) && !Covered(m0, deletes)
    ensures Inside(m, d) && !Covered(m, deletes)
  {
    assert m == m0[..|m|] == d[..|m|];
    if Covered(m, deletes) {
      var d' :| d' in deletes && Covers(d', m);
      assert Covers(d', m0);
    }
  }

  // For all lists of masks and deletions: redacted texts tell payloads apart exactly by what
  // the deletions leave, if and only if each mask that a deletion reaches into lies in
  // something that another deletion removes.
  lemma RedactExactly(masks: seq<Path>, deletes: seq<Path>, h: Hash, canon: Json -> string)
    requires Injective(h) && Injective(canon)
    ensures KeepsLaw(masks, deletes, h, canon) <==> Safe(masks, deletes)
  {
    if Safe(masks, deletes) {
      SafeKeepsLaw(masks, deletes, h, canon);
    } else {
      var a, b := UnsafeBreaksLaw(masks, deletes, h, canon);
    }
  }
}
