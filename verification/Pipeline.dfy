// The whole way of a payload: redacted, hashed, and logged only when it says something new.
module Pipeline {
  import opened Wrappers
  import opened Json
  import opened ObservationLog
  import R = Redactor
  import CrashResume

  // An area's catalog entry.
  datatype Rules = Rules(masks: seq<R.Path>, deletes: seq<R.Path>)

  type Catalog = string -> Rules

  // sha256 of a masked value, the canonical form of a payload, and sha256 of that text.
  datatype Hashing = Hashing(secret: Json -> string, canon: Json -> string, text: string -> Hash)

  ghost predicate Sound(x: Hashing) {
    Injective(x.secret) && Injective(x.canon) && CollisionFree(x.text)
  }

  // Each area has masks or deletions, never both.
  ghost predicate OneKind(catalog: Catalog) {
    forall area :: catalog(area).masks == [] || catalog(area).deletes == []
  }

  function Redacted(payload: Json, area: string, catalog: Catalog, x: Hashing): string {
    R.Redact(payload, catalog(area).masks, catalog(area).deletes, x.secret, x.canon)
  }

  // The payload without what the area ignores.
  function Normal(payload: Json, area: string, catalog: Catalog): Json {
    R.DeleteAll(payload, catalog(area).deletes)
  }

  lemma SameTextSameConfig(p: Json, q: Json, area: string, catalog: Catalog, x: Hashing)
    requires Sound(x) && OneKind(catalog)
    ensures x.text(Redacted(p, area, catalog, x)) == x.text(Redacted(q, area, catalog, x))
            <==> Normal(p, area, catalog) == Normal(q, area, catalog)
  {
    assert catalog(area).masks == [] || catalog(area).deletes == [];
    R.RedactLaw(p, q, catalog(area).masks, catalog(area).deletes, x.secret, x.canon);
  }

  // Each write stores what its payload redacts to.
  ghost predicate Stores(ws: seq<Write>, payloads: seq<Json>, catalog: Catalog, x: Hashing) {
    |payloads| == |ws| &&
    forall i :: 0 <= i < |ws| ==> ws[i].doc.text == Redacted(payloads[i], ws[i].key.entity.area, catalog, x)
  }

  // The payload last fetched for a key.
  function LastPayload(ws: seq<Write>, payloads: seq<Json>, key: Key): Option<Json>
    requires |payloads| == |ws|
  {
    if ws == [] then None
    else
      var n := |ws| - 1;
      if ws[n].key == key then Some(payloads[n]) else LastPayload(ws[..n], payloads[..n], key)
  }

  lemma {:induction false} LatestIsLastPayload(s: State, ws: seq<Write>, payloads: seq<Json>, catalog: Catalog,
      clock: nat -> int, x: Hashing, key: Key)
    requires s.log == [] && Stores(ws, payloads, catalog, x)
    ensures HashOf(Latest(Run(s, ws, clock, x.text).log, key)) ==
            match LastPayload(ws, payloads, key)
            case Some(q) => Some(x.text(Redacted(q, key.entity.area, catalog, x)))
            case None => None
  {
    if ws != [] {
      var n := |ws| - 1;
      LatestIsLastPayload(s, ws[..n], payloads[..n], catalog, clock, x, key);
      CrashResume.WriteSets(Run(s, ws[..n], clock, x.text), ws[n], clock, x.text, key);
    }
  }

  // Nothing new: the payload last fetched for the key was the same, secrets included, but
  // for what the area ignores.
  ghost predicate Known(ws: seq<Write>, payloads: seq<Json>, key: Key, p: Json, catalog: Catalog)
    requires |payloads| == |ws|
  {
    match LastPayload(ws, payloads, key)
    case Some(q) => Normal(p, key.entity.area, catalog) == Normal(q, key.entity.area, catalog)
    case None => false
  }

  lemma KnownMeans(s: State, ws: seq<Write>, payloads: seq<Json>, w: Write, p: Json, catalog: Catalog,
      clock: nat -> int, x: Hashing)
    requires s.log == [] && Stores(ws, payloads, catalog, x) && Sound(x) && OneKind(catalog)
    requires w.doc.text == Redacted(p, w.key.entity.area, catalog, x)
    ensures HashOf(Latest(Run(s, ws, clock, x.text).log, w.key)) == Some(x.text(w.doc.text)) <==>
            Known(ws, payloads, w.key, p, catalog)
  {
    LatestIsLastPayload(s, ws, payloads, catalog, clock, x, w.key);
    match LastPayload(ws, payloads, w.key)
    case Some(q) => SameTextSameConfig(p, q, w.key.entity.area, catalog, x);
    case None =>
  }

  // After any interleaving of writers, a baseline or change-log pull writes a row exactly
  // when the payload is not the one last fetched for its key, up to what the area ignores.
  lemma RowExactlyWhenNew(ws: seq<Write>, payloads: seq<Json>, w: Write, p: Json, catalog: Catalog,
      clock: nat -> int, x: Hashing)
    requires Stores(ws, payloads, catalog, x) && Sound(x) && OneKind(catalog)
    requires w.doc.text == Redacted(p, w.key.entity.area, catalog, x)
    requires w.Pull? && (w.source.Baseline? || w.source.ChangeLog?)
    ensures var s := Run(State(map[], [], 0), ws, clock, x.text);
            |Apply(s, w, clock, x.text).log| == |s.log| + if Known(ws, payloads, w.key, p, catalog) then 0 else 1
  {
    KnownMeans(State(map[], [], 0), ws, payloads, w, p, catalog, clock, x);
  }

  // And an anti-drift sweep writes a row always, which confirms in just the same cases.
  lemma ConfirmExactlyWhenKnown(ws: seq<Write>, payloads: seq<Json>, w: Write, p: Json, catalog: Catalog,
      clock: nat -> int, x: Hashing)
    requires Stores(ws, payloads, catalog, x) && Sound(x) && OneKind(catalog)
    requires w.doc.text == Redacted(p, w.key.entity.area, catalog, x) && w.Sweep?
    ensures var s := Run(State(map[], [], 0), ws, clock, x.text);
            var log := Apply(s, w, clock, x.text).log;
            |log| == |s.log| + 1 && log[|s.log|].source == if Known(ws, payloads, w.key, p, catalog) then AntiDriftConfirm else AntiDriftDiscrepancy
  {
    KnownMeans(State(map[], [], 0), ws, payloads, w, p, catalog, clock, x);
  }
}
