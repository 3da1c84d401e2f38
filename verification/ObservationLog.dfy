// The observation log: content-addressed texts, and rows that say which text was seen when.
module ObservationLog {
  import opened Wrappers

  type Hash = string

  // What an observation is about; the organisation owns the entity.
  datatype Entity = Entity(entityType: string, entityId: string, area: string, subKey: Option<string>)

  datatype Key = Key(org: string, entity: Entity)

  datatype Source = Baseline | ChangeLog | ManualRefresh | AntiDriftConfirm | AntiDriftDiscrepancy

  datatype Observation = Observation(
    key: Key, hash: Hash, time: int, source: Source,
    changeEvent: Option<nat>, run: Option<nat>, nameHint: Option<string>, enabledHint: Option<bool>)

  type Blobs = map<Hash, string>

  // What redaction makes of a response: the canonical text and two columns copied from it.
  datatype Doc = Doc(text: string, nameHint: Option<string>, enabledHint: Option<bool>)

  ghost predicate CollisionFree(h: string -> Hash) {
    forall a, b :: h(a) == h(b) ==> a == b
  }

  // Clock readings never repeat and never go back.
  ghost predicate Increasing(clock: nat -> int) {
    forall i: nat, j: nat :: i < j ==> clock(i) < clock(j)
  }

  // ----- queries -----

  // ORDER BY observed_at DESC LIMIT 1 among the rows of a key, on a log in time order.
  function Latest(log: seq<Observation>, key: Key): Option<Observation> {
    if log == [] then None
    else
      var n := |log| - 1;
      if log[n].key == key then Some(log[n]) else Latest(log[..n], key)
  }

  // The same among the rows up to time t.
  function AsOf(log: seq<Observation>, key: Key, t: int): Option<Observation> {
    if log == [] then None
    else
      var n := |log| - 1;
      if log[n].key == key && log[n].time <= t then Some(log[n]) else AsOf(log[..n], key, t)
  }

  function HashOf(o: Option<Observation>): Option<Hash> {
    match o case Some(r) => Some(r.hash) case None => None
  }

  ghost predicate InTimeOrder(log: seq<Observation>) {
    forall i, j :: 0 <= i < j < |log| ==> log[i].time < log[j].time
  }

  // On a log in time order AsOf is the row of the key with the greatest time up to t.
  lemma {:induction false} AsOfMeans(log: seq<Observation>, key: Key, t: int, row: Observation)
    requires InTimeOrder(log)
    ensures AsOf(log, key, t) == Some(row) <==>
            row in log && row.key == key && row.time <= t
            && forall i :: 0 <= i < |log| && log[i].key == key && log[i].time <= t ==> log[i].time <= row.time
    ensures AsOf(log, key, t) == None <==> forall i :: 0 <= i < |log| ==> !(log[i].key == key && log[i].time <= t)
  {
    if log != [] {
      var n := |log| - 1;
      assert log == log[..n] + [log[n]];
      AsOfMeans(log[..n], key, t, row);
      if log[n].key == key && log[n].time <= t && row in log[..n] {
        assert row.time < log[n].time;
      }
    }
  }

  lemma {:induction false} LatestIsAsOf(log: seq<Observation>, key: Key, t: int)
    requires forall i :: 0 <= i < |log| ==> log[i].time <= t
    ensures Latest(log, key) == AsOf(log, key, t)
  {
    if log != [] { LatestIsAsOf(log[..|log| - 1], key, t); }
  }

  lemma {:induction false} LatestFound(log: seq<Observation>, key: Key)
    ensures Latest(log, key).Some? ==> Latest(log, key).value in log && Latest(log, key).value.key == key
    ensures Latest(log, key) == None <==> forall i :: 0 <= i < |log| ==> log[i].key != key
  {
    if log != [] { LatestFound(log[..|log| - 1], key); }
  }

  lemma {:induction false} AsOfFound(log: seq<Observation>, key: Key, t: int)
    ensures AsOf(log, key, t).Some? ==> AsOf(log, key, t).value in log
  {
    if log != [] { AsOfFound(log[..|log| - 1], key, t); }
  }

  // ----- one writer's step: upsert the blob, then insert the row if it says something new -----

  datatype Write =
    | Pull(source: Source, key: Key, doc: Doc, changeEvent: Option<nat>, run: Option<nat>)
    | Sweep(key: Key, doc: Doc, run: Option<nat>)

  // ticks: how often the clock has been read.
  datatype State = State(blobs: Blobs, log: seq<Observation>, ticks: nat)

  predicate AlwaysWrites(source: Source) {
    source.AntiDriftConfirm? || source.AntiDriftDiscrepancy? || source.ManualRefresh?
  }

  function Upsert(blobs: Blobs, hash: Hash, text: string): Blobs {
    if hash in blobs then blobs else blobs[hash := text]
  }

  function Inserts(log: seq<Observation>, o: Observation): bool {
    AlwaysWrites(o.source) || HashOf(Latest(log, o.key)) != Some(o.hash)
  }

  function InsertIfChanged(log: seq<Observation>, o: Observation): seq<Observation> {
    if Inserts(log, o) then log + [o] else log
  }

  // An anti-drift sweep labels what it saw; a pull comes with its label.
  function SourceOf(log: seq<Observation>, w: Write, h: string -> Hash): Source {
    match w
    case Pull(source, _, _, _, _) => source
    case Sweep(key, doc, _) =>
      if HashOf(Latest(log, key)) == Some(h(doc.text)) then AntiDriftConfirm else AntiDriftDiscrepancy
  }

  function RowOf(s: State, w: Write, clock: nat -> int, h: string -> Hash): Observation {
    Observation(w.key, h(w.doc.text), clock(s.ticks), SourceOf(s.log, w, h),
                if w.Pull? then w.changeEvent else None, w.run, w.doc.nameHint, w.doc.enabledHint)
  }

  function Apply(s: State, w: Write, clock: nat -> int, h: string -> Hash): State {
    State(Upsert(s.blobs, h(w.doc.text), w.doc.text), InsertIfChanged(s.log, RowOf(s, w, clock, h)), s.ticks + 1)
  }

  function Run(s: State, ws: seq<Write>, clock: nat -> int, h: string -> Hash): State {
    if ws == [] then s else Apply(Run(s, ws[..|ws| - 1], clock, h), ws[|ws| - 1], clock, h)
  }

  lemma {:induction false} RunConcat(s: State, x: seq<Write>, y: seq<Write>, clock: nat -> int, h: string -> Hash)
    ensures Run(s, x + y, clock, h) == Run(Run(s, x, clock, h), y, clock, h)
  {
    if y == [] {
      assert x + y == x;
    } else {
      assert (x + y)[..|x + y| - 1] == x + y[..|y| - 1];
      RunConcat(s, x, y[..|y| - 1], clock, h);
    }
  }

  // ----- the invariant -----

  // The label agrees with what was known of the key before the row.
  predicate RightLabel(o: Observation, before: Option<Hash>) {
    match o.source
    case Baseline => before != Some(o.hash)
    case ChangeLog => before != Some(o.hash)
    case AntiDriftConfirm => before == Some(o.hash)
    case AntiDriftDiscrepancy => before != Some(o.hash)
    case ManualRefresh => true
  }

  ghost predicate Labelled(log: seq<Observation>) {
    forall i :: 0 <= i < |log| ==> RightLabel(log[i], HashOf(Latest(log[..i], log[i].key)))
  }

  ghost predicate Stored(log: seq<Observation>, blobs: Blobs) {
    forall i :: 0 <= i < |log| ==> log[i].hash in blobs
  }

  ghost predicate Addressed(blobs: Blobs, h: string -> Hash) {
    forall x :: x in blobs ==> h(blobs[x]) == x
  }

  ghost predicate Past(log: seq<Observation>, now: int) {
    forall i :: 0 <= i < |log| ==> log[i].time < now
  }

  ghost predicate Good(s: State, clock: nat -> int, h: string -> Hash) {
    Labelled(s.log) && Stored(s.log, s.blobs) && Addressed(s.blobs, h)
    && InTimeOrder(s.log) && Past(s.log, clock(s.ticks))
  }

  // Pulls carry one of the three labels that pulling writers use.
  predicate PullLabel(w: Write) {
    w.Pull? ==> w.source.Baseline? || w.source.ChangeLog? || w.source.ManualRefresh?
  }

  lemma OneMoreRow(log: seq<Observation>, o: Observation, blobs: Blobs)
    requires Labelled(log) && Stored(log, blobs) && InTimeOrder(log) && Past(log, o.time)
    requires RightLabel(o, HashOf(Latest(log, o.key))) && o.hash in blobs
    ensures Labelled(log + [o]) && Stored(log + [o], blobs) && InTimeOrder(log + [o])
  {
    forall i | 0 <= i < |log + [o]|
      ensures RightLabel((log + [o])[i], HashOf(Latest((log + [o])[..i], (log + [o])[i].key)))
    {
      assert (log + [o])[..i] == log[..i];
      if i == |log| { assert log[..i] == log; }
    }
  }

  lemma WriteKeepsGood(s: State, w: Write, clock: nat -> int, h: string -> Hash)
    requires Good(s, clock, h) && Increasing(clock) && PullLabel(w)
    ensures Good(Apply(s, w, clock, h), clock, h)
  {
    var o, blobs := RowOf(s, w, clock, h), Upsert(s.blobs, h(w.doc.text), w.doc.text);
    assert clock(s.ticks) < clock(s.ticks + 1);
    if Inserts(s.log, o) { OneMoreRow(s.log, o, blobs); }
  }

  // Over every interleaving of the writers' steps: each row's hash has a blob whose text
  // hashes to it, times ascend, and every row is rightly labelled.
  lemma {:induction false} RunKeepsGood(s: State, ws: seq<Write>, clock: nat -> int, h: string -> Hash)
    requires Good(s, clock, h) && Increasing(clock) && forall i :: 0 <= i < |ws| ==> PullLabel(ws[i])
    ensures Good(Run(s, ws, clock, h), clock, h)
  {
    if ws != [] {
      RunKeepsGood(s, ws[..|ws| - 1], clock, h);
      WriteKeepsGood(Run(s, ws[..|ws| - 1], clock, h), ws[|ws| - 1], clock, h);
    }
  }

  // Blobs never change and rows never leave.
  lemma {:induction false} NothingIsLost(s: State, ws: seq<Write>, clock: nat -> int, h: string -> Hash)
    ensures forall x :: x in s.blobs ==> x in Run(s, ws, clock, h).blobs && Run(s, ws, clock, h).blobs[x] == s.blobs[x]
    ensures s.log <= Run(s, ws, clock, h).log
  {
    if ws != [] { NothingIsLost(s, ws[..|ws| - 1], clock, h); }
  }

  // ----- the deduplicated log against the log of every fetch -----

  datatype Fetch = Fetch(key: Key, text: string, time: int)

  // What was really fetched, whether or not a row was written.
  function Fetches(ticks: nat, ws: seq<Write>, clock: nat -> int): (fs: seq<Fetch>)
    ensures |fs| == |ws|
  {
    if ws == [] then []
    else
      var n := |ws| - 1;
      Fetches(ticks, ws[..n], clock) + [Fetch(ws[n].key, ws[n].doc.text, clock(ticks + n))]
  }

  function LastFetched(fs: seq<Fetch>, key: Key, t: int): Option<string> {
    if fs == [] then None
    else
      var n := |fs| - 1;
      if fs[n].key == key && fs[n].time <= t then Some(fs[n].text) else LastFetched(fs[..n], key, t)
  }

  lemma {:induction false} RunTicks(s: State, ws: seq<Write>, clock: nat -> int, h: string -> Hash)
    ensures Run(s, ws, clock, h).ticks == s.ticks + |ws|
  {
    if ws != [] { RunTicks(s, ws[..|ws| - 1], clock, h); }
  }

  lemma WriteShows(s: State, w: Write, clock: nat -> int, h: string -> Hash, key: Key, t: int)
    requires Good(s, clock, h)
    ensures HashOf(AsOf(Apply(s, w, clock, h).log, key, t)) ==
            if w.key == key && clock(s.ticks) <= t then Some(h(w.doc.text)) else HashOf(AsOf(s.log, key, t))
  {
    var o := RowOf(s, w, clock, h);
    if Inserts(s.log, o) {
      assert (s.log + [o])[..|s.log|] == s.log;
    } else if w.key == key && clock(s.ticks) <= t {
      LatestIsAsOf(s.log, key, t);
    }
  }

  // The row log shows the hash of the last text fetched, or what was shown before.
  ghost predicate Agrees(log: seq<Observation>, fs: seq<Fetch>, before: Option<Hash>, h: string -> Hash, key: Key,
      t: int) {
    HashOf(AsOf(log, key, t)) == match LastFetched(fs, key, t) case Some(text) => Some(h(text)) case None => before
  }

  lemma WriteAgrees(s: State, w: Write, clock: nat -> int, h: string -> Hash, fs: seq<Fetch>, before: Option<Hash>,
      key: Key, t: int)
    requires Good(s, clock, h) && Agrees(s.log, fs, before, h, key, t)
    ensures Agrees(Apply(s, w, clock, h).log, fs + [Fetch(w.key, w.doc.text, clock(s.ticks))], before, h, key, t)
  {
    WriteShows(s, w, clock, h, key, t);
    var f := Fetch(w.key, w.doc.text, clock(s.ticks));
    assert (fs + [f])[..|fs|] == fs;
  }

  // For every key and time, the hash shown by the deduplicated log is the hash of the text
  // last fetched by then; before the first fetch, what the log showed already.
  lemma {:induction false} DedupRefines(s: State, ws: seq<Write>, clock: nat -> int, h: string -> Hash, key: Key,
      t: int)
    requires Good(s, clock, h) && Increasing(clock) && forall i :: 0 <= i < |ws| ==> PullLabel(ws[i])
    ensures Agrees(Run(s, ws, clock, h).log, Fetches(s.ticks, ws, clock), HashOf(AsOf(s.log, key, t)), h, key, t)
  {
    if ws != [] {
      var n := |ws| - 1;
      RunKeepsGood(s, ws[..n], clock, h);
      RunTicks(s, ws[..n], clock, h);
      DedupRefines(s, ws[..n], clock, h, key, t);
      WriteAgrees(Run(s, ws[..n], clock, h), ws[n], clock, h, Fetches(s.ticks, ws[..n], clock), HashOf(AsOf(s.log, key, t)), key, t);
    }
  }

  // The text a reader joins in for a key as of a time.
  function Shown(s: State, key: Key, t: int): Option<string> {
    match AsOf(s.log, key, t)
    case Some(o) => if o.hash in s.blobs then Some(s.blobs[o.hash]) else None
    case None => None
  }

  // With a hash that never collides, a log started empty shows at every time exactly the
  // text that was last fetched by then.
  lemma ShowsLastFetched(ws: seq<Write>, clock: nat -> int, h: string -> Hash, key: Key, t: int)
    requires Increasing(clock) && CollisionFree(h) && forall i :: 0 <= i < |ws| ==> PullLabel(ws[i])
    ensures Shown(Run(State(map[], [], 0), ws, clock, h), key, t) == LastFetched(Fetches(0, ws, clock), key, t)
  {
    var empty := State(map[], [], 0);
    var s := Run(empty, ws, clock, h);
    RunKeepsGood(empty, ws, clock, h);
    DedupRefines(empty, ws, clock, h, key, t);
    AsOfFound(s.log, key, t);
  }
}
