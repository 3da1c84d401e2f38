// Two readers of one history: the one-pass timeline of an entity, and the query that
// pairs every row with its predecessor.
module Timeline {
  import opened Wrappers
  import opened ObservationLog
  import opened JobKeys

  const LIMIT: nat := 200

  // ----- the timeline of one entity -----

  predicate OfEntity(o: Observation, org: string, entityType: string, entityId: string) {
    o.key.org == org && o.key.entity.entityType == entityType && o.key.entity.entityId == entityId
  }

  // The entity's rows, oldest first.
  function EntityRows(log: seq<Observation>, org: string, entityType: string, entityId: string): seq<Observation> {
    if log == [] then []
    else
      var n := |log| - 1;
      EntityRows(log[..n], org, entityType, entityId) + if OfEntity(log[n], org, entityType, entityId) then [log[n]] else []
  }

  // The newest rows, as many as the limit lets through.
  function Newest(rows: seq<Observation>): seq<Observation> {
    if |rows| <= LIMIT then rows else rows[|rows| - LIMIT..]
  }

  function OrEmpty(s: Option<string>): string {
    match s case Some(x) => x case None => ""
  }

  // What the timeline keys its memory by: area and sub key, an absent one read as "".
  datatype Slot = Slot(area: string, sub: string)

  function SlotOf(o: Observation): Slot {
    Slot(o.key.entity.area, OrEmpty(o.key.entity.subKey))
  }

  datatype Entry = Entry(slot: Slot, time: int, source: Source, hash: Hash, hasDiff: bool, priorHash: Option<Hash>)

  function LastIn(rows: seq<Observation>, slot: Slot): Option<Hash> {
    if rows == [] then None
    else
      var n := |rows| - 1;
      if SlotOf(rows[n]) == slot then Some(rows[n].hash) else LastIn(rows[..n], slot)
  }

  function EntryAfter(before: seq<Observation>, o: Observation): Entry {
    var prior := LastIn(before, SlotOf(o));
    var hasDiff := prior.Some? && prior != Some(o.hash);
    Entry(SlotOf(o), o.time, o.source, o.hash, hasDiff, if hasDiff then prior else None)
  }

  function EntriesOf(rows: seq<Observation>): (r: seq<Entry>)
    ensures |r| == |rows|
  {
    if rows == [] then []
    else
      var n := |rows| - 1;
      EntriesOf(rows[..n]) + [EntryAfter(rows[..n], rows[n])]
  }

  function Backwards<T>(s: seq<T>): (r: seq<T>)
    ensures |r| == |s| && forall i :: 0 <= i < |s| ==> r[i] == s[|s| - 1 - i]
  {
    seq(|s|, i requires 0 <= i < |s| => s[|s| - 1 - i])
  }

  // The memory holds the last hash of each slot seen so far.
  ghost predicate Remembers(prev: map<Slot, Hash>, rows: seq<Observation>) {
    forall slot :: (if slot in prev then Some(prev[slot]) else None) == LastIn(rows, slot)
  }

  lemma LastInNext(rows: seq<Observation>, o: Observation, slot: Slot)
    ensures LastIn(rows + [o], slot) == if SlotOf(o) == slot then Some(o.hash) else LastIn(rows, slot)
  {
    assert (rows + [o])[..|rows|] == rows;
  }

  lemma RemembersNext(prev: map<Slot, Hash>, rows: seq<Observation>, i: nat)
    requires i < |rows| && Remembers(prev, rows[..i])
    ensures Remembers(prev[SlotOf(rows[i]) := rows[i].hash], rows[..i + 1])
    ensures EntriesOf(rows[..i + 1]) == EntriesOf(rows[..i]) + [EntryAfter(rows[..i], rows[i])]
  {
    assert rows[..i + 1] == rows[..i] + [rows[i]] && rows[..i + 1][..i] == rows[..i];
    forall slot { LastInNext(rows[..i], rows[i], slot); }
  }

  // One pass over the history from its oldest row, remembering the last hash of each
  // slot; the entries are returned newest first.
  method EntityTimeline(log: seq<Observation>, org: string, entityType: string,
      entityId: string) returns (entries: seq<Entry>)
    ensures entries == Backwards(EntriesOf(Newest(EntityRows(log, org, entityType, entityId))))
  {
    var rows := Newest(EntityRows(log, org, entityType, entityId));
    entries := [];
    var prev: map<Slot, Hash> := map[];
    for i := 0 to |rows|
      invariant entries == EntriesOf(rows[..i])
      invariant Remembers(prev, rows[..i])
    {
      var o := rows[i];
      RemembersNext(prev, rows, i);
      var prior := if SlotOf(o) in prev then Some(prev[SlotOf(o)]) else None;
      var hasDiff := prior.Some? && prior.value != o.hash;
      entries := entries + [Entry(SlotOf(o), o.time, o.source, o.hash, hasDiff, if hasDiff then prior else None)];
      prev := prev[SlotOf(o) := o.hash];
    }
    assert rows[..|rows|] == rows;
    entries := Backwards(entries);
  }

  // ----- change events -----

  datatype ChangeEvent = ChangeEvent(key: Key, fromHash: Hash, toHash: Hash, detectedAt: int, fromText: Option<string>, toText: string)

  function TextAt(blobs: Blobs, hash: Hash): Option<string> {
    if hash in blobs then Some(blobs[hash]) else None
  }

  // The row of the same key with the greatest time before this row's.
  function Predecessor(log: seq<Observation>, o: Observation): Option<Observation> {
    AsOf(log, o.key, o.time - 1)
  }

  // The event of one row: it has a predecessor with another hash, and its own text is known.
  function EventOf(prev: Option<Observation>, o: Observation, blobs: Blobs, since: Option<int>): seq<ChangeEvent> {
    if prev.Some? && prev.value.hash != o.hash && o.hash in blobs && (since.Some? ==> o.time > since.value)
    then [ChangeEvent(o.key, prev.value.hash, o.hash, o.time, TextAt(blobs, prev.value.hash), blobs[o.hash])]
    else []
  }

  function EventsOf(log: seq<Observation>, blobs: Blobs, since: Option<int>): seq<ChangeEvent> {
    if log == [] then []
    else
      var n := |log| - 1;
      EventsOf(log[..n], blobs, since) + EventOf(Latest(log[..n], log[n].key), log[n], blobs, since)
  }

  lemma {:induction false} EarlierRows(log: seq<Observation>, n: nat, key: Key, t: int)
    requires InTimeOrder(log) && n < |log| && log[n].time == t + 1
    ensures AsOf(log, key, t) == Latest(log[..n], key)
    decreases |log|
  {
    var m := |log| - 1;
    if n < m {
      assert log[..m][..n] == log[..n];
      EarlierRows(log[..m], n, key, t);
    } else {
      LatestIsAsOf(log[..n], key, t);
    }
  }

  method BuildChangeEvents(log: seq<Observation>, blobs: Blobs, since: Option<int>) returns (events: seq<ChangeEvent>)
    requires InTimeOrder(log)
    ensures events == EventsOf(log, blobs, since)
  {
    events := [];
    for i := 0 to |log|
      invariant events == EventsOf(log[..i], blobs, since)
    {
      assert log[..i + 1][..i] == log[..i];
      EarlierRows(log, i, log[i].key, log[i].time - 1);
      var prev := Predecessor(log, log[i]);
      if prev.Some? && prev.value.hash != log[i].hash && log[i].hash in blobs && (since == None || log[i].time > since.value) {
        var fromText := TextAt(blobs, prev.value.hash);
        events := events + [ChangeEvent(log[i].key, prev.value.hash, log[i].hash, log[i].time, fromText, blobs[log[i].hash])];
      }
    }
    assert log[..|log|] == log;
  }

  // ----- the two readers agree -----

  datatype Change = Change(slot: Slot, time: int, fromHash: Hash, toHash: Hash)

  function EntryChange(e: Entry): seq<Change> {
    if e.hasDiff && e.priorHash.Some? then [Change(e.slot, e.time, e.priorHash.value, e.hash)] else []
  }

  // What the timeline marks as changed.
  function MarkedIn(entries: seq<Entry>): seq<Change> {
    if entries == [] then [] else MarkedIn(entries[..|entries| - 1]) + EntryChange(entries[|entries| - 1])
  }

  function EventChange(e: ChangeEvent, org: string, entityType: string, entityId: string): seq<Change> {
    if e.key.org == org && e.key.entity.entityType == entityType && e.key.entity.entityId == entityId
    then [Change(Slot(e.key.entity.area, OrEmpty(e.key.entity.subKey)), e.detectedAt, e.fromHash, e.toHash)]
    else []
  }

  // The entity's events, with an absent sub key written as "".
  function EventsFor(events: seq<ChangeEvent>, org: string, entityType: string, entityId: string): seq<Change> {
    if events == [] then []
    else EventsFor(events[..|events| - 1], org, entityType, entityId) + EventChange(events[|events| - 1], org, entityType, entityId)
  }

  lemma {:induction false} EventsForConcat(x: seq<ChangeEvent>, y: seq<ChangeEvent>, org: string, entityType: string,
      entityId: string)
    ensures EventsFor(x + y, org, entityType, entityId) == EventsFor(x, org, entityType, entityId) + EventsFor(y, org, entityType, entityId)
  {
    if y == [] {
      assert x + y == x;
    } else {
      assert (x + y)[..|x + y| - 1] == x + y[..|y| - 1];
      EventsForConcat(x, y[..|y| - 1], org, entityType, entityId);
    }
  }

  // No area of these rows has both an absent and an empty sub key.
  ghost predicate NoMerge(rows: seq<Observation>) {
    forall i, j :: 0 <= i < |rows| && 0 <= j < |rows| && SlotOf(rows[i]) == SlotOf(rows[j]) ==>
      rows[i].key.entity.subKey == rows[j].key.entity.subKey
  }

  lemma {:induction false} LastInIsLatest(log: seq<Observation>, o: Observation, org: string, entityType: string,
      entityId: string)
    requires OfEntity(o, org, entityType, entityId) && NoMerge(EntityRows(log, org, entityType, entityId) + [o])
    ensures LastIn(EntityRows(log, org, entityType, entityId), SlotOf(o)) == HashOf(Latest(log, o.key))
  {
    if log != [] {
      var n := |log| - 1;
      var rows := EntityRows(log[..n], org, entityType, entityId);
      var last := EntityRows(log, org, entityType, entityId);
      if OfEntity(log[n], org, entityType, entityId) {
        assert last == rows + [log[n]];
        SameKey(last + [o], |rows|, |last|);
        MergeLess(rows, log[n], o);
      } else {
        assert last == rows;
      }
      LastInIsLatest(log[..n], o, org, entityType, entityId);
      LastInNext(rows, log[n], SlotOf(o));
    }
  }

  lemma MergeLess(rows: seq<Observation>, x: Observation, o: Observation)
    requires NoMerge(rows + [x] + [o])
    ensures NoMerge(rows + [o])
  {
    var all, some := rows + [x] + [o], rows + [o];
    forall i, j | 0 <= i < |some| && 0 <= j < |some| && SlotOf(some[i]) == SlotOf(some[j])
      ensures some[i].key.entity.subKey == some[j].key.entity.subKey
    {
      var i', j' := if i < |rows| then i else i + 1, if j < |rows| then j else j + 1;
      assert all[i'] == some[i] && all[j'] == some[j];
    }
  }

  // Within one entity the same slot then means the same key.
  lemma SameKey(rows: seq<Observation>, i: nat, j: nat)
    requires i < |rows| && j < |rows| && NoMerge(rows)
    requires rows[i].key.org == rows[j].key.org && rows[i].key.entity.entityType == rows[j].key.entity.entityType
             && rows[i].key.entity.entityId == rows[j].key.entity.entityId
    ensures SlotOf(rows[i]) == SlotOf(rows[j]) <==> rows[i].key == rows[j].key
  {}

  ghost predicate Agree(log: seq<Observation>, blobs: Blobs, org: string, entityType: string, entityId: string) {
    MarkedIn(EntriesOf(EntityRows(log, org, entityType, entityId)))
    == EventsFor(EventsOf(log, blobs, None), org, entityType, entityId)
  }

  lemma {:induction false} NoMergeAgrees(log: seq<Observation>, blobs: Blobs, org: string, entityType: string, entityId: string)
    requires Stored(log, blobs) && NoMerge(EntityRows(log, org, entityType, entityId))
    ensures Agree(log, blobs, org, entityType, entityId)
  {
    if log != [] {
      var n := |log| - 1;
      if OfEntity(log[n], org, entityType, entityId) {
        NoMergeFront(EntityRows(log[..n], org, entityType, entityId), log[n]);
        NoMergeAgrees(log[..n], blobs, org, entityType, entityId);
        OwnRowAgrees(log, blobs, org, entityType, entityId);
      } else {
        assert EntityRows(log, org, entityType, entityId) == EntityRows(log[..n], org, entityType, entityId);
        NoMergeAgrees(log[..n], blobs, org, entityType, entityId);
        OtherRowAgrees(log, blobs, org, entityType, entityId);
      }
    }
  }

  // The newest row is the entity's: both readers look at it.
  lemma OwnRowAgrees(log: seq<Observation>, blobs: Blobs, org: string, entityType: string, entityId: string)
    requires Stored(log, blobs) && NoMerge(EntityRows(log, org, entityType, entityId)) && log != []
    requires OfEntity(log[|log| - 1], org, entityType, entityId)
    requires Agree(log[..|log| - 1], blobs, org, entityType, entityId)
    ensures Agree(log, blobs, org, entityType, entityId)
  {
    var n := |log| - 1;
    var o, rows := log[n], EntityRows(log[..n], org, entityType, entityId);
    var prev := Latest(log[..n], o.key);
    EventsForConcat(EventsOf(log[..n], blobs, None), EventOf(prev, o, blobs, None), org, entityType, entityId);
    LastInIsLatest(log[..n], o, org, entityType, entityId);
    EntriesNext(rows, o);
    EventMarked(prev, rows, o, blobs, org, entityType, entityId);
  }

  // The newest row is another's: neither reader reports it.
  lemma OtherRowAgrees(log: seq<Observation>, blobs: Blobs, org: string, entityType: string, entityId: string)
    requires log != [] && !OfEntity(log[|log| - 1], org, entityType, entityId)
    requires Agree(log[..|log| - 1], blobs, org, entityType, entityId)
    ensures Agree(log, blobs, org, entityType, entityId)
  {
    var n := |log| - 1;
    var o, prev := log[n], Latest(log[..n], log[n].key);
    var event := EventOf(prev, o, blobs, None);
    EventsForConcat(EventsOf(log[..n], blobs, None), event, org, entityType, entityId);
    EventElsewhere(event, o, blobs, prev, org, entityType, entityId);
    assert EntityRows(log, org, entityType, entityId) == EntityRows(log[..n], org, entityType, entityId);
  }

  lemma NoMergeFront(rows: seq<Observation>, o: Observation)
    requires NoMerge(rows + [o])
    ensures NoMerge(rows)
  {
    assert forall i :: 0 <= i < |rows| ==> (rows + [o])[i] == rows[i];
  }

  lemma EntriesNext(rows: seq<Observation>, o: Observation)
    ensures MarkedIn(EntriesOf(rows + [o])) == MarkedIn(EntriesOf(rows)) + EntryChange(EntryAfter(rows, o))
  {
    assert (rows + [o])[..|rows|] == rows;
    assert EntriesOf(rows + [o])[..|rows|] == EntriesOf(rows);
  }

  lemma EventMarked(prev: Option<Observation>, rows: seq<Observation>, o: Observation, blobs: Blobs, org: string,
      entityType: string, entityId: string)
    requires OfEntity(o, org, entityType, entityId) && o.hash in blobs && LastIn(rows, SlotOf(o)) == HashOf(prev)
    ensures EventsFor(EventOf(prev, o, blobs, None), org, entityType, entityId) == EntryChange(EntryAfter(rows, o))
  {
    var es := EventOf(prev, o, blobs, None);
    if es != [] { assert es[..0] == []; }
  }

  lemma EventElsewhere(es: seq<ChangeEvent>, o: Observation, blobs: Blobs, prev: Option<Observation>, org: string,
      entityType: string, entityId: string)
    requires es == EventOf(prev, o, blobs, None) && !OfEntity(o, org, entityType, entityId)
    ensures EventsFor(es, org, entityType, entityId) == []
  {
    if es != [] { assert es[..0] == []; }
  }

  // For any history that fits the limit and never mixes an absent with an empty sub key
  // in one area, what the timeline marks is exactly what the query selects, in order and
  // with the same predecessor hashes.
  lemma UnmergedReadersAgree(log: seq<Observation>, blobs: Blobs, org: string, entityType: string, entityId: string)
    requires Stored(log, blobs)
    requires var rows := EntityRows(log, org, entityType, entityId); |rows| <= LIMIT && NoMerge(rows)
    ensures MarkedIn(EntriesOf(Newest(EntityRows(log, org, entityType, entityId))))
            == EventsFor(EventsOf(log, blobs, None), org, entityType, entityId)
  {
    NoMergeAgrees(log, blobs, org, entityType, entityId);
  }

  lemma {:induction false} RowsOfEntity(log: seq<Observation>, org: string, entityType: string, entityId: string)
    requires Keyed(log)
    ensures Keyed(EntityRows(log, org, entityType, entityId))
    ensures forall i :: 0 <= i < |EntityRows(log, org, entityType, entityId)| ==>
              OfEntity(EntityRows(log, org, entityType, entityId)[i], org, entityType, entityId)
  {
    if log != [] { RowsOfEntity(log[..|log| - 1], org, entityType, entityId); }
  }

  // The writers never mix sub keys, because the sub key is a function of the entity.
  lemma KeyedNoMerge(log: seq<Observation>, org: string, entityType: string, entityId: string)
    requires Keyed(log)
    ensures NoMerge(EntityRows(log, org, entityType, entityId))
  {
    RowsOfEntity(log, org, entityType, entityId);
  }

  // For any history that fits the limit and that the writers' jobs can produce, in any
  // interleaving, the two readers agree.
  lemma ReadersAgree(ws: seq<Write>, clock: nat -> int, h: string -> Hash, org: string, entityType: string, entityId: string)
    requires Increasing(clock) && forall i :: 0 <= i < |ws| ==> PullLabel(ws[i]) && WellKeyed(ws[i].key)
    requires |EntityRows(Run(State(map[], [], 0), ws, clock, h).log, org, entityType, entityId)| <= LIMIT
    ensures var s := Run(State(map[], [], 0), ws, clock, h);
            MarkedIn(EntriesOf(Newest(EntityRows(s.log, org, entityType, entityId))))
            == EventsFor(EventsOf(s.log, s.blobs, None), org, entityType, entityId)
  {
    var s := Run(State(map[], [], 0), ws, clock, h);
    RunKeepsGood(State(map[], [], 0), ws, clock, h);
    WrittenKeyed(State(map[], [], 0), ws, clock, h);
    KeyedNoMerge(s.log, org, entityType, entityId);
    UnmergedReadersAgree(s.log, s.blobs, org, entityType, entityId);
  }

  // ----- histories that no writer produces -----

  // The same rows with other hashes.
  function Rehashed(log: seq<Observation>, hashes: Observation -> Hash): (r: seq<Observation>)
    ensures |r| == |log| && forall i :: 0 <= i < |log| ==> r[i] == log[i].(hash := hashes(log[i]))
  {
    seq(|log|, i requires 0 <= i < |log| => log[i].(hash := hashes(log[i])))
  }

  ghost predicate AgreeWith(log: seq<Observation>, hashes: Observation -> Hash, blobs: Blobs, org: string,
      entityType: string, entityId: string) {
    Stored(Rehashed(log, hashes), blobs) ==> Agree(Rehashed(log, hashes), blobs, org, entityType, entityId)
  }

  lemma {:induction false} RehashedRows(log: seq<Observation>, hashes: Observation -> Hash, org: string,
      entityType: string, entityId: string)
    ensures EntityRows(Rehashed(log, hashes), org, entityType, entityId) == Rehashed(EntityRows(log, org, entityType, entityId), hashes)
  {
    if log != [] {
      var n := |log| - 1;
      assert Rehashed(log, hashes)[..n] == Rehashed(log[..n], hashes);
      RehashedRows(log[..n], hashes, org, entityType, entityId);
    }
  }

  // One hash for absent sub keys, another for the rest: no key ever changes.
  function BySubKey(o: Observation): Hash {
    if o.key.entity.subKey == None then "x" else "y"
  }

  lemma {:induction false} NoEventsBySubKey(log: seq<Observation>, blobs: Blobs)
    requires forall i :: 0 <= i < |log| ==> log[i].hash == BySubKey(log[i])
    ensures EventsOf(log, blobs, None) == []
  {
    if log != [] {
      var n := |log| - 1;
      NoEventsBySubKey(log[..n], blobs);
      LatestFound(log[..n], log[n].key);
    }
  }

  lemma UnmarkedIsSame(before: seq<Observation>, o: Observation)
    requires MarkedIn(EntriesOf(before + [o])) == []
    ensures MarkedIn(EntriesOf(before)) == []
    ensures LastIn(before, SlotOf(o)) == None || LastIn(before, SlotOf(o)) == Some(o.hash)
  {
    EntriesNext(before, o);
    var e := EntryAfter(before, o);
    assert EntryChange(e) == [];
  }

  // A slot whose hash is never marked as changed has one hash throughout.
  lemma {:induction false} UnmarkedIsConstant(rows: seq<Observation>, slot: Slot, i: nat)
    requires MarkedIn(EntriesOf(rows)) == [] && i < |rows| && SlotOf(rows[i]) == slot
    ensures LastIn(rows, slot) == Some(rows[i].hash)
  {
    var n := |rows| - 1;
    var front, last := rows[..n], rows[n];
    assert rows == front + [last];
    UnmarkedIsSame(front, last);
    LastInNext(front, last, slot);
    if i < n { UnmarkedIsConstant(front, slot, i); }
  }

  lemma MergedIsMarked(rows: seq<Observation>)
    requires !NoMerge(rows)
    ensures MarkedIn(EntriesOf(Rehashed(rows, BySubKey))) != []
  {
    var i, j :| 0 <= i < |rows| && 0 <= j < |rows| && SlotOf(rows[i]) == SlotOf(rows[j])
                && rows[i].key.entity.subKey != rows[j].key.entity.subKey;
    var other := Rehashed(rows, BySubKey);
    assert other[i].hash != other[j].hash;
    if MarkedIn(EntriesOf(other)) == [] {
      UnmarkedIsConstant(other, SlotOf(rows[i]), i);
      UnmarkedIsConstant(other, SlotOf(rows[i]), j);
    }
  }

  lemma MarkedWithoutEvents(log: seq<Observation>, blobs: Blobs, org: string, entityType: string, entityId: string)
    requires EventsOf(log, blobs, None) == [] && MarkedIn(EntriesOf(EntityRows(log, org, entityType, entityId))) != []
    ensures !Agree(log, blobs, org, entityType, entityId)
  {}

  lemma StoredBySubKey(log: seq<Observation>, blobs: Blobs)
    requires "x" in blobs && "y" in blobs
    ensures Stored(Rehashed(log, BySubKey), blobs)
    ensures EventsOf(Rehashed(log, BySubKey), blobs, None) == []
  {
    NoEventsBySubKey(Rehashed(log, BySubKey), blobs);
  }

  lemma MarkedBySubKey(log: seq<Observation>, org: string, entityType: string, entityId: string)
    requires !NoMerge(EntityRows(log, org, entityType, entityId))
    ensures MarkedIn(EntriesOf(EntityRows(Rehashed(log, BySubKey), org, entityType, entityId))) != []
  {
    RehashedRows(log, BySubKey, org, entityType, entityId);
    MergedIsMarked(EntityRows(log, org, entityType, entityId));
  }

  lemma MergeBreaks(log: seq<Observation>, blobs: Blobs, org: string, entityType: string, entityId: string)
    requires !NoMerge(EntityRows(log, org, entityType, entityId)) && "x" in blobs && "y" in blobs
    ensures !AgreeWith(log, BySubKey, blobs, org, entityType, entityId)
  {
    StoredBySubKey(log, blobs);
    MarkedBySubKey(log, org, entityType, entityId);
    MarkedWithoutEvents(Rehashed(log, BySubKey), blobs, org, entityType, entityId);
  }

  lemma UnmergedAgrees(log: seq<Observation>, hashes: Observation -> Hash, blobs: Blobs, org: string,
      entityType: string, entityId: string)
    requires NoMerge(EntityRows(log, org, entityType, entityId))
    ensures AgreeWith(log, hashes, blobs, org, entityType, entityId)
  {
    RehashedRows(log, hashes, org, entityType, entityId);
    if Stored(Rehashed(log, hashes), blobs) {
      NoMergeAgrees(Rehashed(log, hashes), blobs, org, entityType, entityId);
    }
  }

  ghost predicate AlwaysAgree(log: seq<Observation>, org: string, entityType: string, entityId: string) {
    forall hashes: Observation -> Hash, blobs: Blobs :: AgreeWith(log, hashes, blobs, org, entityType, entityId)
  }

  lemma UnmergedAlwaysAgree(log: seq<Observation>, org: string, entityType: string, entityId: string)
    requires NoMerge(EntityRows(log, org, entityType, entityId))
    ensures AlwaysAgree(log, org, entityType, entityId)
  {
    forall hashes: Observation -> Hash, blobs: Blobs ensures AgreeWith(log, hashes, blobs, org, entityType, entityId) {
      UnmergedAgrees(log, hashes, blobs, org, entityType, entityId);
    }
  }

  lemma MergedDisagree(log: seq<Observation>, org: string, entityType: string, entityId: string, blobs: Blobs)
    requires !NoMerge(EntityRows(log, org, entityType, entityId)) && "x" in blobs && "y" in blobs
    ensures !AlwaysAgree(log, org, entityType, entityId)
  {
    MergeBreaks(log, blobs, org, entityType, entityId);
    OnceIsEnough(log, BySubKey, blobs, org, entityType, entityId);
  }

  lemma OnceIsEnough(log: seq<Observation>, hashes: Observation -> Hash, blobs: Blobs, org: string, entityType: string,
                     entityId: string)
    requires !AgreeWith(log, hashes, blobs, org, entityType, entityId)
    ensures !AlwaysAgree(log, org, entityType, entityId)
  {}

  // The two readers agree whatever the hashes exactly when no area of the entity has both
  // an absent and an empty sub key.
  lemma AgreeExactly(log: seq<Observation>, org: string, entityType: string, entityId: string)
    ensures AlwaysAgree(log, org, entityType, entityId) <==> NoMerge(EntityRows(log, org, entityType, entityId))
  {
    if NoMerge(EntityRows(log, org, entityType, entityId)) {
      UnmergedAlwaysAgree(log, org, entityType, entityId);
    } else {
      MergedDisagree(log, org, entityType, entityId, map["x" := "", "y" := ""]);
    }
  }

  // ----- changes of one key chain -----

  function EventsOfKey(events: seq<ChangeEvent>, key: Key): seq<ChangeEvent> {
    if events == [] then []
    else
      var n := |events| - 1;
      EventsOfKey(events[..n], key) + if events[n].key == key then [events[n]] else []
  }

  lemma {:induction false} EventsOfKeyConcat(x: seq<ChangeEvent>, y: seq<ChangeEvent>, key: Key)
    ensures EventsOfKey(x + y, key) == EventsOfKey(x, key) + EventsOfKey(y, key)
  {
    if y == [] {
      assert x + y == x;
    } else {
      assert (x + y)[..|x + y| - 1] == x + y[..|y| - 1];
      EventsOfKeyConcat(x, y[..|y| - 1], key);
    }
  }

  ghost predicate Chained(events: seq<ChangeEvent>) {
    forall i :: 0 <= i < |events| - 1 ==> events[i].toHash == events[i + 1].fromHash
  }

  // The events link up, and end with the latest hash.
  ghost predicate ChainTo(events: seq<ChangeEvent>, latest: Option<Hash>) {
    Chained(events) && (events != [] ==> latest == Some(events[|events| - 1].toHash))
  }

  lemma ChainGrows(events: seq<ChangeEvent>, more: seq<ChangeEvent>, latest: Option<Hash>, hash: Hash)
    requires ChainTo(events, latest)
    requires if latest.Some? && latest.value != hash
             then |more| == 1 && more[0].fromHash == latest.value && more[0].toHash == hash
             else more == []
    ensures ChainTo(events + more, Some(hash))
  {
    if more == [] { assert events + more == events; }
  }

  // Each change of a key starts from the hash the last one ended with, and the last one
  // ends with the key's latest hash.
  lemma {:induction false} ChangesChain(log: seq<Observation>, blobs: Blobs, key: Key)
    requires Stored(log, blobs)
    ensures ChainTo(EventsOfKey(EventsOf(log, blobs, None), key), HashOf(Latest(log, key)))
  {
    if log != [] {
      var n := |log| - 1;
      var o := log[n];
      ChangesChain(log[..n], blobs, key);
      var events, event := EventsOf(log[..n], blobs, None), EventOf(Latest(log[..n], o.key), o, blobs, None);
      EventsOfKeyConcat(events, event, key);
      EventOfKey(Latest(log[..n], o.key), o, blobs, key);
      if o.key == key {
        ChainGrows(EventsOfKey(events, key), EventsOfKey(event, key), HashOf(Latest(log[..n], key)), o.hash);
      } else {
        assert EventsOfKey(events, key) + EventsOfKey(event, key) == EventsOfKey(events, key);
      }
    }
  }

  lemma EventOfKey(prev: Option<Observation>, o: Observation, blobs: Blobs, key: Key)
    requires o.hash in blobs
    ensures var es := EventsOfKey(EventOf(prev, o, blobs, None), key);
            if o.key == key && prev.Some? && prev.value.hash != o.hash
            then |es| == 1 && es[0].fromHash == prev.value.hash && es[0].toHash == o.hash
            else es == []
  {
    var es := EventOf(prev, o, blobs, None);
    if es != [] { assert es[..0] == []; }
  }
}
