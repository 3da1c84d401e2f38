// The two readers of a history of any length: the timeline looks at the newest rows only,
// the query at all of them.
module LongTimeline {
  import opened Wrappers
  import opened ObservationLog
  import opened JobKeys
  import opened Timeline

  // Where the newest rows begin.
  function Start(rows: seq<Observation>): nat {
    if |rows| <= LIMIT then 0 else |rows| - LIMIT
  }

  // The change that row k makes against the last row of its slot, if there is one.
  function RowChange(rows: seq<Observation>, k: nat): (r: seq<Change>)
    requires k < |rows|
    ensures |r| <= 1
  {
    EntryChange(EntryAfter(rows[..k], rows[k]))
  }

  predicate HasSlot(rows: seq<Observation>, slot: Slot) {
    exists i :: 0 <= i < |rows| && SlotOf(rows[i]) == slot
  }

  // Row k is one of the rows from start on, and so is its predecessor.
  predicate InView(rows: seq<Observation>, start: nat, k: nat)
    requires k < |rows|
  {
    start <= k && HasSlot(rows[start..k], SlotOf(rows[k]))
  }

  // The changes of the first n rows that are in view.
  function ChangesInView(rows: seq<Observation>, start: nat, n: nat): seq<Change>
    requires n <= |rows|
  {
    if n == 0 then []
    else ChangesInView(rows, start, n - 1) + Visible(rows, start, n - 1)
  }

  function Visible(rows: seq<Observation>, start: nat, k: nat): (r: seq<Change>)
    requires k < |rows|
    ensures |r| <= 1
  {
    if InView(rows, start, k) then RowChange(rows, k) else []
  }

  // The last row of a slot, looked for among the newer rows, is its last row or not there.
  lemma {:induction false} LastSince(older: seq<Observation>, newer: seq<Observation>, slot: Slot)
    ensures LastIn(newer, slot) == if HasSlot(newer, slot) then LastIn(older + newer, slot) else None
  {
    if newer != [] {
      var front, o := newer[..|newer| - 1], newer[|newer| - 1];
      assert newer == front + [o] && older + newer == (older + front) + [o];
      LastInNext(front, o, slot);
      LastInNext(older + front, o, slot);
      LastSince(older, front, slot);
      HasSlotNext(front, o, slot);
    }
  }

  lemma HasSlotNext(rows: seq<Observation>, o: Observation, slot: Slot)
    ensures HasSlot(rows + [o], slot) <==> HasSlot(rows, slot) || SlotOf(o) == slot
  {
    var more := rows + [o];
    assert more[|rows|] == o;
    if HasSlot(rows, slot) {
      var i :| 0 <= i < |rows| && SlotOf(rows[i]) == slot;
      assert more[i] == rows[i];
    }
  }

  // The timeline of the rows from a start on marks the changes in view.
  lemma {:induction false} TimelineInView(rows: seq<Observation>, start: nat, n: nat, window: seq<Observation>)
    requires start <= n <= |rows| && window == rows[start..n]
    ensures MarkedIn(EntriesOf(window)) == ChangesInView(rows, start, n)
    decreases n
  {
    if n == start {
      NothingBefore(rows, start, n);
    } else {
      var front := rows[start..n - 1];
      TimelineInView(rows, start, n - 1, front);
      MarkedOneMore(rows, start, n - 1, front, window);
    }
  }

  lemma MarkedOneMore(rows: seq<Observation>, start: nat, k: nat, front: seq<Observation>, window: seq<Observation>)
    requires start <= k < |rows| && front == rows[start..k] && window == rows[start..k + 1]
    ensures MarkedIn(EntriesOf(window)) == MarkedIn(EntriesOf(front)) + Visible(rows, start, k)
  {
    assert window == front + [rows[k]];
    EntriesNext(front, rows[k]);
    EntryInView(rows, start, k);
  }

  lemma EntryInView(rows: seq<Observation>, start: nat, k: nat)
    requires start <= k < |rows|
    ensures EntryChange(EntryAfter(rows[start..k], rows[k])) == Visible(rows, start, k)
  {
    LastSince(rows[..start], rows[start..k], SlotOf(rows[k]));
    assert rows[..start] + rows[start..k] == rows[..k];
  }

  lemma {:induction false} NothingBefore(rows: seq<Observation>, start: nat, n: nat)
    requires n <= start && n <= |rows|
    ensures ChangesInView(rows, start, n) == []
  {
    if n > 0 { NothingBefore(rows, start, n - 1); }
  }

  // Row k is no change or in view.
  ghost predicate NotHidden(rows: seq<Observation>, start: nat, k: nat)
    requires k < |rows|
  {
    RowChange(rows, k) == [] || InView(rows, start, k)
  }

  // The first n rows have no change out of view.
  ghost predicate NoneHidden(rows: seq<Observation>, start: nat, n: nat)
    requires n <= |rows|
  {
    forall k :: 0 <= k < n ==> NotHidden(rows, start, k)
  }

  // All changes are in view from the first row.
  lemma FirstView(rows: seq<Observation>, k: nat)
    requires k < |rows|
    ensures NotHidden(rows, 0, k)
  {
    EntryInView(rows, 0, k);
    assert rows[0..k] == rows[..k];
  }

  // x is a part of y, and all of it exactly if `all` says so.
  ghost predicate PartOf(x: seq<Change>, y: seq<Change>, all: bool) {
    |x| <= |y| && (all ==> x == y) && (|x| == |y| ==> all)
  }

  lemma PartsConcat(x: seq<Change>, y: seq<Change>, all: bool, x': seq<Change>, y': seq<Change>, all': bool)
    requires PartOf(x, y, all) && PartOf(x', y', all')
    ensures PartOf(x + x', y + y', all && all')
  {}

  lemma VisiblePart(rows: seq<Observation>, start: nat, k: nat)
    requires k < |rows|
    ensures PartOf(Visible(rows, start, k), Visible(rows, 0, k), NotHidden(rows, start, k))
  {
    FirstView(rows, k);
  }

  lemma OneMoreVisible(rows: seq<Observation>, start: nat, k: nat, x: seq<Change>, y: seq<Change>, all: bool)
    requires k < |rows| && PartOf(x, y, all)
    ensures PartOf(x + Visible(rows, start, k), y + Visible(rows, 0, k), all && NotHidden(rows, start, k))
  {
    VisiblePart(rows, start, k);
    PartsConcat(x, y, all, Visible(rows, start, k), Visible(rows, 0, k), NotHidden(rows, start, k));
  }

  lemma {:induction false} ViewExactly(rows: seq<Observation>, start: nat, n: nat)
    requires n <= |rows|
    ensures PartOf(ChangesInView(rows, start, n), ChangesInView(rows, 0, n), NoneHidden(rows, start, n))
  {
    if n > 0 {
      ViewExactly(rows, start, n - 1);
      ViewStep(rows, start, n);
    } else {
      ViewNone(rows, start);
    }
  }

  lemma ViewStep(rows: seq<Observation>, start: nat, n: nat)
    requires 0 < n <= |rows|
    requires PartOf(ChangesInView(rows, start, n - 1), ChangesInView(rows, 0, n - 1), NoneHidden(rows, start, n - 1))
    ensures PartOf(ChangesInView(rows, start, n), ChangesInView(rows, 0, n), NoneHidden(rows, start, n))
  {
    var x, y := ChangesInView(rows, start, n - 1), ChangesInView(rows, 0, n - 1);
    OneMoreVisible(rows, start, n - 1, x, y, NoneHidden(rows, start, n - 1));
    NoneHiddenNext(rows, start, n - 1);
  }

  lemma ViewNone(rows: seq<Observation>, start: nat)
    ensures PartOf(ChangesInView(rows, start, 0), ChangesInView(rows, 0, 0), NoneHidden(rows, start, 0))
  {}

  lemma NoneHiddenNext(rows: seq<Observation>, start: nat, n: nat)
    requires n < |rows|
    ensures NoneHidden(rows, start, n + 1) <==> NoneHidden(rows, start, n) && NotHidden(rows, start, n)
  {}

  // For a history of any length that the writers' jobs can produce, the query selects all
  // changes, the timeline marks those whose row and predecessor are both among the newest,
  // and so the two agree exactly when no other row is a change.
  lemma LongReaders(ws: seq<Write>, clock: nat -> int, h: string -> Hash, org: string, entityType: string, entityId: string)
    requires Increasing(clock) && forall i :: 0 <= i < |ws| ==> PullLabel(ws[i]) && WellKeyed(ws[i].key)
    ensures var s := Run(State(map[], [], 0), ws, clock, h);
            var rows := EntityRows(s.log, org, entityType, entityId);
            var marked, selected := MarkedIn(EntriesOf(Newest(rows))), EventsFor(EventsOf(s.log, s.blobs, None), org, entityType, entityId);
            && selected == ChangesInView(rows, 0, |rows|)
            && marked == ChangesInView(rows, Start(rows), |rows|)
            && (marked == selected <==> NoneHidden(rows, Start(rows), |rows|))
  {
    var s := Run(State(map[], [], 0), ws, clock, h);
    RunKeepsGood(State(map[], [], 0), ws, clock, h);
    WrittenKeyed(State(map[], [], 0), ws, clock, h);
    KeyedReaders(s.log, s.blobs, org, entityType, entityId);
  }

  lemma KeyedReaders(log: seq<Observation>, blobs: Blobs, org: string, entityType: string, entityId: string)
    requires Stored(log, blobs) && Keyed(log)
    ensures var rows := EntityRows(log, org, entityType, entityId);
            var marked, selected := MarkedIn(EntriesOf(Newest(rows))), EventsFor(EventsOf(log, blobs, None), org, entityType, entityId);
            && selected == ChangesInView(rows, 0, |rows|)
            && marked == ChangesInView(rows, Start(rows), |rows|)
            && (marked == selected <==> NoneHidden(rows, Start(rows), |rows|))
  {
    var rows := EntityRows(log, org, entityType, entityId);
    KeyedNoMerge(log, org, entityType, entityId);
    NoMergeAgrees(log, blobs, org, entityType, entityId);
    AllInView(rows);
    NewestInView(rows);
    ViewExactly(rows, Start(rows), |rows|);
  }

  lemma AllInView(rows: seq<Observation>)
    ensures MarkedIn(EntriesOf(rows)) == ChangesInView(rows, 0, |rows|)
  {
    TimelineInView(rows, 0, |rows|, rows);
  }

  lemma NewestIs(rows: seq<Observation>)
    ensures Newest(rows) == rows[Start(rows)..|rows|]
  {}

  lemma NewestInView(rows: seq<Observation>)
    ensures MarkedIn(EntriesOf(Newest(rows))) == ChangesInView(rows, Start(rows), |rows|)
  {
    NewestIs(rows);
    TimelineInView(rows, Start(rows), |rows|, Newest(rows));
  }
}
