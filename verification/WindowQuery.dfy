// What changed between two times, by ranking the observations of each key twice.
module WindowQuery {
  import opened Wrappers
  import opened ObservationLog

  // ----- ROW_NUMBER() OVER (PARTITION BY key ORDER BY late or not, time descending) -----

  // Row i comes before row j in the ranking of their key for time t.
  predicate Ahead(log: seq<Observation>, i: nat, j: nat, t: int)
    requires i < |log| && j < |log|
  {
    && log[i].key == log[j].key
    && (if (log[i].time <= t) == (log[j].time <= t) then log[i].time > log[j].time else log[i].time <= t)
  }

  // How many of the first n rows come before row i; row i is number Before + 1.
  function Before(log: seq<Observation>, n: nat, i: nat, t: int): nat
    requires n <= |log| && i < |log|
  {
    if n == 0 then 0 else Before(log, n - 1, i, t) + if Ahead(log, n - 1, i, t) then 1 else 0
  }

  function RowNumber(log: seq<Observation>, i: nat, t: int): nat
    requires i < |log|
  {
    Before(log, |log|, i, t) + 1
  }

  lemma {:induction false} BeforeNone(log: seq<Observation>, n: nat, i: nat, t: int)
    requires n <= |log| && i < |log|
    ensures Before(log, n, i, t) == 0 <==> forall j :: 0 <= j < n ==> !Ahead(log, j, i, t)
  {
    if n > 0 { BeforeNone(log, n - 1, i, t); }
  }

  // The snapshot at t: the first row of each key, unless it is later than t.
  predicate InSnapshot(log: seq<Observation>, i: nat, t: int) {
    i < |log| && RowNumber(log, i, t) == 1 && log[i].time <= t
  }

  // The ranking picks for each key the row that AsOf shows.
  lemma SnapshotIsAsOf(log: seq<Observation>, i: nat, t: int)
    requires InTimeOrder(log) && i < |log|
    ensures InSnapshot(log, i, t) <==> AsOf(log, log[i].key, t) == Some(log[i])
  {
    BeforeNone(log, |log|, i, t);
    AsOfMeans(log, log[i].key, t, log[i]);
    if InSnapshot(log, i, t) {
      forall j | 0 <= j < |log| && log[j].key == log[i].key && log[j].time <= t ensures log[j].time <= log[i].time {
        assert !Ahead(log, j, i, t);
      }
    }
  }

  // ----- to_snap LEFT JOIN from_snap -----

  datatype WindowRow = WindowRow(key: Key, fromHash: Option<Hash>, toHash: Hash)

  // Row i of the snapshot at `to` is joined with row j of the snapshot at `start`.
  predicate Joins(log: seq<Observation>, i: nat, j: nat, start: int) {
    i < |log| && InSnapshot(log, j, start) && log[j].key == log[i].key
  }

  function FromRows(log: seq<Observation>, i: nat, start: int): set<nat>
    requires i < |log|
  {
    set j: nat | j < |log| && Joins(log, i, j, start)
  }

  ghost predicate Selected(log: seq<Observation>, org: string, start: int, to: int, r: WindowRow) {
    exists i: nat :: InSnapshot(log, i, to) && Selects(log, org, start, i, r)
  }

  // The row the query returns for row i of the later snapshot.
  ghost predicate Selects(log: seq<Observation>, org: string, start: int, i: nat, r: WindowRow) {
    && i < |log| && r.key == log[i].key && r.key.org == org && r.toHash == log[i].hash
    && (match r.fromHash
        case None => FromRows(log, i, start) == {}
        case Some(f) => f != r.toHash && exists j: nat :: Joins(log, i, j, start) && log[j].hash == f)
  }

  lemma {:induction false} AsOfAt(log: seq<Observation>, key: Key, t: int) returns (i: nat)
    requires AsOf(log, key, t).Some?
    ensures i < |log| && AsOf(log, key, t) == Some(log[i]) && log[i].key == key
  {
    var n := |log| - 1;
    if log[n].key == key && log[n].time <= t {
      i := n;
    } else {
      i := AsOfAt(log[..n], key, t);
    }
  }

  // The join finds exactly the row that the earlier snapshot shows.
  lemma JoinIsAsOf(log: seq<Observation>, i: nat, start: int)
    requires InTimeOrder(log) && i < |log|
    ensures FromRows(log, i, start) == {} <==> AsOf(log, log[i].key, start) == None
    ensures forall j: nat :: Joins(log, i, j, start) ==> AsOf(log, log[i].key, start) == Some(log[j])
    ensures AsOf(log, log[i].key, start).Some? ==> exists j: nat :: Joins(log, i, j, start)
  {
    forall j: nat | Joins(log, i, j, start) ensures AsOf(log, log[i].key, start) == Some(log[j]) {
      SnapshotIsAsOf(log, j, start);
    }
    if AsOf(log, log[i].key, start).Some? {
      var j := AsOfAt(log, log[i].key, start);
      SnapshotIsAsOf(log, j, start);
      assert Joins(log, i, j, start) && j in FromRows(log, i, start);
    }
  }

  // A key's hash as of a time.
  function HashAt(log: seq<Observation>, key: Key, t: int): Option<Hash> {
    HashOf(AsOf(log, key, t))
  }

  lemma SelectsMeans(log: seq<Observation>, org: string, start: int, to: int, i: nat, r: WindowRow)
    requires InTimeOrder(log) && InSnapshot(log, i, to) && r.key == log[i].key
    ensures Selects(log, org, start, i, r) <==>
            r.key.org == org && HashAt(log, r.key, to) == Some(r.toHash)
            && HashAt(log, r.key, start) == r.fromHash && r.fromHash != Some(r.toHash)
  {
    SnapshotIsAsOf(log, i, to);
    JoinIsAsOf(log, i, start);
    if r.fromHash.Some? && HashAt(log, r.key, start) == r.fromHash {
      var j: nat :| Joins(log, i, j, start);
      assert log[j].hash == r.fromHash.value;
    }
  }

  // The query returns exactly the keys whose hash as of `to` exists and differs from the
  // hash as of `start`, with both hashes; the times may come in either order.
  lemma WindowExactly(log: seq<Observation>, org: string, start: int, to: int, r: WindowRow)
    requires InTimeOrder(log)
    ensures Selected(log, org, start, to, r) <==>
            r.key.org == org && HashAt(log, r.key, to) == Some(r.toHash)
            && HashAt(log, r.key, start) == r.fromHash && r.fromHash != Some(r.toHash)
  {
    if Selected(log, org, start, to, r) {
      var i: nat :| InSnapshot(log, i, to) && Selects(log, org, start, i, r);
      SelectsMeans(log, org, start, to, i, r);
    }
    if r.key.org == org && HashAt(log, r.key, to) == Some(r.toHash)
       && HashAt(log, r.key, start) == r.fromHash && r.fromHash != Some(r.toHash) {
      var i := AsOfAt(log, r.key, to);
      SnapshotIsAsOf(log, i, to);
      SelectsMeans(log, org, start, to, i, r);
    }
  }

  // ----- snapshots and windows compose -----

  function KeysOf(log: seq<Observation>, org: string): set<Key> {
    set i | 0 <= i < |log| && log[i].key.org == org :: log[i].key
  }

  // The configuration of an organisation at a time.
  function Snapshot(log: seq<Observation>, org: string, t: int): map<Key, Hash> {
    map key | key in KeysOf(log, org) && HashAt(log, key, t).Some? :: HashAt(log, key, t).value
  }

  // The window's to_hash values by key.
  ghost function Window(log: seq<Observation>, org: string, start: int, to: int): map<Key, Hash> {
    map key | key in KeysOf(log, org) && HashAt(log, key, to).Some?
              && Selected(log, org, start, to, WindowRow(key, HashAt(log, key, start), HashAt(log, key, to).value))
      :: HashAt(log, key, to).value
  }

  lemma SnapshotMeans(log: seq<Observation>, org: string, t: int, key: Key)
    ensures key in Snapshot(log, org, t) <==> key.org == org && HashAt(log, key, t).Some?
    ensures key in Snapshot(log, org, t) ==> Snapshot(log, org, t)[key] == HashAt(log, key, t).value
  {
    if key.org == org && HashAt(log, key, t).Some? {
      var i := AsOfAt(log, key, t);
      assert log[i].key in KeysOf(log, org);
    }
  }

  lemma WindowMeans(log: seq<Observation>, org: string, start: int, to: int, key: Key)
    requires InTimeOrder(log)
    ensures key in Window(log, org, start, to) <==>
            key.org == org && HashAt(log, key, to).Some? && HashAt(log, key, start) != HashAt(log, key, to)
    ensures key in Window(log, org, start, to) ==> Window(log, org, start, to)[key] == HashAt(log, key, to).value
  {
    if HashAt(log, key, to).Some? {
      WindowExactly(log, org, start, to, WindowRow(key, HashAt(log, key, start), HashAt(log, key, to).value));
      SnapshotMeans(log, org, to, key);
    }
  }

  // Overwriting the earlier snapshot with the window gives the later one, exactly when no
  // key of the earlier snapshot is missing from the later.
  lemma WindowRebuilds(log: seq<Observation>, org: string, start: int, to: int)
    requires InTimeOrder(log)
    ensures Snapshot(log, org, start) + Window(log, org, start, to) == Snapshot(log, org, to) <==>
            Snapshot(log, org, start).Keys <= Snapshot(log, org, to).Keys
  {
    var a, w, b := Snapshot(log, org, start), Window(log, org, start, to), Snapshot(log, org, to);
    forall key ensures key in w ==> key in b && w[key] == b[key]
               ensures key in b && key !in w ==> key in a && a[key] == b[key]
               ensures key in a && key in b && key !in w ==> a[key] == b[key] {
      SnapshotMeans(log, org, start, key);
      SnapshotMeans(log, org, to, key);
      WindowMeans(log, org, start, to, key);
    }
    if a.Keys <= b.Keys {
      assert (a + w).Keys == b.Keys;
      assert a + w == b;
    } else {
      assert a.Keys <= (a + w).Keys;
    }
  }

  lemma {:induction false} StaysShown(log: seq<Observation>, key: Key, start: int, to: int)
    requires start <= to && AsOf(log, key, start).Some?
    ensures AsOf(log, key, to).Some?
  {
    var n := |log| - 1;
    if !(log[n].key == key && log[n].time <= to) { StaysShown(log[..n], key, start, to); }
  }

  // With the times in order that is always so.
  lemma WindowsRebuildForward(log: seq<Observation>, org: string, start: int, to: int)
    requires InTimeOrder(log) && start <= to
    ensures Snapshot(log, org, start) + Window(log, org, start, to) == Snapshot(log, org, to)
  {
    forall key | key in Snapshot(log, org, start) ensures key in Snapshot(log, org, to) {
      SnapshotMeans(log, org, start, key);
      SnapshotMeans(log, org, to, key);
      StaysShown(log, key, start, to);
    }
    WindowRebuilds(log, org, start, to);
  }

  // Adjacent windows compose: two in a row bring a snapshot where one over both does.
  lemma WindowsCompose(log: seq<Observation>, org: string, a: int, b: int, c: int)
    requires InTimeOrder(log) && a <= b <= c
    ensures Snapshot(log, org, a) + Window(log, org, a, b) + Window(log, org, b, c)
            == Snapshot(log, org, a) + Window(log, org, a, c)
  {
    WindowsRebuildForward(log, org, a, b);
    WindowsRebuildForward(log, org, b, c);
    WindowsRebuildForward(log, org, a, c);
  }
}
