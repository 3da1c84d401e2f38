// The tables behind the collector: blobs, observations and sweep runs.
module ConfigStore {
  import opened Wrappers
  import opened ObservationLog
  import opened SweepRuns

  // The entities with at least one row under a run.
  function Done(log: seq<Observation>, run: nat): set<Entity> {
    set i | 0 <= i < |log| && log[i].run == Some(run) :: log[i].key.entity
  }

  class Store {
    const clock: nat -> int
    const h: string -> Hash

    var blobs: Blobs
    var log: seq<Observation>
    var ticks: nat
    var runs: seq<SweepRun>

    constructor (clock: nat -> int, h: string -> Hash)
      ensures this.clock == clock && this.h == h
      ensures Contents() == State(map[], [], 0) && runs == []
    {
      this.clock, this.h := clock, h;
      blobs, log, ticks, runs := map[], [], 0, [];
    }

    function Contents(): State
      reads this`blobs, this`log, this`ticks
    {
      State(blobs, log, ticks)
    }

    // A blob is stored under a new hash only; an existing one is left alone.
    method UpsertBlob(hash: Hash, text: string) returns (inserted: bool)
      modifies this`blobs
      ensures blobs == Upsert(old(blobs), hash, text)
      ensures inserted <==> hash !in old(blobs)
    {
      inserted := hash !in blobs;
      if inserted {
        blobs := blobs[hash := text];
      }
    }

    method InsertObservationIfChanged(
      key: Key, hash: Hash, source: Source, changeEvent: Option<nat>, run: Option<nat>,
      nameHint: Option<string>, enabledHint: Option<bool>) returns (wrote: bool)
      modifies this`log, this`ticks
      ensures var o := Observation(key, hash, clock(old(ticks)), source, changeEvent, run, nameHint, enabledHint);
              wrote == Inserts(old(log), o) && log == InsertIfChanged(old(log), o)
      ensures ticks == old(ticks) + 1
    {
      var now := clock(ticks);
      ticks := ticks + 1;
      if !AlwaysWrites(source) {
        var latest := Latest(log, key);
        if latest.Some? && latest.value.hash == hash {
          return false;
        }
      }
      log := log + [Observation(key, hash, now, source, changeEvent, run, nameHint, enabledHint)];
      wrote := true;
    }

    // The store part of one pull: nothing else runs between the blob and the row.
    method StorePulled(source: Source, key: Key, doc: Doc, changeEvent: Option<nat>,
        run: Option<nat>) returns (wrote: bool)
      modifies this`blobs, this`log, this`ticks
      ensures Contents() == Apply(old(Contents()), Pull(source, key, doc, changeEvent, run), clock, h)
      ensures |log| == |old(log)| + if wrote then 1 else 0
    {
      var _ := UpsertBlob(h(doc.text), doc.text);
      wrote := InsertObservationIfChanged(key, h(doc.text), source, changeEvent, run, doc.nameHint, doc.enabledHint);
    }

    // The store part of one anti-drift check.
    method StoreSwept(key: Key, doc: Doc, run: Option<nat>)
      modifies this`blobs, this`log, this`ticks
      ensures Contents() == Apply(old(Contents()), Sweep(key, doc, run), clock, h)
      ensures |log| == |old(log)| + 1
    {
      var _ := UpsertBlob(h(doc.text), doc.text);
      var latest := Latest(log, key);
      var source := if latest.Some? && latest.value.hash == h(doc.text) then AntiDriftConfirm else AntiDriftDiscrepancy;
      var _ := InsertObservationIfChanged(key, h(doc.text), source, None, run, doc.nameHint, doc.enabledHint);
    }

    method CreateSweepRun(org: string, kind: Kind, total: Option<nat>) returns (id: nat)
      modifies this`runs
      ensures id == |old(runs)| && runs == Created(old(runs), org, kind, total)
    {
      id := |runs|;
      runs := runs + [SweepRun(org, kind, Queued, total, 0, 0)];
    }

    method MarkSweep(id: nat, status: Status)
      modifies this`runs
      ensures runs == WithStatus(old(runs), id, status)
    {
      if id < |runs| {
        runs := runs[id := runs[id].(status := status)];
      }
    }

    method UpdateSweepTotalCalls(id: nat, total: nat)
      modifies this`runs
      ensures runs == WithTotal(old(runs), id, total)
    {
      if id < |runs| {
        runs := runs[id := runs[id].(total := Some(total))];
      }
    }

    method IncrementSweepCounters(id: nat, completed: nat, failed: nat)
      modifies this`runs
      ensures IsCounted(runs, old(runs), id, completed, failed)
    {
      if id < |runs| {
        var r := runs[id];
        runs := runs[id := r.(completed := r.completed + completed, failed := r.failed + failed)];
      }
    }
  }
}
