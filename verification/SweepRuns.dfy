// The table of sweep runs: rows are appended, their status and counters are updated.
module SweepRuns {
  import opened Wrappers

  datatype Kind = BaselineSweep | AntiDriftSweep

  datatype Status = Queued | Running | Complete | Failed

  datatype SweepRun = SweepRun(org: string, kind: Kind, status: Status, total: Option<nat>, completed: nat, failed: nat)

  predicate IsActive(r: SweepRun) {
    r.status.Queued? || r.status.Running?
  }

  // The most recent queued or running sweep of a kind for an organisation; a run is known
  // by its place in the table.
  function Active(runs: seq<SweepRun>, org: string, kind: Kind): (id: Option<nat>)
    ensures id.Some? ==> id.value < |runs|
  {
    if runs == [] then None
    else
      var n := |runs| - 1;
      if runs[n].org == org && runs[n].kind == kind && IsActive(runs[n]) then Some(n) else Active(runs[..n], org, kind)
  }

  lemma {:induction false} ActiveMeans(runs: seq<SweepRun>, org: string, kind: Kind)
    ensures Active(runs, org, kind) == None <==>
            forall i :: 0 <= i < |runs| && runs[i].org == org && runs[i].kind == kind ==> !IsActive(runs[i])
    ensures var id := Active(runs, org, kind);
            id.Some? ==> runs[id.value].org == org && runs[id.value].kind == kind && IsActive(runs[id.value])
    ensures var id := Active(runs, org, kind);
            id.Some? ==> forall i :: id.value < i < |runs| && runs[i].org == org && runs[i].kind == kind ==> !IsActive(runs[i])
  {
    if runs != [] { ActiveMeans(runs[..|runs| - 1], org, kind); }
  }

  function Created(runs: seq<SweepRun>, org: string, kind: Kind, total: Option<nat>): seq<SweepRun> {
    runs + [SweepRun(org, kind, Queued, total, 0, 0)]
  }

  // Updating one row by its id; nothing changes when there is no such row.
  function WithStatus(runs: seq<SweepRun>, id: nat, status: Status): seq<SweepRun> {
    if id < |runs| then runs[id := runs[id].(status := status)] else runs
  }

  function WithTotal(runs: seq<SweepRun>, id: nat, total: nat): seq<SweepRun> {
    if id < |runs| then runs[id := runs[id].(total := Some(total))] else runs
  }

  function Counted(runs: seq<SweepRun>, id: nat, completed: nat, failed: nat): seq<SweepRun> {
    if id < |runs|
    then runs[id := runs[id].(completed := runs[id].completed + completed, failed := runs[id].failed + failed)]
    else runs
  }

  ghost predicate IsCounted(now: seq<SweepRun>, was: seq<SweepRun>, id: nat, completed: nat, failed: nat) {
    now == Counted(was, id, completed, failed)
  }
}
