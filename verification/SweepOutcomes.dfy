// When an anti-drift run blocks later sweeps of its organisation, and whether that ends.
module SweepOutcomes {
  import opened Wrappers
  import opened SweepRuns
  import opened SweepProtocol

  // An active anti-drift run that no task works on.
  ghost predicate Untended(w: World, i: nat) {
    AntiDriftRow(w.runs, i) && IsActive(w.runs[i]) && forall t :: t in w.tasks ==> w.tasks[t].run != i
  }

  ghost predicate Abandoned(w: World, i: nat) {
    Untended(w, i) && w.runs[i].status.Queued?
  }

  // ----- how runs become untended -----

  // A task that dies leaves its anti-drift run abandoned exactly if the run is still queued,
  // that is, if enumeration was not over.
  lemma DiedAbandons(w: World, task: nat)
    requires Inv(w) && task in w.tasks && AntiDriftRow(w.runs, w.tasks[task].run)
    ensures Abandoned(Next(w, Died(task)), w.tasks[task].run) <==> w.runs[w.tasks[task].run].status.Queued?
    ensures Untended(Next(w, Died(task)), w.tasks[task].run) <==> !w.tasks[task].phase.Reporting?
  {
    assert TaskFits(w.runs, w.tasks[task]);
  }

  // A restart abandons exactly the queued anti-drift runs.
  lemma RestartAbandons(w: World, resume: bool, i: nat)
    requires Inv(w) && AntiDriftRow(w.runs, i)
    ensures Abandoned(Next(w, Restart(resume)), i) <==> w.runs[i].status.Queued?
    ensures !resume ==> (Untended(Next(w, Restart(resume)), i) <==> IsActive(w.runs[i]))
  {
    assert forall t :: t in Resumed(w) ==> Resumes(w, t) && Resumed(w)[t].run == t - w.next;
  }

  lemma AbandonedReached(org: string) returns (steps: seq<Step>)
    ensures Abandoned(After(START, steps), 0) && After(START, steps).runs[0].org == org
  {
    AfterNext(START, [], StartSweep(org));
    steps := [] + [StartSweep(org)];
    assert After(START, steps) == World([SweepRun(org, AntiDriftSweep, Queued, None, 0, 0)],
                                        map[0 := Live(0, AntiDriftBody, Enumerating)], 1);
    AfterNext(START, steps, Died(0));
    steps := steps + [Died(0)];
  }

  // ----- how long they block -----

  lemma UntendedStays(w: World, s: Step, i: nat)
    requires Inv(w) && Untended(w, i) && (w.runs[i].status.Queued? || s != Restart(true))
    ensures Untended(Next(w, s), i) && Next(w, s).runs[i] == w.runs[i]
  {
    match s
    case StartSweep(org) =>
    case StartBaseline(org) => ActiveMeans(w.runs, org, BaselineSweep);
    case Restart(_) =>
      assert forall t :: t in Resumed(w) ==> Resumes(w, t) && Resumed(w)[t].run == t - w.next;
    case _ =>
      if Enabled(w, s) { OtherRows(w, s, i); }
  }

  // No restart that resumes runs is among the steps.
  ghost predicate NoResume(steps: seq<Step>) {
    forall k :: 0 <= k < |steps| ==> steps[k] != Restart(true)
  }

  // An untended run blocks its organisation: every start of a sweep only returns it, until
  // a restart that resumes runs if it is running, and for good if it is queued.
  lemma {:induction false} UntendedBlocks(w: World, steps: seq<Step>, i: nat)
    requires Inv(w) && Untended(w, i) && (w.runs[i].status.Queued? || NoResume(steps))
    ensures var after := After(w, steps);
            Inv(after) && Untended(after, i) && after.runs[i] == w.runs[i]
            && Next(after, StartSweep(w.runs[i].org)) == after
            && Active(after.runs, w.runs[i].org, AntiDriftSweep) == Some(i)
  {
    if steps != [] {
      var front, s := steps[..|steps| - 1], steps[|steps| - 1];
      if !w.runs[i].status.Queued? {
        assert forall k :: 0 <= k < |front| ==> front[k] == steps[k];
      }
      UntendedBlocks(w, front, i);
      StepKeepsInv(After(w, front), s);
      UntendedStays(After(w, front), s, i);
    }
    OnlyActive(After(w, steps).runs, i);
  }

  lemma OnlyActive(runs: seq<SweepRun>, i: nat)
    requires AtMostOneActive(runs) && AntiDriftRow(runs, i) && IsActive(runs[i])
    ensures Active(runs, runs[i].org, AntiDriftSweep) == Some(i)
  {
    ActiveMeans(runs, runs[i].org, AntiDriftSweep);
    var id := Active(runs, runs[i].org, AntiDriftSweep).value;
    assert AntiDriftRow(runs, id);
  }

  // A sweep that dies while it enumerates leaves its row queued; nothing ever picks the row
  // up again, not even a restart.
  lemma AbandonedForGood(w: World, steps: seq<Step>, i: nat)
    requires Inv(w) && Abandoned(w, i)
    ensures var after := After(w, steps);
            Inv(after) && Abandoned(after, i) && Active(after.runs, w.runs[i].org, AntiDriftSweep) == Some(i)
            && Next(after, StartSweep(w.runs[i].org)) == after
  {
    UntendedBlocks(w, steps, i);
  }

  // ----- and when the way is free again -----

  ghost predicate Free(w: World, org: string) {
    Active(w.runs, org, AntiDriftSweep) == None
  }

  ghost predicate CanBeFree(w: World, org: string) {
    exists steps :: Free(After(w, steps), org)
  }

  lemma Later(w: World, s: Step, org: string)
    requires CanBeFree(Next(w, s), org)
    ensures CanBeFree(w, org)
  {
    var steps :| Free(After(Next(w, s), steps), org);
    AfterNext(w, [], s);
    assert [] + [s] == [s];
    AfterConcat(w, [s], steps);
    assert Free(After(w, [s] + steps), org);
  }

  // Closing the one active run frees the organisation.
  lemma RaisedFrees(w: World, task: nat)
    requires Inv(w) && Enabled(w, Raised(task)) && AntiDriftRow(w.runs, w.tasks[task].run)
    requires IsActive(w.runs[w.tasks[task].run])
    ensures CanBeFree(w, w.runs[w.tasks[task].run].org)
  {
    var i := w.tasks[task].run;
    var after := Next(w, Raised(task));
    assert after.runs == w.runs[i := w.runs[i].(status := Failed)];
    ActiveMeans(after.runs, w.runs[i].org, AntiDriftSweep);
    forall j | 0 <= j < |after.runs| && after.runs[j].org == w.runs[i].org && after.runs[j].kind == AntiDriftSweep
      ensures !IsActive(after.runs[j])
    {
      if j != i { assert AntiDriftRow(w.runs, i) && AntiDriftRow(w.runs, j); }
    }
    assert After(after, []) == after && Free(After(after, []), w.runs[i].org);
    Later(w, Raised(task), w.runs[i].org);
  }

  // A live task can close the run it works on.
  lemma TendedFrees(w: World, task: nat)
    requires Inv(w) && task in w.tasks && AntiDriftRow(w.runs, w.tasks[task].run)
    requires IsActive(w.runs[w.tasks[task].run])
    ensures CanBeFree(w, w.runs[w.tasks[task].run].org)
  {
    if w.tasks[task].phase.Enumerating? {
      var s := Enumerated(task, 0, 0);
      StepKeepsInv(w, s);
      RaisedFrees(Next(w, s), task);
      Later(w, s, w.runs[w.tasks[task].run].org);
    } else {
      RaisedFrees(w, task);
    }
  }

  // A restart gives a running run a task again.
  lemma ResumeFrees(w: World, i: nat)
    requires Inv(w) && AntiDriftRow(w.runs, i) && w.runs[i].status.Running?
    ensures CanBeFree(w, w.runs[i].org)
  {
    var s := Restart(true);
    StepKeepsInv(w, s);
    var task := w.next + i;
    assert Resumes(w, task) && task in Resumed(w) && Resumed(w)[task].run == i;
    TendedFrees(Next(w, s), task);
    Later(w, s, w.runs[i].org);
  }

  ghost predicate Blocked(w: World, org: string) {
    exists i: nat :: Abandoned(w, i) && w.runs[i].org == org
  }

  lemma ActiveFrees(w: World, i: nat)
    requires Inv(w) && AntiDriftRow(w.runs, i) && IsActive(w.runs[i]) && !Abandoned(w, i)
    ensures CanBeFree(w, w.runs[i].org)
  {
    if forall t :: t in w.tasks ==> w.tasks[t].run != i {
      ResumeFrees(w, i);
    } else {
      var task :| task in w.tasks && w.tasks[task].run == i;
      TendedFrees(w, task);
    }
  }

  // An organisation can still come to have no active anti-drift run exactly if none of its
  // runs is abandoned.
  lemma BlockedExactly(w: World, org: string)
    requires Inv(w)
    ensures CanBeFree(w, org) <==> !Blocked(w, org)
  {
    ActiveMeans(w.runs, org, AntiDriftSweep);
    if Blocked(w, org) {
      var i: nat :| Abandoned(w, i) && w.runs[i].org == org;
      forall steps ensures !Free(After(w, steps), org) { AbandonedForGood(w, steps, i); }
    } else if Free(w, org) {
      assert Free(After(w, []), org);
    } else {
      ActiveFrees(w, Active(w.runs, org, AntiDriftSweep).value);
    }
  }
}
