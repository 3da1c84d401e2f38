// When an organisation can come to have two active baseline runs.
module BaselineRuns {
  import opened Wrappers
  import opened SweepRuns
  import opened SweepProtocol

  predicate BaselineRow(runs: seq<SweepRun>, i: nat, org: string) {
    i < |runs| && runs[i].kind.BaselineSweep? && runs[i].org == org
  }

  ghost predicate Enumerates(w: World, i: nat) {
    exists t :: t in w.tasks && w.tasks[t].run == i && w.tasks[t].phase.Enumerating?
  }

  // The run is active, or a task will set it running.
  ghost predicate Hot(w: World, i: nat, org: string) {
    BaselineRow(w.runs, i, org) && (IsActive(w.runs[i]) || Enumerates(w, i))
  }

  ghost predicate OneHot(w: World, org: string) {
    forall i: nat, j: nat :: Hot(w, i, org) && Hot(w, j, org) ==> i == j
  }

  ghost predicate TwoActive(w: World, org: string) {
    exists i: nat, j: nat :: i < j && ActiveBaseline(w.runs, i, org) && ActiveBaseline(w.runs, j, org)
  }

  predicate ActiveBaseline(runs: seq<SweepRun>, i: nat, org: string) {
    BaselineRow(runs, i, org) && IsActive(runs[i])
  }

  // No live task works on a baseline run of the organisation.
  ghost predicate Idle(w: World, org: string) {
    forall t :: t in w.tasks ==> !BaselineRow(w.runs, w.tasks[t].run, org)
  }

  // ----- what a step does to hot runs -----

  // Without a start of a baseline of the organisation, only hot runs stay hot.
  lemma NotHeated(w: World, s: Step, i: nat, org: string)
    requires Inv(w) && s != StartBaseline(org) && Hot(Next(w, s), i, org)
    ensures Hot(w, i, org)
  {
    match s
    case StartSweep(o) => HeatedByStart(w, s, i, org);
    case StartBaseline(o) => HeatedByStart(w, s, i, org);
    case Restart(resume) => HeatedByRestart(w, resume, i, org);
    case _ =>
      if Enabled(w, s) { HeatedByTask(w, s, i, org); }
  }

  lemma HeatedByStart(w: World, s: Step, i: nat, org: string)
    requires Inv(w) && s != StartBaseline(org) && (s.StartSweep? || s.StartBaseline?) && Hot(Next(w, s), i, org)
    ensures Hot(w, i, org)
  {
    if s.StartBaseline? { ActiveMeans(w.runs, s.org, BaselineSweep); }
    if !IsActive(Next(w, s).runs[i]) {
      var t :| t in Next(w, s).tasks && Next(w, s).tasks[t].run == i && Next(w, s).tasks[t].phase.Enumerating?;
      if t in w.tasks && t != w.next { assert w.tasks[t].run == i && w.tasks[t].phase.Enumerating?; }
    }
  }

  lemma HeatedByRestart(w: World, resume: bool, i: nat, org: string)
    requires Inv(w) && Hot(Next(w, Restart(resume)), i, org)
    ensures Hot(w, i, org)
  {
    assert forall t :: t in Resumed(w) ==> Resumes(w, t) && Resumed(w)[t].run == t - w.next;
  }

  lemma HeatedByTask(w: World, s: Step, i: nat, org: string)
    requires Inv(w) && ByTask(s) && Enabled(w, s) && Hot(Next(w, s), i, org)
    ensures Hot(w, i, org)
  {
    var after := Next(w, s);
    TaskStep(w, s, i);
    if Enumerates(after, i) {
      var t :| t in after.tasks && after.tasks[t].run == i && after.tasks[t].phase.Enumerating?;
      assert t in w.tasks && w.tasks[t].run == i && w.tasks[t].phase.Enumerating?;
    } else if !IsActive(w.runs[i]) {
      assert w.tasks[s.task].run == i && w.tasks[s.task].phase.Enumerating?;
    }
  }

  // A task keeps the owners of rows, wakes a row only when it has enumerated, and makes no
  // task enumerate.
  lemma TaskStep(w: World, s: Step, i: nat)
    requires Inv(w) && ByTask(s) && Enabled(w, s) && i < |Next(w, s).runs|
    ensures i < |w.runs| && Next(w, s).runs[i].kind == w.runs[i].kind && Next(w, s).runs[i].org == w.runs[i].org
    ensures IsActive(Next(w, s).runs[i]) && !IsActive(w.runs[i]) ==> s.Enumerated? && w.tasks[s.task].run == i
    ensures forall t :: t in Next(w, s).tasks && Next(w, s).tasks[t].phase.Enumerating? ==>
              t in w.tasks && w.tasks[t] == Next(w, s).tasks[t]
  {
    if i != w.tasks[s.task].run && i < |w.runs| { OtherRows(w, s, i); }
  }

  // A start made while no task works on the organisation's baselines leaves one hot run.
  lemma IdleStart(w: World, org: string)
    requires Inv(w) && OneHot(w, org) && Idle(w, org)
    ensures OneHot(Next(w, StartBaseline(org)), org)
  {
    var after := Next(w, StartBaseline(org));
    ActiveMeans(w.runs, org, BaselineSweep);
    var active := Active(w.runs, org, BaselineSweep);
    var started := if active.Some? then active.value else |w.runs|;
    forall i: nat | Hot(after, i, org) ensures i == started {
      if Enumerates(after, i) {
        var t :| t in after.tasks && after.tasks[t].run == i && after.tasks[t].phase.Enumerating?;
        if t != w.next { assert t in w.tasks && !BaselineRow(w.runs, w.tasks[t].run, org); }
      } else if i < |w.runs| {
        assert Hot(w, i, org);
        if active.Some? { assert Hot(w, started, org); }
      }
    }
  }

  // ----- one active baseline, as long as starts are careful -----

  // Every start of a baseline of the organisation happens while none of its baselines has a
  // live task.
  ghost predicate Careful(w: World, steps: seq<Step>, org: string) {
    forall k :: 0 <= k < |steps| && steps[k] == StartBaseline(org) ==> Idle(After(w, steps[..k]), org)
  }

  lemma {:induction false} CarefulKeepsOne(w: World, steps: seq<Step>, org: string)
    requires Inv(w) && OneHot(w, org) && Careful(w, steps, org)
    ensures Inv(After(w, steps)) && OneHot(After(w, steps), org)
  {
    if steps != [] {
      var n := |steps| - 1;
      var front, s := steps[..n], steps[n];
      assert Careful(w, front, org) by {
        forall k | 0 <= k < |front| && front[k] == StartBaseline(org) ensures Idle(After(w, front[..k]), org) {
          assert steps[k] == front[k] && front[..k] == steps[..k];
        }
      }
      CarefulKeepsOne(w, front, org);
      StepKeepsInv(After(w, front), s);
      if s == StartBaseline(org) {
        IdleStart(After(w, front), org);
      } else {
        forall i: nat | Hot(After(w, steps), i, org) ensures Hot(After(w, front), i, org) {
          NotHeated(After(w, front), s, i, org);
        }
      }
    }
  }

  // With careful starts an organisation never has two active baseline runs.
  lemma OneBaseline(steps: seq<Step>, org: string)
    requires Careful(START, steps, org)
    ensures !TwoActive(After(START, steps), org)
  {
    CarefulKeepsOne(START, steps, org);
    var w := After(START, steps);
    forall i: nat, j: nat | i < j && ActiveBaseline(w.runs, i, org) && ActiveBaseline(w.runs, j, org) ensures false {
      assert Hot(w, i, org) && Hot(w, j, org);
    }
  }

  // ----- exactly when there can be two -----

  ghost predicate NoStart(steps: seq<Step>, org: string) {
    forall k :: 0 <= k < |steps| ==> steps[k] != StartBaseline(org)
  }

  ghost predicate CanDouble(w: World, org: string) {
    exists steps :: NoStart(steps, org) && TwoActive(After(w, steps), org)
  }

  // The run is active or becomes so by one step of its task, which leaves other runs hot.
  lemma Wake(w: World, i: nat, j: nat, org: string) returns (steps: seq<Step>)
    requires Inv(w) && i != j && Hot(w, i, org) && Hot(w, j, org)
    ensures NoStart(steps, org) && Inv(After(w, steps))
    ensures ActiveBaseline(After(w, steps).runs, i, org) && Hot(After(w, steps), j, org)
    ensures ActiveBaseline(w.runs, j, org) ==> ActiveBaseline(After(w, steps).runs, j, org)
  {
    if IsActive(w.runs[i]) {
      return [];
    }
    var t :| t in w.tasks && w.tasks[t].run == i && w.tasks[t].phase.Enumerating?;
    var s := Enumerated(t, 0, 0);
    AfterNext(w, [], s);
    steps := [] + [s];
    StepKeepsInv(w, s);
    Woken(w, t, j, org);
  }

  lemma Woken(w: World, t: nat, j: nat, org: string)
    requires Inv(w) && Enabled(w, Enumerated(t, 0, 0)) && w.tasks[t].run != j
    requires BaselineRow(w.runs, w.tasks[t].run, org) && Hot(w, j, org)
    ensures ActiveBaseline(Next(w, Enumerated(t, 0, 0)).runs, w.tasks[t].run, org)
    ensures Hot(Next(w, Enumerated(t, 0, 0)), j, org)
    ensures ActiveBaseline(w.runs, j, org) ==> ActiveBaseline(Next(w, Enumerated(t, 0, 0)).runs, j, org)
  {
    var after := Next(w, Enumerated(t, 0, 0));
    OtherRows(w, Enumerated(t, 0, 0), j);
    if Enumerates(w, j) {
      var u :| u in w.tasks && w.tasks[u].run == j && w.tasks[u].phase.Enumerating?;
      assert u in after.tasks && after.tasks[u] == w.tasks[u];
    }
  }

  // Without a further start two active baseline runs can be reached exactly if two runs are
  // each active or being enumerated.
  lemma DoubleExactly(w: World, org: string)
    requires Inv(w)
    ensures CanDouble(w, org) <==> !OneHot(w, org)
  {
    if !OneHot(w, org) {
      var i: nat, j: nat :| Hot(w, i, org) && Hot(w, j, org) && i != j;
      HotDouble(w, i, j, org);
    } else {
      forall steps | NoStart(steps, org) ensures !TwoActive(After(w, steps), org) {
        assert Careful(w, steps, org);
        CarefulKeepsOne(w, steps, org);
        var after := After(w, steps);
        forall i: nat, j: nat | i < j && ActiveBaseline(after.runs, i, org) && ActiveBaseline(after.runs, j, org) ensures false {
          assert Hot(after, i, org) && Hot(after, j, org);
        }
      }
    }
  }

  lemma HotDouble(w: World, i: nat, j: nat, org: string)
    requires Inv(w) && i != j && Hot(w, i, org) && Hot(w, j, org)
    ensures CanDouble(w, org)
  {
    var x := Wake(w, i, j, org);
    var mid := After(w, x);
    assert Hot(mid, i, org);
    var y := Wake(mid, j, i, org);
    AfterConcat(w, x, y);
    assert NoStart(x + y, org) by {
      forall k | 0 <= k < |x + y| ensures (x + y)[k] != StartBaseline(org) {
        if k >= |x| { assert (x + y)[k] == y[k - |x|]; }
      }
    }
    var a, b := if i < j then i else j, if i < j then j else i;
    assert ActiveBaseline(After(w, x + y).runs, a, org) && ActiveBaseline(After(w, x + y).runs, b, org);
  }

  // Three starts can get there: every call launches a task, and one that is slow to
  // enumerate sets its run running again after another task has completed it.
  lemma BaselinesCanDouble(org: string) returns (steps: seq<Step>)
    ensures TwoActive(After(START, steps), org)
  {
    steps := TwoTasks(org);
    steps := OneCompletes(steps, After(START, steps));
    AfterNext(START, steps, StartBaseline(org));
    steps := steps + [StartBaseline(org)];
    AfterNext(START, steps, Enumerated(1, 0, 0));
    steps := steps + [Enumerated(1, 0, 0)];
    var runs := After(START, steps).runs;
    assert ActiveBaseline(runs, 0, org) && ActiveBaseline(runs, 1, org);
  }

  lemma TwoTasks(org: string) returns (steps: seq<Step>)
    ensures After(START, steps) == World([SweepRun(org, BaselineSweep, Queued, None, 0, 0)],
              map[0 := Live(0, BaselineBody, Enumerating), 1 := Live(0, BaselineBody, Enumerating)], 2)
  {
    AfterNext(START, [], StartBaseline(org));
    steps := [] + [StartBaseline(org)];
    assert After(START, steps).runs == [SweepRun(org, BaselineSweep, Queued, None, 0, 0)];
    AfterNext(START, steps, StartBaseline(org));
    steps := steps + [StartBaseline(org)];
  }

  lemma OneCompletes(before: seq<Step>, w: World) returns (steps: seq<Step>)
    requires After(START, before) == w && |w.runs| == 1 && w.next == 2 && w.runs[0].kind.BaselineSweep?
    requires w.tasks == map[0 := Live(0, BaselineBody, Enumerating), 1 := Live(0, BaselineBody, Enumerating)]
    ensures After(START, steps) == World([w.runs[0].(status := Complete, total := Some(0))], map[1 := w.tasks[1]], 2)
  {
    AfterNext(START, before, Enumerated(0, 0, 0));
    steps := before + [Enumerated(0, 0, 0)];
    AfterNext(START, steps, Finished(0));
    steps := steps + [Finished(0)];
    AfterNext(START, steps, Reported(0));
    steps := steps + [Reported(0)];
  }
}
