// Who starts, drives and ends sweep runs: REST calls, background tasks, failures and
// process restarts, in every interleaving.
module SweepProtocol {
  import opened Wrappers
  import opened SweepRuns
  import opened ConfigStore

  datatype Body = AntiDriftBody | BaselineBody

  // Working counts what has been done of the jobs left, on a row that had counted `base`
  // jobs before; Reporting is the last progress callback of a run marked complete.
  datatype Phase =
    | Enumerating
    | Working(total: nat, left: nat, base: nat, completed: nat, failed: nat)
    | Reporting

  datatype Live = Live(run: nat, body: Body, phase: Phase)

  datatype World = World(runs: seq<SweepRun>, tasks: map<nat, Live>, next: nat)

  datatype Step =
    | StartSweep(org: string)
    | StartBaseline(org: string)
    | Enumerated(task: nat, total: nat, left: nat)   // totals set, run marked running; what is left to do
    | Job(task: nat, ok: bool)                       // anti-drift: one job fetched or failed
    | Chunk(task: nat, completed: nat, failed: nat)  // baseline: one chunk counted
    | Finished(task: nat)                            // run marked complete
    | Reported(task: nat)                            // the last callback returned
    | Raised(task: nat)                              // caught, run marked failed
    | Died(task: nat)                                // not caught: enumeration failed, or cancelled
    | Restart(resume: bool)                          // all tasks are gone; running rows may be resumed

  function Spawn(w: World, runs: seq<SweepRun>, run: nat, body: Body): World {
    World(runs, w.tasks[w.next := Live(run, body, Enumerating)], w.next + 1)
  }

  function DoneBy(phase: Phase): nat {
    if phase.Working? then phase.completed + phase.failed else 0
  }

  function Work(w: World, task: nat, completed: nat, failed: nat): World
    requires task in w.tasks && w.tasks[task].phase.Working?
  {
    var live := w.tasks[task];
    var phase := live.phase.(completed := live.phase.completed + completed, failed := live.phase.failed + failed);
    w.(tasks := w.tasks[task := live.(phase := phase)])
  }

  function End(w: World, task: nat, runs: seq<SweepRun>): World {
    World(runs, w.tasks - {task}, w.next)
  }

  // An anti-drift sweep does every job again; a baseline leaves out those it has rows of.
  predicate Enabled(w: World, s: Step) {
    match s
    case Enumerated(task, total, left) =>
      task in w.tasks && w.tasks[task].phase.Enumerating? && left <= total && (w.tasks[task].body.AntiDriftBody? ==> left == total)
    case Job(task, _) =>
      task in w.tasks && w.tasks[task].body.AntiDriftBody? && w.tasks[task].phase.Working?
      && DoneBy(w.tasks[task].phase) < w.tasks[task].phase.left
    case Chunk(task, completed, failed) =>
      task in w.tasks && w.tasks[task].body.BaselineBody? && w.tasks[task].phase.Working?
      && DoneBy(w.tasks[task].phase) + completed + failed <= w.tasks[task].phase.left
    case Finished(task) => Ready(w, task)
    case Reported(task) => task in w.tasks && w.tasks[task].phase.Reporting?
    case Raised(task) => task in w.tasks && !w.tasks[task].phase.Enumerating?
    case Died(task) => task in w.tasks
    case StartSweep(_) => true
    case StartBaseline(_) => true
    case Restart(_) => true
  }

  // The loop over the jobs has ended.
  predicate Ready(w: World, task: nat) {
    task in w.tasks && w.tasks[task].phase.Working? && DoneBy(w.tasks[task].phase) == w.tasks[task].phase.left
  }

  // Anti-drift counts once, at the end; a baseline has counted chunk by chunk.
  function Closed(w: World, task: nat): seq<SweepRun>
    requires Ready(w, task)
  {
    var live := w.tasks[task];
    var runs := if live.body.AntiDriftBody? then Counted(w.runs, live.run, live.phase.completed, live.phase.failed) else w.runs;
    WithStatus(runs, live.run, Complete)
  }

  function CountedBefore(runs: seq<SweepRun>, run: nat): nat {
    if run < |runs| then runs[run].completed + runs[run].failed else 0
  }

  // Task t resumes the row that was interrupted while running.
  predicate Resumes(w: World, t: nat) {
    w.next <= t < w.next + |w.runs| && w.runs[t - w.next].status.Running?
  }

  function Resumed(w: World): map<nat, Live> {
    map t | w.next <= t < w.next + |w.runs| && Resumes(w, t) :: Live(t - w.next, BaselineBody, Enumerating)
  }

  function Next(w: World, s: Step): World {
    if !Enabled(w, s) then w
    else match s
      case StartSweep(org) =>
        if Active(w.runs, org, AntiDriftSweep).Some? then w
        else Spawn(w, Created(w.runs, org, AntiDriftSweep, None), |w.runs|, AntiDriftBody)
      case StartBaseline(org) =>
        var active := Active(w.runs, org, BaselineSweep);
        if active.Some? then Spawn(w, w.runs, active.value, BaselineBody)
        else Spawn(w, Created(w.runs, org, BaselineSweep, None), |w.runs|, BaselineBody)
      case Enumerated(task, total, left) =>
        var live := w.tasks[task];
        World(WithStatus(WithTotal(w.runs, live.run, total), live.run, Running),
              w.tasks[task := live.(phase := Working(total, left, CountedBefore(w.runs, live.run), 0, 0))], w.next)
      case Job(task, ok) => if ok then Work(w, task, 1, 0) else Work(w, task, 0, 1)
      case Chunk(task, completed, failed) =>
        Work(w.(runs := Counted(w.runs, w.tasks[task].run, completed, failed)), task, completed, failed)
      case Finished(task) => World(Closed(w, task), w.tasks[task := w.tasks[task].(phase := Reporting)], w.next)
      case Reported(task) => End(w, task, w.runs)
      case Raised(task) => End(w, task, WithStatus(w.runs, w.tasks[task].run, Failed))
      case Died(task) => End(w, task, w.runs)
      case Restart(resume) =>
        if resume then World(w.runs, Resumed(w), w.next + |w.runs|) else World(w.runs, map[], w.next)
  }

  function After(w: World, steps: seq<Step>): World {
    if steps == [] then w else Next(After(w, steps[..|steps| - 1]), steps[|steps| - 1])
  }

  const START := World([], map[], 0)

  // ----- the invariant -----

  predicate AntiDriftRow(runs: seq<SweepRun>, i: nat) {
    i < |runs| && runs[i].kind.AntiDriftSweep?
  }

  ghost predicate AtMostOneActive(runs: seq<SweepRun>) {
    forall i: nat, j: nat :: i < j && AntiDriftRow(runs, i) && AntiDriftRow(runs, j) && runs[i].org == runs[j].org ==>
      !(IsActive(runs[i]) && IsActive(runs[j]))
  }

  // A live task works on a row; on an anti-drift row it works alone, and the row is active
  // until the task has marked it complete.
  ghost predicate TaskFits(runs: seq<SweepRun>, live: Live) {
    && live.run < |runs|
    && (live.body.AntiDriftBody? ==> runs[live.run].kind.AntiDriftSweep?)
    && (runs[live.run].kind.AntiDriftSweep? ==> RowFits(runs[live.run], live))
  }

  predicate RowFits(r: SweepRun, live: Live) {
    && (if live.phase.Reporting? then r.status.Complete? else IsActive(r))
    && (live.phase.Working? ==> WorkFits(r, live.body, live.phase))
    && (live.body.AntiDriftBody? && !live.phase.Reporting? ==> r.completed == 0 && r.failed == 0)
  }

  // The row's counters are what it had before and what a baseline has counted since.
  predicate WorkFits(r: SweepRun, body: Body, phase: Phase)
    requires phase.Working?
  {
    && r.status.Running? && r.total == Some(phase.total) && DoneBy(phase) <= phase.left <= phase.total
    && r.completed + r.failed == phase.base + (if body.BaselineBody? then DoneBy(phase) else 0)
    && (body.AntiDriftBody? ==> phase.left == phase.total && phase.base == 0)
  }

  ghost predicate Alone(w: World) {
    forall t, t' :: t in w.tasks && t' in w.tasks && t != t' && w.tasks[t].run == w.tasks[t'].run ==>
      !AntiDriftRow(w.runs, w.tasks[t].run)
  }

  ghost predicate Inv(w: World) {
    && AtMostOneActive(w.runs)
    && (forall t :: t in w.tasks ==> t < w.next && TaskFits(w.runs, w.tasks[t]))
    && Alone(w)
  }

  // The row of a live task changes, and keeps its kind and owner.
  predicate SameRow(r: SweepRun, r': SweepRun) {
    r'.org == r.org && r'.kind == r.kind && (r.kind.AntiDriftSweep? && IsActive(r') ==> IsActive(r))
  }

  lemma RowChanges(runs: seq<SweepRun>, i: nat, r': SweepRun)
    requires AtMostOneActive(runs) && i < |runs| && SameRow(runs[i], r')
    ensures AtMostOneActive(runs[i := r'])
  {
    var after := runs[i := r'];
    forall a: nat, b: nat | a < b && AntiDriftRow(after, a) && AntiDriftRow(after, b) && after[a].org == after[b].org
      ensures !(IsActive(after[a]) && IsActive(after[b]))
    {
      assert AntiDriftRow(runs, a) && AntiDriftRow(runs, b);
    }
  }

  // A task changes its own row and its own state, or ends.
  lemma TaskMoves(w: World, task: nat, r': SweepRun, live': Live)
    requires Inv(w) && task in w.tasks && live'.run == w.tasks[task].run
    requires SameRow(w.runs[live'.run], r') && TaskFits(w.runs[live'.run := r'], live')
    requires w.runs[live'.run].kind.AntiDriftSweep? || r'.kind.BaselineSweep?
    ensures Inv(World(w.runs[live'.run := r'], w.tasks[task := live'], w.next))
  {
    var runs := w.runs[live'.run := r'];
    RowChanges(w.runs, live'.run, r');
    forall t | t in w.tasks && t != task ensures TaskFits(runs, w.tasks[t]) {
      if w.tasks[t].run == live'.run { assert !AntiDriftRow(w.runs, live'.run); }
    }
    forall t, t' | t in w.tasks && t' in w.tasks && t != t' && w.tasks[t].run == w.tasks[t'].run
      ensures !AntiDriftRow(runs, w.tasks[t].run)
    {
      assert !AntiDriftRow(w.runs, w.tasks[t].run);
    }
  }

  lemma TaskEnds(w: World, task: nat, r': SweepRun)
    requires Inv(w) && task in w.tasks && SameRow(w.runs[w.tasks[task].run], r')
    ensures Inv(End(w, task, w.runs[w.tasks[task].run := r']))
  {
    var run := w.tasks[task].run;
    var runs := w.runs[run := r'];
    RowChanges(w.runs, run, r');
    forall t | t in w.tasks && t != task ensures TaskFits(runs, w.tasks[t]) {
      if w.tasks[t].run == run { assert !AntiDriftRow(w.runs, run); }
    }
  }

  lemma SpawnKeeps(w: World, org: string, kind: Kind, body: Body)
    requires Inv(w) && (kind.AntiDriftSweep? ==> Active(w.runs, org, kind) == None)
    requires body.AntiDriftBody? ==> kind.AntiDriftSweep?
    ensures Inv(Spawn(w, Created(w.runs, org, kind, None), |w.runs|, body))
  {
    var runs := Created(w.runs, org, kind, None);
    ActiveMeans(w.runs, org, kind);
    forall i: nat, j: nat | i < j && AntiDriftRow(runs, i) && AntiDriftRow(runs, j) && runs[i].org == runs[j].org
      ensures !(IsActive(runs[i]) && IsActive(runs[j]))
    {
      if j < |w.runs| { assert AntiDriftRow(w.runs, i) && AntiDriftRow(w.runs, j); }
    }
    assert forall t :: t in w.tasks ==> runs[w.tasks[t].run] == w.runs[w.tasks[t].run];
  }

  lemma AgainKeeps(w: World, org: string)
    requires Inv(w) && Active(w.runs, org, BaselineSweep).Some?
    ensures Inv(Spawn(w, w.runs, Active(w.runs, org, BaselineSweep).value, BaselineBody))
  {
    ActiveMeans(w.runs, org, BaselineSweep);
  }

  lemma RestartKeeps(w: World)
    requires Inv(w)
    ensures Inv(World(w.runs, Resumed(w), w.next + |w.runs|))
  {
    assert forall t :: t in Resumed(w) ==> Resumed(w)[t].run == t - w.next;
  }

  lemma StepKeepsInv(w: World, s: Step)
    requires Inv(w)
    ensures Inv(Next(w, s))
  {
    if Enabled(w, s) {
      match s
      case StartSweep(org) =>
        if Active(w.runs, org, AntiDriftSweep) == None { SpawnKeeps(w, org, AntiDriftSweep, AntiDriftBody); }
      case StartBaseline(org) =>
        if Active(w.runs, org, BaselineSweep).Some? { AgainKeeps(w, org); } else { SpawnKeeps(w, org, BaselineSweep, BaselineBody); }
      case Restart(resume) => RestartKeeps(w);
      case Died(task) => GoneKeeps(w, task);
      case Reported(task) => GoneKeeps(w, task);
      case Enumerated(task, total, left) => EnumeratedKeeps(w, task, total, left);
      case Job(task, ok) => JobKeeps(w, task, ok);
      case Chunk(task, completed, failed) => ChunkKeeps(w, task, completed, failed);
      case Finished(task) => FinishedKeeps(w, task);
      case Raised(task) => RaisedKeeps(w, task);
    }
  }

  lemma GoneKeeps(w: World, task: nat)
    requires Inv(w) && task in w.tasks
    ensures Inv(End(w, task, w.runs))
  {
    var run := w.tasks[task].run;
    TaskEnds(w, task, w.runs[run]);
    assert w.runs[run := w.runs[run]] == w.runs;
  }

  lemma RaisedKeeps(w: World, task: nat)
    requires Inv(w) && Enabled(w, Raised(task))
    ensures Inv(Next(w, Raised(task)))
  {
    var run := w.tasks[task].run;
    TaskEnds(w, task, w.runs[run].(status := Failed));
  }

  lemma EnumeratedKeeps(w: World, task: nat, total: nat, left: nat)
    requires Inv(w) && Enabled(w, Enumerated(task, total, left))
    ensures Inv(Next(w, Enumerated(task, total, left)))
  {
    var live := w.tasks[task];
    var r' := w.runs[live.run].(total := Some(total), status := Running);
    assert WithStatus(WithTotal(w.runs, live.run, total), live.run, Running) == w.runs[live.run := r'];
    TaskMoves(w, task, r', live.(phase := Working(total, left, CountedBefore(w.runs, live.run), 0, 0)));
  }

  lemma JobKeeps(w: World, task: nat, ok: bool)
    requires Inv(w) && Enabled(w, Job(task, ok))
    ensures Inv(Next(w, Job(task, ok)))
  {
    var after := if ok then Work(w, task, 1, 0) else Work(w, task, 0, 1);
    var run := w.tasks[task].run;
    assert w.runs[run := w.runs[run]] == w.runs;
    TaskMoves(w, task, w.runs[run], after.tasks[task]);
  }

  function CountedRow(r: SweepRun, completed: nat, failed: nat): SweepRun {
    r.(completed := r.completed + completed, failed := r.failed + failed)
  }

  function CountedLive(live: Live, completed: nat, failed: nat): Live
    requires live.phase.Working?
  {
    live.(phase := live.phase.(completed := live.phase.completed + completed, failed := live.phase.failed + failed))
  }

  lemma ChunkFits(r: SweepRun, live: Live, completed: nat, failed: nat)
    requires live.phase.Working? && live.body.BaselineBody? && DoneBy(live.phase) + completed + failed <= live.phase.left
    requires RowFits(r, live)
    ensures RowFits(CountedRow(r, completed, failed), CountedLive(live, completed, failed))
  {}

  lemma ChunkIs(w: World, task: nat, completed: nat, failed: nat)
    requires Inv(w) && Enabled(w, Chunk(task, completed, failed))
    ensures var live := w.tasks[task];
            Next(w, Chunk(task, completed, failed)) ==
            World(w.runs[live.run := CountedRow(w.runs[live.run], completed, failed)],
                  w.tasks[task := CountedLive(live, completed, failed)], w.next)
  {}

  lemma ChunkKeeps(w: World, task: nat, completed: nat, failed: nat)
    requires Inv(w) && Enabled(w, Chunk(task, completed, failed))
    ensures Inv(Next(w, Chunk(task, completed, failed)))
  {
    var live := w.tasks[task];
    ChunkIs(w, task, completed, failed);
    if w.runs[live.run].kind.AntiDriftSweep? { ChunkFits(w.runs[live.run], live, completed, failed); }
    TaskMoves(w, task, CountedRow(w.runs[live.run], completed, failed), CountedLive(live, completed, failed));
  }

  // Marking the run complete: what its row becomes.
  function Completed(r: SweepRun, live: Live): SweepRun
    requires live.phase.Working?
  {
    if live.body.AntiDriftBody?
    then r.(completed := r.completed + live.phase.completed, failed := r.failed + live.phase.failed, status := Complete)
    else r.(status := Complete)
  }

  lemma ClosedRow(w: World, task: nat)
    requires Ready(w, task) && w.tasks[task].run < |w.runs|
    ensures var live := w.tasks[task];
            Closed(w, task) == w.runs[live.run := Completed(w.runs[live.run], live)]
  {}

  lemma FinishedKeeps(w: World, task: nat)
    requires Inv(w) && Ready(w, task)
    ensures Inv(Next(w, Finished(task)))
  {
    var live := w.tasks[task];
    ClosedRow(w, task);
    TaskMoves(w, task, Completed(w.runs[live.run], live), live.(phase := Reporting));
  }

  // ----- the theorems -----

  // Whatever happens in whatever order, an organisation never has two queued or running
  // anti-drift runs.
  lemma {:induction false} NeverTwoSweeps(steps: seq<Step>)
    ensures Inv(After(START, steps)) && AtMostOneActive(After(START, steps).runs)
  {
    if steps != [] {
      NeverTwoSweeps(steps[..|steps| - 1]);
      StepKeepsInv(After(START, steps[..|steps| - 1]), steps[|steps| - 1]);
    }
  }

  // A run on an anti-drift row that reaches its end leaves the row complete. Its counters
  // add up to the total exactly if what had been counted before and the jobs that were left
  // do: always for the sweep itself, and for a baseline that resumes the row only then.
  lemma CompleteMeansCounted(steps: seq<Step>, task: nat)
    requires Ready(After(START, steps), task) && AntiDriftRow(After(START, steps).runs, After(START, steps).tasks[task].run)
    ensures var live := After(START, steps).tasks[task];
            var runs := Next(After(START, steps), Finished(task)).runs;
            && live.run < |runs| && runs[live.run].status.Complete? && runs[live.run].total == Some(live.phase.total)
            && (runs[live.run].completed + runs[live.run].failed == live.phase.total
                <==> live.phase.base + live.phase.left == live.phase.total)
            && (live.body.AntiDriftBody? ==> live.phase.base + live.phase.left == live.phase.total)
  {
    NeverTwoSweeps(steps);
    var w := After(START, steps);
    assert TaskFits(w.runs, w.tasks[task]);
    ClosedRow(w, task);
  }

  // A closed anti-drift row changes exactly when its own task, which has marked it complete
  // and is still reporting, raises; it is then marked failed.
  lemma ClosedMoves(w: World, s: Step, i: nat)
    requires Inv(w) && AntiDriftRow(w.runs, i) && !IsActive(w.runs[i])
    ensures i < |Next(w, s).runs|
    ensures Next(w, s).runs[i] != w.runs[i] <==> s.Raised? && s.task in w.tasks && w.tasks[s.task].run == i
    ensures Next(w, s).runs[i] != w.runs[i] ==>
              w.runs[i].status.Complete? && w.tasks[s.task].phase.Reporting? && Next(w, s).runs[i] == w.runs[i].(status := Failed)
  {
    if ByTask(s) && Enabled(w, s) {
      assert TaskFits(w.runs, w.tasks[s.task]);
      if w.tasks[s.task].run != i { OtherRows(w, s, i); }
    }
  }

  // A failed anti-drift run never changes again, and a complete one changes at most to failed.
  lemma {:induction false} ClosedStays(w: World, steps: seq<Step>, i: nat)
    requires Inv(w) && AntiDriftRow(w.runs, i) && !IsActive(w.runs[i])
    ensures Inv(After(w, steps)) && AntiDriftRow(After(w, steps).runs, i)
    ensures var r := After(w, steps).runs[i];
            r == w.runs[i] || (w.runs[i].status.Complete? && r == w.runs[i].(status := Failed))
  {
    if steps != [] {
      var before, s := After(w, steps[..|steps| - 1]), steps[|steps| - 1];
      ClosedStays(w, steps[..|steps| - 1], i);
      StepKeepsInv(before, s);
      ClosedMoves(before, s, i);
    }
  }

  predicate ByTask(s: Step) {
    !s.StartSweep? && !s.StartBaseline? && !s.Restart?
  }

  // A task leaves every row but its own as it was, and starts no task.
  lemma OtherRows(w: World, s: Step, i: nat)
    requires Inv(w) && ByTask(s) && Enabled(w, s) && i < |w.runs| && i != w.tasks[s.task].run
    ensures |Next(w, s).runs| == |w.runs| && Next(w, s).runs[i] == w.runs[i]
    ensures forall t :: t in Next(w, s).tasks ==> t in w.tasks && Next(w, s).tasks[t].run == w.tasks[t].run
  {}

  lemma AfterNext(w: World, steps: seq<Step>, s: Step)
    ensures After(w, steps + [s]) == Next(After(w, steps), s)
  {
    assert (steps + [s])[..|steps|] == steps;
  }

  lemma {:induction false} AfterConcat(w: World, x: seq<Step>, y: seq<Step>)
    ensures After(w, x + y) == After(After(w, x), y)
  {
    if y == [] {
      assert x + y == x;
    } else {
      assert (x + y)[..|x + y| - 1] == x + y[..|y| - 1];
      AfterConcat(w, x, y[..|y| - 1]);
    }
  }

  // ----- the REST call -----

  class App {
    const store: Store
    var tasks: map<nat, Live>
    var next: nat

    constructor (store: Store)
      ensures this.store == store && tasks == map[] && next == 0
    {
      this.store, tasks, next := store, map[], 0;
    }

    function Seen(): World
      reads this`tasks, this`next, store`runs
    {
      World(store.runs, tasks, next)
    }

    // Looks for an active run and creates one if there is none, without giving way in
    // between; only a new run gets a task.
    method StartSweepCall(org: string) returns (id: nat)
      modifies this`tasks, this`next, store`runs
      ensures Seen() == Next(old(Seen()), StartSweep(org))
      ensures var active := Active(old(store.runs), org, AntiDriftSweep);
              id == if active.Some? then active.value else |old(store.runs)|
    {
      var active := Active(store.runs, org, AntiDriftSweep);
      if active.Some? {
        return active.value;
      }
      id := store.CreateSweepRun(org, AntiDriftSweep, None);
      tasks, next := tasks[next := Live(id, AntiDriftBody, Enumerating)], next + 1;
    }
  }
}
