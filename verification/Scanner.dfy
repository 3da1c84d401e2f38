// Baseline and anti-drift sweeps over all jobs of an organisation.
module Scanner {
  import opened Wrappers
  import opened ObservationLog
  import opened SweepRuns
  import opened ConfigStore
  import opened TargetedPuller

  const CHUNK: nat := 20

  function Remaining(jobs: seq<Job>, done: set<Entity>): (r: seq<Job>)
    ensures forall j :: j in r <==> j in jobs && j.entity !in done
  {
    if jobs == [] then []
    else
      var n := |jobs| - 1;
      Remaining(jobs[..n], done) + if jobs[n].entity in done then [] else [jobs[n]]
  }

  lemma {:induction false} RemainingDistinct(jobs: seq<Job>, done: set<Entity>)
    requires Distinct(jobs)
    ensures Distinct(Remaining(jobs, done))
  {
    if jobs != [] { RemainingDistinct(jobs[..|jobs| - 1], done); }
  }

  lemma CountedAgain(after: seq<SweepRun>, mid: seq<SweepRun>, was: seq<SweepRun>, id: nat, c: Counts, d: Counts)
    requires IsCounted(mid, was, id, c.completed, c.failed) && IsCounted(after, mid, id, d.completed, d.failed)
    ensures IsCounted(after, was, id, Plus(c, d).completed, Plus(c, d).failed)
  {}

  lemma CountedNothing(runs: seq<SweepRun>, id: nat)
    ensures Counted(runs, id, 0, 0) == runs
  {}

  // From running to complete, with what was counted in between.
  function Swept(runs: seq<SweepRun>, id: nat, completed: nat, failed: nat): seq<SweepRun> {
    WithStatus(Counted(WithStatus(runs, id, Running), id, completed, failed), id, Complete)
  }

  function BaselineTask(org: string, id: nat): Task {
    Task(org, Baseline, Some(id), map[])
  }

  // The jobs a run still has to do: all of them, or when resumed those without a row.
  function ToDo(jobs: seq<Job>, log: seq<Observation>, resume: Option<nat>): seq<Job> {
    match resume
    case Some(id) => Remaining(Coalesced(jobs), Done(log, id))
    case None => Coalesced(jobs)
  }

  // One uninterrupted baseline: the jobs left to do are pulled once each, in order, and
  // the row counts them all. A new run while one is active does nothing.
  method RunBaseline(store: Store, org: string, jobs: seq<Job>, upstream: Job -> Outcome,
      resume: Option<nat>) returns (id: nat)
    modifies store`blobs, store`log, store`ticks, store`runs
    ensures var active := Active(old(store.runs), org, BaselineSweep);
            var todo := ToDo(jobs, old(store.log), resume);
            if resume == None && active.Some? then
              id == active.value && store.Contents() == old(store.Contents()) && store.runs == old(store.runs)
            else
              var started := if resume.Some? then WithTotal(old(store.runs), id, |Coalesced(jobs)|)
                             else Created(old(store.runs), org, BaselineSweep, Some(|Coalesced(jobs)|));
              id == (if resume.Some? then resume.value else |old(store.runs)|)
              && Pulled(old(store.Contents()), store.Contents(), started, store.runs, org, id, todo, upstream, store.clock, store.h)
  {
    if resume == None {
      var active := Active(store.runs, org, BaselineSweep);
      if active.Some? {
        return active.value;
      }
    }
    var all := CoalesceJobs(jobs);
    CoalescedMeans(jobs);
    var remaining := all;
    if resume.Some? {
      id := resume.value;
      store.UpdateSweepTotalCalls(id, |all|);
      RemainingDistinct(all, Done(store.log, id));
      remaining := Remaining(all, Done(store.log, id));
    } else {
      id := store.CreateSweepRun(org, BaselineSweep, Some(|all|));
    }
    PullRemaining(store, org, id, remaining, upstream);
  }

  // Every job was pulled, and the row went from running to complete.
  ghost predicate Pulled(before: State, after: State, started: seq<SweepRun>, ended: seq<SweepRun>, org: string,
      id: nat,
                         jobs: seq<Job>, upstream: Job -> Outcome, clock: nat -> int, h: string -> Hash) {
    var writes := WritesOf(jobs, upstream, BaselineTask(org, id));
    && after == Run(before, writes, clock, h)
    && |writes| <= |jobs|
    && ended == Swept(started, id, |writes|, |jobs| - |writes|)
  }

  method PullRemaining(store: Store, org: string, id: nat, remaining: seq<Job>, upstream: Job -> Outcome)
    requires Distinct(remaining)
    modifies store`blobs, store`log, store`ticks, store`runs
    ensures Pulled(old(store.Contents()), store.Contents(), old(store.runs), store.runs, org, id, remaining, upstream, store.clock, store.h)
  {
    ghost var started := store.runs;
    store.MarkSweep(id, Running);
    ghost var was := TablesOf(store);
    ghost var counts := PullChunks(store, org, id, remaining, upstream);
    ghost var now := TablesOf(store);
    store.MarkSweep(id, Complete);
    EndPulled(was, now, started, store.runs, org, id, remaining, upstream, counts, store.clock, store.h);
  }

  lemma EndPulled(was: Tables, now: Tables, started: seq<SweepRun>, ended: seq<SweepRun>, org: string, id: nat,
                  jobs: seq<Job>, upstream: Job -> Outcome, counts: Counts, clock: nat -> int, h: string -> Hash)
    requires was.runs == WithStatus(started, id, Running) && ended == WithStatus(now.runs, id, Complete)
    requires Progress(was, now, id, jobs, upstream, BaselineTask(org, id), counts, clock, h)
    ensures Pulled(was.state, now.state, started, ended, org, id, jobs, upstream, clock, h)
  {
    OutcomesCounted(jobs, upstream, BaselineTask(org, id));
  }

  // What pulling some jobs makes of the store.
  ghost predicate ChunkStored(before: State, after: State, jobs: seq<Job>, upstream: Job -> Outcome, task: Task,
      clock: nat -> int, h: string -> Hash) {
    after == Run(before, WritesOf(jobs, upstream, task), clock, h)
  }

  lemma NextWrites(jobs: seq<Job>, i: nat, end: nat, upstream: Job -> Outcome, task: Task)
    requires i <= end <= |jobs|
    ensures WritesOf(jobs[..end], upstream, task) == WritesOf(jobs[..i], upstream, task) + WritesOf(jobs[i..end], upstream, task)
  {
    WritesOfConcat(jobs[..i], jobs[i..end], upstream, task);
    assert jobs[..end] == jobs[..i] + jobs[i..end];
  }

  lemma NextStored(s: State, s': State, s'': State, jobs: seq<Job>, i: nat, end: nat, upstream: Job -> Outcome,
      task: Task, clock: nat -> int, h: string -> Hash)
    requires i <= end <= |jobs|
    requires ChunkStored(s, s', jobs[..i], upstream, task, clock, h) && ChunkStored(s', s'', jobs[i..end], upstream, task, clock, h)
    ensures ChunkStored(s, s'', jobs[..end], upstream, task, clock, h)
  {
    NextWrites(jobs, i, end, upstream, task);
    RunConcat(s, WritesOf(jobs[..i], upstream, task), WritesOf(jobs[i..end], upstream, task), clock, h);
  }

  // How many of some jobs were fetched, and how many failed.
  datatype Counts = Counts(completed: nat, failed: nat)

  function Plus(c: Counts, d: Counts): Counts {
    Counts(c.completed + d.completed, c.failed + d.failed)
  }

  function CountsOf(jobs: seq<Job>, upstream: Job -> Outcome): Counts {
    var failed := |ErrorsOf(jobs, upstream)|;
    Counts(|jobs| - failed, failed)
  }

  lemma {:induction false} ErrorsOfConcat(x: seq<Job>, y: seq<Job>, upstream: Job -> Outcome)
    ensures ErrorsOf(x + y, upstream) == ErrorsOf(x, upstream) + ErrorsOf(y, upstream)
  {
    if y == [] {
      assert x + y == x;
    } else {
      assert (x + y)[..|x + y| - 1] == x + y[..|y| - 1];
      ErrorsOfConcat(x, y[..|y| - 1], upstream);
    }
  }

  lemma {:induction false} OutcomesCounted(jobs: seq<Job>, upstream: Job -> Outcome, task: Task)
    ensures |WritesOf(jobs, upstream, task)| + |ErrorsOf(jobs, upstream)| == |jobs|
  {
    if jobs != [] { OutcomesCounted(jobs[..|jobs| - 1], upstream, task); }
  }

  method PullDistinct(store: Store, chunk: seq<Job>, upstream: Job -> Outcome, task: Task) returns (counts: Counts)
    requires Distinct(chunk)
    modifies store`blobs, store`log, store`ticks
    ensures ChunkStored(old(store.Contents()), store.Contents(), chunk, upstream, task, store.clock, store.h)
    ensures CountsOf(chunk, upstream) == counts
  {
    CoalesceDistinct(chunk);
    OutcomesCounted(chunk, upstream, task);
    var summary := PullMany(store, chunk, upstream, task);
    counts := Counts(summary.successes + summary.skippedUnchanged, summary.failures);
  }

  datatype Tables = Tables(state: State, runs: seq<SweepRun>)

  // Some jobs of a run have been pulled and counted.
  ghost predicate Progress(was: Tables, now: Tables, id: nat, jobs: seq<Job>, upstream: Job -> Outcome, task: Task,
                           counts: Counts, clock: nat -> int, h: string -> Hash) {
    && ChunkStored(was.state, now.state, jobs, upstream, task, clock, h)
    && CountsOf(jobs, upstream) == counts
    && IsCounted(now.runs, was.runs, id, counts.completed, counts.failed)
  }

  lemma NextCounts(jobs: seq<Job>, i: nat, end: nat, upstream: Job -> Outcome)
    requires i <= end <= |jobs|
    ensures CountsOf(jobs[..end], upstream) == Plus(CountsOf(jobs[..i], upstream), CountsOf(jobs[i..end], upstream))
  {
    ErrorsOfConcat(jobs[..i], jobs[i..end], upstream);
    assert jobs[..end] == jobs[..i] + jobs[i..end];
  }

  lemma NextProgress(was: Tables, mid: Tables, now: Tables, id: nat, jobs: seq<Job>, i: nat, end: nat,
      upstream: Job -> Outcome, task: Task,
                     c: Counts, d: Counts, clock: nat -> int, h: string -> Hash)
    requires i <= end <= |jobs|
    requires Progress(was, mid, id, jobs[..i], upstream, task, c, clock, h)
    requires Progress(mid, now, id, jobs[i..end], upstream, task, d, clock, h)
    ensures Progress(was, now, id, jobs[..end], upstream, task, Plus(c, d), clock, h)
  {
    NextStored(was.state, mid.state, now.state, jobs, i, end, upstream, task, clock, h);
    NextCounts(jobs, i, end, upstream);
    CountedAgain(now.runs, mid.runs, was.runs, id, c, d);
  }

  function TablesOf(store: Store): Tables
    reads store`blobs, store`log, store`ticks, store`runs
  {
    Tables(store.Contents(), store.runs)
  }

  method PullChunk(store: Store, id: nat, chunk: seq<Job>, upstream: Job -> Outcome,
      task: Task) returns (ghost counts: Counts)
    requires Distinct(chunk)
    modifies store`blobs, store`log, store`ticks, store`runs
    ensures Progress(old(TablesOf(store)), TablesOf(store), id, chunk, upstream, task, counts, store.clock, store.h)
  {
    var counted := PullDistinct(store, chunk, upstream, task);
    store.IncrementSweepCounters(id, counted.completed, counted.failed);
    counts := counted;
  }

  // The chunk after the first i jobs.
  method PullNext(store: Store, id: nat, jobs: seq<Job>, i: nat, upstream: Job -> Outcome, task: Task,
                  ghost was: Tables, ghost before: Counts) returns (end: nat, ghost counts: Counts)
    requires Distinct(jobs) && i < |jobs|
    requires Progress(was, TablesOf(store), id, jobs[..i], upstream, task, before, store.clock, store.h)
    modifies store`blobs, store`log, store`ticks, store`runs
    ensures i < end <= |jobs|
    ensures Progress(was, TablesOf(store), id, jobs[..end], upstream, task, counts, store.clock, store.h)
  {
    end := if i + CHUNK <= |jobs| then i + CHUNK else |jobs|;
    ghost var mid := TablesOf(store);
    ghost var chunk := PullChunk(store, id, jobs[i..end], upstream, task);
    NextProgress(was, mid, TablesOf(store), id, jobs, i, end, upstream, task, before, chunk, store.clock, store.h);
    counts := Plus(before, chunk);
  }

  method PullChunks(store: Store, org: string, id: nat, remaining: seq<Job>,
      upstream: Job -> Outcome) returns (ghost counts: Counts)
    requires Distinct(remaining)
    modifies store`blobs, store`log, store`ticks, store`runs
    ensures Progress(old(TablesOf(store)), TablesOf(store), id, remaining, upstream, BaselineTask(org, id), counts, store.clock, store.h)
  {
    ghost var was := TablesOf(store);
    CountedNothing(was.runs, id);
    counts := Counts(0, 0);
    var i := 0;
    while i < |remaining|
      invariant i <= |remaining|
      invariant Progress(was, TablesOf(store), id, remaining[..i], upstream, BaselineTask(org, id), counts, store.clock, store.h)
    {
      i, counts := PullNext(store, id, remaining, i, upstream, BaselineTask(org, id), was, counts);
    }
    assert remaining[..i] == remaining;
  }

  // ----- anti-drift -----

  function SweepWriteOf(job: Job, outcome: Outcome, org: string, run: nat): seq<Write> {
    match outcome
    case Raised(_) => []
    case Fetched(doc) => [Sweep(Key(org, job.entity), doc, Some(run))]
  }

  function SweepWrites(jobs: seq<Job>, upstream: Job -> Outcome, org: string, run: nat): (ws: seq<Write>)
    ensures |ws| <= |jobs|
  {
    if jobs == [] then []
    else
      var n := |jobs| - 1;
      SweepWrites(jobs[..n], upstream, org, run) + SweepWriteOf(jobs[n], upstream(jobs[n]), org, run)
  }

  // What checking some jobs makes of the store: one row for each fetch that did not fail.
  ghost predicate Checked(before: State, after: State, jobs: seq<Job>, upstream: Job -> Outcome, org: string, id: nat,
                          completed: nat, clock: nat -> int, h: string -> Hash) {
    && after == Run(before, SweepWrites(jobs, upstream, org, id), clock, h)
    && |after.log| == |before.log| + completed
    && completed == |SweepWrites(jobs, upstream, org, id)|
  }

  lemma OneMoreCheck(s: State, s': State, s'': State, jobs: seq<Job>, i: nat, upstream: Job -> Outcome, org: string,
                     id: nat, completed: nat, more: nat, clock: nat -> int, h: string -> Hash)
    requires i < |jobs| && Checked(s, s', jobs[..i], upstream, org, id, completed, clock, h)
    requires var w := SweepWriteOf(jobs[i], upstream(jobs[i]), org, id);
             s'' == Run(s', w, clock, h) && |s''.log| == |s'.log| + more && more == |w|
    ensures Checked(s, s'', jobs[..i + 1], upstream, org, id, completed + more, clock, h)
  {
    MoreSweepWrites(jobs, i, upstream, org, id);
    RunConcat(s, SweepWrites(jobs[..i], upstream, org, id), SweepWriteOf(jobs[i], upstream(jobs[i]), org, id), clock, h);
  }

  lemma MoreSweepWrites(jobs: seq<Job>, i: nat, upstream: Job -> Outcome, org: string, id: nat)
    requires i < |jobs|
    ensures SweepWrites(jobs[..i + 1], upstream, org, id)
            == SweepWrites(jobs[..i], upstream, org, id) + SweepWriteOf(jobs[i], upstream(jobs[i]), org, id)
  {
    assert jobs[..i + 1][..i] == jobs[..i];
  }

  method CheckOne(store: Store, org: string, job: Job, outcome: Outcome, id: nat) returns (completed: nat)
    modifies store`blobs, store`log, store`ticks
    ensures store.Contents() == Run(old(store.Contents()), SweepWriteOf(job, outcome, org, id), store.clock, store.h)
    ensures |store.log| == |old(store.log)| + completed
    ensures completed == |SweepWriteOf(job, outcome, org, id)| <= 1
  {
    match outcome
    case Raised(_) =>
      completed := 0;
    case Fetched(doc) =>
      RunOne(store.Contents(), Sweep(Key(org, job.entity), doc, Some(id)), store.clock, store.h);
      store.StoreSwept(Key(org, job.entity), doc, Some(id));
      completed := 1;
  }

  // One uninterrupted anti-drift sweep, under a given run or a new one: every job is checked
  // once, and completed and failed calls add up to the total. A new run while one is active
  // does nothing.
  method RunAntiDriftSweep(store: Store, org: string, jobs: seq<Job>, upstream: Job -> Outcome, resume: Option<nat>)
    returns (id: nat, completed: nat, failed: nat)
    modifies store`blobs, store`log, store`ticks, store`runs
    ensures var active := Active(old(store.runs), org, AntiDriftSweep);
            if resume == None && active.Some? then
              id == active.value && store.Contents() == old(store.Contents()) && store.runs == old(store.runs)
            else
              var started := if resume.Some? then WithTotal(old(store.runs), id, |Coalesced(jobs)|)
                             else Created(old(store.runs), org, AntiDriftSweep, Some(|Coalesced(jobs)|));
              id == (if resume.Some? then resume.value else |old(store.runs)|)
              && completed + failed == |Coalesced(jobs)|
              && Checked(old(store.Contents()), store.Contents(), Coalesced(jobs), upstream, org, id, completed, store.clock, store.h)
              && store.runs == Swept(started, id, completed, failed)
  {
    completed, failed := 0, 0;
    if resume == None {
      var active := Active(store.runs, org, AntiDriftSweep);
      if active.Some? {
        id := active.value;
        return;
      }
    }
    var all := CoalesceJobs(jobs);
    if resume.Some? {
      id := resume.value;
      store.UpdateSweepTotalCalls(id, |all|);
    } else {
      id := store.CreateSweepRun(org, AntiDriftSweep, Some(|all|));
    }
    completed, failed := SweepAll(store, org, all, upstream, id);
  }

  method SweepAll(store: Store, org: string, all: seq<Job>, upstream: Job -> Outcome, id: nat)
    returns (completed: nat, failed: nat)
    modifies store`blobs, store`log, store`ticks, store`runs
    ensures completed + failed == |all|
    ensures Checked(old(store.Contents()), store.Contents(), all, upstream, org, id, completed, store.clock, store.h)
    ensures store.runs == Swept(old(store.runs), id, completed, failed)
  {
    store.MarkSweep(id, Running);
    completed, failed := CheckAll(store, org, all, upstream, id);
    store.IncrementSweepCounters(id, completed, failed);
    store.MarkSweep(id, Complete);
  }

  method CheckNext(store: Store, org: string, jobs: seq<Job>, i: nat, upstream: Job -> Outcome, id: nat,
      ghost was: State, before: nat)
    returns (completed: nat)
    requires i < |jobs| && Checked(was, store.Contents(), jobs[..i], upstream, org, id, before, store.clock, store.h)
    modifies store`blobs, store`log, store`ticks
    ensures completed <= before + 1 && completed >= before
    ensures Checked(was, store.Contents(), jobs[..i + 1], upstream, org, id, completed, store.clock, store.h)
  {
    ghost var mid := store.Contents();
    var more := CheckOne(store, org, jobs[i], upstream(jobs[i]), id);
    OneMoreCheck(was, mid, store.Contents(), jobs, i, upstream, org, id, before, more, store.clock, store.h);
    completed := before + more;
  }

  method CheckAll(store: Store, org: string, all: seq<Job>, upstream: Job -> Outcome,
      id: nat) returns (completed: nat, failed: nat)
    modifies store`blobs, store`log, store`ticks
    ensures completed + failed == |all|
    ensures Checked(old(store.Contents()), store.Contents(), all, upstream, org, id, completed, store.clock, store.h)
  {
    completed, failed := 0, 0;
    ghost var was := store.Contents();
    for i := 0 to |all|
      invariant completed + failed == i
      invariant Checked(was, store.Contents(), all[..i], upstream, org, id, completed, store.clock, store.h)
    {
      var now := CheckNext(store, org, all, i, upstream, id, was, completed);
      if now == completed {
        failed := failed + 1;
      }
      completed := now;
    }
    assert all[..|all|] == all;
  }
}
