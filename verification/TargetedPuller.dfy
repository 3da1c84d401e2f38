// The fetch, redact and store pipeline for a list of jobs.
module TargetedPuller {
  import opened Wrappers
  import opened ObservationLog
  import opened ConfigStore

  datatype Job = Job(entity: Entity, url: string, paginated: bool)

  // What fetching a job gives: an exception's text, or the redacted response.
  datatype Outcome = Raised(error: string) | Fetched(doc: Doc)

  // ----- coalescing -----

  function Entities(jobs: seq<Job>): (r: set<Entity>)
    ensures forall e :: e in r <==> exists i :: 0 <= i < |jobs| && jobs[i].entity == e
  {
    set i | 0 <= i < |jobs| :: jobs[i].entity
  }

  function Coalesced(jobs: seq<Job>): seq<Job> {
    if jobs == [] then []
    else
      var n := |jobs| - 1;
      Coalesced(jobs[..n]) + if jobs[n].entity in Entities(jobs[..n]) then [] else [jobs[n]]
  }

  method CoalesceJobs(jobs: seq<Job>) returns (r: seq<Job>)
    ensures r == Coalesced(jobs)
  {
    r := [];
    var seen: set<Entity> := {};
    for i := 0 to |jobs|
      invariant r == Coalesced(jobs[..i]) && seen == Entities(jobs[..i])
    {
      assert jobs[..i + 1][..i] == jobs[..i];
      EntitiesNext(jobs[..i], jobs[i]);
      assert jobs[..i + 1] == jobs[..i] + [jobs[i]];
      if jobs[i].entity !in seen {
        seen := seen + {jobs[i].entity};
        r := r + [jobs[i]];
      }
    }
    assert jobs[..|jobs|] == jobs;
  }

  lemma EntitiesNext(jobs: seq<Job>, j: Job)
    ensures Entities(jobs + [j]) == Entities(jobs) + {j.entity}
  {
    forall e ensures e in Entities(jobs + [j]) <==> e in Entities(jobs) + {j.entity} {
      if e in Entities(jobs) {
        var i :| 0 <= i < |jobs| && jobs[i].entity == e;
        assert (jobs + [j])[i].entity == e;
      }
      assert (jobs + [j])[|jobs|] == j;
    }
  }

  ghost predicate Distinct(jobs: seq<Job>) {
    forall i, j :: 0 <= i < j < |jobs| ==> jobs[i].entity != jobs[j].entity
  }

  // The job at i is the first of its entity.
  ghost predicate FirstAt(jobs: seq<Job>, i: int) {
    0 <= i < |jobs| && forall j :: 0 <= j < i ==> jobs[j].entity != jobs[i].entity
  }

  lemma {:induction false} CoalescedEntities(jobs: seq<Job>)
    ensures Entities(Coalesced(jobs)) == Entities(jobs)
  {
    if jobs != [] {
      var front, last := jobs[..|jobs| - 1], jobs[|jobs| - 1];
      assert jobs == front + [last];
      CoalescedEntities(front);
      EntitiesNext(front, last);
      EntitiesNext(Coalesced(front), last);
      assert Coalesced(jobs) == Coalesced(front) + if last.entity in Entities(front) then [] else [last];
      assert Coalesced(front) + [] == Coalesced(front);
    }
  }

  lemma {:induction false} CoalescedDistinct(jobs: seq<Job>)
    ensures Distinct(Coalesced(jobs))
  {
    if jobs != [] {
      var front, last := jobs[..|jobs| - 1], jobs[|jobs| - 1];
      CoalescedDistinct(front);
      CoalescedEntities(front);
      assert last.entity !in Entities(front) ==>
             forall i :: 0 <= i < |Coalesced(front)| ==> Coalesced(front)[i].entity != last.entity;
    }
  }

  ghost predicate FromFirst(jobs: seq<Job>, job: Job) {
    exists i :: FirstAt(jobs, i) && jobs[i] == job
  }

  lemma FirstStays(front: seq<Job>, last: Job, job: Job)
    requires FromFirst(front, job)
    ensures FromFirst(front + [last], job)
  {
    var i :| FirstAt(front, i) && front[i] == job;
    assert FirstAt(front + [last], i) && (front + [last])[i] == job;
  }

  lemma {:induction false} CoalescedFirst(jobs: seq<Job>, k: nat)
    requires k < |Coalesced(jobs)|
    ensures FromFirst(jobs, Coalesced(jobs)[k])
  {
    var n := |jobs| - 1;
    var front, last := jobs[..n], jobs[n];
    assert jobs == front + [last];
    if k < |Coalesced(front)| {
      CoalescedFirst(front, k);
      FirstStays(front, last, Coalesced(front)[k]);
    } else {
      assert FirstAt(jobs, n) && jobs[n] == last;
    }
  }

  // Every entity once, each with its first job.
  lemma CoalescedMeans(jobs: seq<Job>)
    ensures Distinct(Coalesced(jobs)) && Entities(Coalesced(jobs)) == Entities(jobs)
    ensures forall k :: 0 <= k < |Coalesced(jobs)| ==> FromFirst(jobs, Coalesced(jobs)[k])
  {
    CoalescedDistinct(jobs);
    CoalescedEntities(jobs);
    forall k | 0 <= k < |Coalesced(jobs)| ensures FromFirst(jobs, Coalesced(jobs)[k]) { CoalescedFirst(jobs, k); }
  }

  // Coalescing jobs that are distinct already changes nothing.
  lemma {:induction false} CoalesceDistinct(jobs: seq<Job>)
    requires Distinct(jobs)
    ensures Coalesced(jobs) == jobs
  {
    if jobs != [] {
      var n := |jobs| - 1;
      CoalesceDistinct(jobs[..n]);
      assert jobs[n].entity !in Entities(jobs[..n]);
      assert jobs == jobs[..n] + [jobs[n]];
    }
  }

  // ----- pulling -----

  type EventIds = map<Entity, nat>

  function EventOf(events: EventIds, e: Entity): Option<nat> {
    if e in events then Some(events[e]) else None
  }

  datatype Task = Task(org: string, source: Source, run: Option<nat>, events: EventIds)

  function PullWrite(task: Task, e: Entity, doc: Doc): Write {
    Pull(task.source, Key(task.org, e), doc, EventOf(task.events, e), task.run)
  }

  function WriteOf(job: Job, outcome: Outcome, task: Task): seq<Write> {
    match outcome
    case Raised(_) => []
    case Fetched(doc) => [PullWrite(task, job.entity, doc)]
  }

  // One write for each job whose fetch did not fail, in order.
  function WritesOf(jobs: seq<Job>, upstream: Job -> Outcome, task: Task): seq<Write> {
    if jobs == [] then []
    else
      var n := |jobs| - 1;
      WritesOf(jobs[..n], upstream, task) + WriteOf(jobs[n], upstream(jobs[n]), task)
  }

  lemma {:induction false} WritesOfConcat(x: seq<Job>, y: seq<Job>, upstream: Job -> Outcome, task: Task)
    ensures WritesOf(x + y, upstream, task) == WritesOf(x, upstream, task) + WritesOf(y, upstream, task)
  {
    if y == [] {
      assert x + y == x;
    } else {
      assert (x + y)[..|x + y| - 1] == x + y[..|y| - 1];
      WritesOfConcat(x, y[..|y| - 1], upstream, task);
    }
  }

  function ErrorOf(job: Job, outcome: Outcome): seq<(string, string)> {
    match outcome
    case Raised(error) => [(job.url, error)]
    case Fetched(_) => []
  }

  // The failed fetches, as (url, error).
  function ErrorsOf(jobs: seq<Job>, upstream: Job -> Outcome): (r: seq<(string, string)>)
    ensures |r| <= |jobs|
  {
    if jobs == [] then []
    else
      var n := |jobs| - 1;
      ErrorsOf(jobs[..n], upstream) + ErrorOf(jobs[n], upstream(jobs[n]))
  }

  datatype PullSummary = PullSummary(successes: nat, skippedUnchanged: nat, failures: nat, errors: seq<(string, string)>)

  // Every job is counted once: as a success, an unchanged one, or a failure.
  ghost predicate Tallies(summary: PullSummary, jobs: seq<Job>, upstream: Job -> Outcome) {
    && summary.errors == ErrorsOf(jobs, upstream)
    && summary.failures == |summary.errors|
    && summary.successes + summary.skippedUnchanged + summary.failures == |jobs|
  }

  function Count(summary: PullSummary, job: Job, outcome: Outcome, wrote: bool): PullSummary {
    match outcome
    case Raised(error) =>
      summary.(failures := summary.failures + 1, errors := summary.errors + [(job.url, error)])
    case Fetched(doc) =>
      if wrote then summary.(successes := summary.successes + 1)
      else summary.(skippedUnchanged := summary.skippedUnchanged + 1)
  }

  lemma CountTallies(summary: PullSummary, jobs: seq<Job>, job: Job, upstream: Job -> Outcome, wrote: bool)
    requires Tallies(summary, jobs, upstream) && (wrote ==> upstream(job).Fetched?)
    ensures Tallies(Count(summary, job, upstream(job), wrote), jobs + [job], upstream)
  {
    assert (jobs + [job])[..|jobs|] == jobs;
  }

  method PullOne(store: Store, job: Job, outcome: Outcome, task: Task,
      summary: PullSummary) returns (counted: PullSummary, ghost wrote: bool)
    modifies store`blobs, store`log, store`ticks
    ensures store.Contents() == Run(old(store.Contents()), WriteOf(job, outcome, task), store.clock, store.h)
    ensures |store.log| == |old(store.log)| + if wrote then 1 else 0
    ensures counted == Count(summary, job, outcome, wrote) && (wrote ==> outcome.Fetched?)
  {
    match outcome
    case Raised(error) =>
      wrote := false;
      counted := summary.(failures := summary.failures + 1, errors := summary.errors + [(job.url, error)]);
    case Fetched(doc) =>
      ghost var w := PullWrite(task, job.entity, doc);
      RunOne(store.Contents(), w, store.clock, store.h);
      var inserted := store.StorePulled(task.source, Key(task.org, job.entity), doc, EventOf(task.events, job.entity), task.run);
      wrote := inserted;
      if inserted {
        counted := summary.(successes := summary.successes + 1);
      } else {
        counted := summary.(skippedUnchanged := summary.skippedUnchanged + 1);
      }
  }

  lemma RunOne(s: State, w: Write, clock: nat -> int, h: string -> Hash)
    ensures Run(s, [w], clock, h) == Apply(s, w, clock, h)
  {
    assert [w][..0] == [];
  }

  // What pulling some jobs makes of the store and the summary: one row for each success.
  ghost predicate Pulled(before: State, after: State, jobs: seq<Job>, upstream: Job -> Outcome, task: Task,
                         summary: PullSummary, clock: nat -> int, h: string -> Hash) {
    && after == Run(before, WritesOf(jobs, upstream, task), clock, h)
    && |after.log| == |before.log| + summary.successes
    && Tallies(summary, jobs, upstream)
  }

  ghost predicate Nothing(summary: PullSummary) {
    summary.successes == summary.skippedUnchanged == summary.failures == 0 && summary.errors == []
  }

  method NewSummary() returns (summary: PullSummary)
    ensures Nothing(summary)
  {
    summary := PullSummary(0, 0, 0, []);
  }

  lemma NothingPulled(was: State, jobs: seq<Job>, upstream: Job -> Outcome, task: Task, summary: PullSummary,
                      clock: nat -> int, h: string -> Hash)
    requires Nothing(summary)
    ensures Pulled(was, was, jobs[..0], upstream, task, summary, clock, h)
  {}

  lemma AllPulled(was: State, now: State, jobs: seq<Job>, upstream: Job -> Outcome, task: Task, summary: PullSummary,
                  clock: nat -> int, h: string -> Hash)
    requires Pulled(was, now, jobs[..|jobs|], upstream, task, summary, clock, h)
    ensures Pulled(was, now, jobs, upstream, task, summary, clock, h)
  {
    assert jobs[..|jobs|] == jobs;
  }

  lemma MoreWrites(was: State, mid: State, now: State, jobs: seq<Job>, i: nat, upstream: Job -> Outcome, task: Task,
                   clock: nat -> int, h: string -> Hash)
    requires i < |jobs| && mid == Run(was, WritesOf(jobs[..i], upstream, task), clock, h)
    requires now == Run(mid, WriteOf(jobs[i], upstream(jobs[i]), task), clock, h)
    ensures now == Run(was, WritesOf(jobs[..i + 1], upstream, task), clock, h)
  {
    assert jobs[..i + 1][..i] == jobs[..i];
    RunConcat(was, WritesOf(jobs[..i], upstream, task), WriteOf(jobs[i], upstream(jobs[i]), task), clock, h);
  }

  lemma MoreTallies(jobs: seq<Job>, i: nat, upstream: Job -> Outcome, summary: PullSummary, wrote: bool)
    requires i < |jobs| && Tallies(summary, jobs[..i], upstream) && (wrote ==> upstream(jobs[i]).Fetched?)
    ensures Tallies(Count(summary, jobs[i], upstream(jobs[i]), wrote), jobs[..i + 1], upstream)
  {
    assert jobs[..i + 1] == jobs[..i] + [jobs[i]];
    CountTallies(summary, jobs[..i], jobs[i], upstream, wrote);
  }

  // The job after the first i.
  method PullNth(store: Store, jobs: seq<Job>, i: nat, upstream: Job -> Outcome, task: Task, before: PullSummary,
                 ghost was: State) returns (summary: PullSummary)
    requires i < |jobs| && Pulled(was, store.Contents(), jobs[..i], upstream, task, before, store.clock, store.h)
    modifies store`blobs, store`log, store`ticks
    ensures Pulled(was, store.Contents(), jobs[..i + 1], upstream, task, summary, store.clock, store.h)
  {
    ghost var mid := store.Contents();
    ghost var wrote;
    summary, wrote := PullOne(store, jobs[i], upstream(jobs[i]), task, before);
    MoreWrites(was, mid, store.Contents(), jobs, i, upstream, task, store.clock, store.h);
    MoreTallies(jobs, i, upstream, before, wrote);
  }

  // All of some jobs in order.
  method PullAll(store: Store, jobs: seq<Job>, upstream: Job -> Outcome, task: Task) returns (summary: PullSummary)
    modifies store`blobs, store`log, store`ticks
    ensures Pulled(old(store.Contents()), store.Contents(), jobs, upstream, task, summary, store.clock, store.h)
  {
    summary := NewSummary();
    ghost var was := store.Contents();
    NothingPulled(was, jobs, upstream, task, summary, store.clock, store.h);
    for i := 0 to |jobs|
      invariant Pulled(was, store.Contents(), jobs[..i], upstream, task, summary, store.clock, store.h)
    {
      summary := PullNth(store, jobs, i, upstream, task, summary, was);
    }
    AllPulled(was, store.Contents(), jobs, upstream, task, summary, store.clock, store.h);
  }

  method PullMany(store: Store, jobs: seq<Job>, upstream: Job -> Outcome, task: Task) returns (summary: PullSummary)
    modifies store`blobs, store`log, store`ticks
    ensures Pulled(old(store.Contents()), store.Contents(), Coalesced(jobs), upstream, task, summary, store.clock, store.h)
  {
    var unique := CoalesceJobs(jobs);
    summary := PullAll(store, unique, upstream, task);
  }
}
