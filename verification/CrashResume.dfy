// A baseline that crashes between jobs and is resumed under the same run, while other
// writers keep working on the log.
module CrashResume {
  import opened Wrappers
  import opened ObservationLog
  import opened ConfigStore
  import opened TargetedPuller
  import opened Scanner

  // The baseline does its next job, or another writer does one write; it may be a second
  // task of the same run.
  datatype Move = Own | Other(w: Write)

  // One life of the process: what fetches gave, and what happened until it ended.
  datatype Attempt = Attempt(upstream: Job -> Outcome, moves: seq<Move>)

  function Owns(moves: seq<Move>): nat {
    if moves == [] then 0 else Owns(moves[..|moves| - 1]) + if moves[|moves| - 1].Own? then 1 else 0
  }

  function MoveWrite(todo: seq<Job>, k: nat, m: Move, upstream: Job -> Outcome, task: Task): seq<Write> {
    match m
    case Other(w) => [w]
    case Own => if k < |todo| then WriteOf(todo[k], upstream(todo[k]), task) else []
  }

  function MoveWrites(todo: seq<Job>, moves: seq<Move>, upstream: Job -> Outcome, task: Task): seq<Write> {
    if moves == [] then []
    else
      var front, m := moves[..|moves| - 1], moves[|moves| - 1];
      MoveWrites(todo, front, upstream, task) + MoveWrite(todo, Owns(front), m, upstream, task)
  }

  // A baseline run: its jobs and the run its rows are written under.
  datatype Plan = Plan(org: string, jobs: seq<Job>, id: nat)

  function PlanTask(p: Plan): Task {
    BaselineTask(p.org, p.id)
  }

  // What the next attempt after some writes has to do.
  function Left(s: State, p: Plan, ws: seq<Write>, clock: nat -> int, h: string -> Hash): seq<Job> {
    ToDo(p.jobs, Run(s, ws, clock, h).log, Some(p.id))
  }

  // Every write of all attempts, in order; each attempt asks the log what is left to do.
  function AllWrites(s: State, p: Plan, attempts: seq<Attempt>, clock: nat -> int, h: string -> Hash): seq<Write> {
    if attempts == [] then []
    else
      var ws, a := AllWrites(s, p, attempts[..|attempts| - 1], clock, h), attempts[|attempts| - 1];
      ws + MoveWrites(Left(s, p, ws, clock, h), a.moves, a.upstream, PlanTask(p))
  }

  // An attempt that only works on its jobs and ends after n of them pulls just those.
  lemma {:induction false} OwnMoves(todo: seq<Job>, moves: seq<Move>, upstream: Job -> Outcome, task: Task)
    requires |moves| <= |todo| && forall i :: 0 <= i < |moves| ==> moves[i].Own?
    ensures Owns(moves) == |moves| && MoveWrites(todo, moves, upstream, task) == WritesOf(todo[..|moves|], upstream, task)
  {
    if moves != [] {
      var n := |moves| - 1;
      OwnMoves(todo, moves[..n], upstream, task);
      assert todo[..n + 1][..n] == todo[..n] && todo[..n + 1][n] == todo[n];
    }
  }

  // ----- a constant upstream -----

  type Upstream = Key -> string

  // The write says what upstream has; a run's rows are about its own organisation.
  ghost predicate SteadyWrite(w: Write, u: Upstream, p: Plan) {
    w.doc.text == u(w.key) && (w.run == Some(p.id) ==> w.key.org == p.org)
  }

  ghost predicate SteadyWrites(ws: seq<Write>, u: Upstream, p: Plan) {
    forall i :: 0 <= i < |ws| ==> SteadyWrite(ws[i], u, p)
  }

  ghost predicate SteadyFetches(upstream: Job -> Outcome, u: Upstream, p: Plan) {
    forall job :: upstream(job).Fetched? ==> upstream(job).doc.text == u(Key(p.org, job.entity))
  }

  ghost predicate SteadyMoves(moves: seq<Move>, u: Upstream, p: Plan) {
    forall i :: 0 <= i < |moves| && moves[i].Other? ==> SteadyWrite(moves[i].w, u, p)
  }

  ghost predicate Steady(attempts: seq<Attempt>, u: Upstream, p: Plan) {
    forall i :: 0 <= i < |attempts| ==> SteadyFetches(attempts[i].upstream, u, p) && SteadyMoves(attempts[i].moves, u, p)
  }

  ghost predicate Writes(ws: seq<Write>, key: Key) {
    exists i :: 0 <= i < |ws| && ws[i].key == key
  }

  lemma WritesConcat(x: seq<Write>, y: seq<Write>, key: Key)
    ensures Writes(x + y, key) <==> Writes(x, key) || Writes(y, key)
  {
    if Writes(x, key) {
      var i :| 0 <= i < |x| && x[i].key == key;
      assert (x + y)[i].key == key;
    }
    if Writes(y, key) {
      var i :| 0 <= i < |y| && y[i].key == key;
      assert (x + y)[|x| + i].key == key;
    }
  }

  function LatestHash(s: State, key: Key): Option<Hash> {
    HashOf(Latest(s.log, key))
  }

  lemma WriteSets(s: State, w: Write, clock: nat -> int, h: string -> Hash, key: Key)
    ensures LatestHash(Apply(s, w, clock, h), key) == if w.key == key then Some(h(w.doc.text)) else LatestHash(s, key)
  {
    var o := RowOf(s, w, clock, h);
    assert (s.log + [o])[..|s.log|] == s.log;
  }

  // After any steady writes the latest hash of a key is upstream's exactly where the key
  // was written, and untouched elsewhere.
  lemma {:induction false} SteadyLatest(s: State, ws: seq<Write>, u: Upstream, p: Plan, clock: nat -> int,
      h: string -> Hash, key: Key)
    requires SteadyWrites(ws, u, p)
    ensures LatestHash(Run(s, ws, clock, h), key) == if Writes(ws, key) then Some(h(u(key))) else LatestHash(s, key)
  {
    if ws != [] {
      var front, w := ws[..|ws| - 1], ws[|ws| - 1];
      assert ws == front + [w] && SteadyWrite(w, u, p);
      SteadyLatest(s, front, u, p, clock, h, key);
      WriteSets(Run(s, front, clock, h), w, clock, h, key);
      WritesConcat(front, [w], key);
      assert Writes([w], key) <==> w.key == key by { assert [w][0] == w; }
    }
  }

  // ----- what an attempt writes -----

  lemma OneSteady(todo: seq<Job>, k: nat, m: Move, upstream: Job -> Outcome, u: Upstream, p: Plan)
    requires SteadyFetches(upstream, u, p) && (m.Other? ==> SteadyWrite(m.w, u, p))
    ensures SteadyWrites(MoveWrite(todo, k, m, upstream, PlanTask(p)), u, p)
  {}

  lemma {:induction false} AttemptSteady(todo: seq<Job>, moves: seq<Move>, upstream: Job -> Outcome, u: Upstream,
      p: Plan)
    requires SteadyFetches(upstream, u, p) && SteadyMoves(moves, u, p)
    ensures SteadyWrites(MoveWrites(todo, moves, upstream, PlanTask(p)), u, p)
  {
    if moves != [] {
      var front, m := moves[..|moves| - 1], moves[|moves| - 1];
      AttemptSteady(todo, front, upstream, u, p);
      OneSteady(todo, Owns(front), m, upstream, u, p);
    }
  }

  lemma {:induction false} AllSteady(s: State, p: Plan, attempts: seq<Attempt>, u: Upstream, clock: nat -> int,
      h: string -> Hash)
    requires Steady(attempts, u, p)
    ensures SteadyWrites(AllWrites(s, p, attempts, clock, h), u, p)
  {
    if attempts != [] {
      var front, a := attempts[..|attempts| - 1], attempts[|attempts| - 1];
      AllSteady(s, p, front, u, clock, h);
      AttemptSteady(Left(s, p, AllWrites(s, p, front, clock, h), clock, h), a.moves, a.upstream, u, p);
    }
  }

  // The k-th job left is written once the attempt has come to it and fetched it.
  lemma {:induction false} OwnWritten(todo: seq<Job>, moves: seq<Move>, upstream: Job -> Outcome, p: Plan, k: nat)
    requires k < |todo| && k < Owns(moves) && upstream(todo[k]).Fetched?
    ensures Writes(MoveWrites(todo, moves, upstream, PlanTask(p)), Key(p.org, todo[k].entity))
  {
    var front, m := moves[..|moves| - 1], moves[|moves| - 1];
    var key := Key(p.org, todo[k].entity);
    var x, y := MoveWrites(todo, front, upstream, PlanTask(p)), MoveWrite(todo, Owns(front), m, upstream, PlanTask(p));
    if k < Owns(front) {
      OwnWritten(todo, front, upstream, p, k);
    } else {
      assert m.Own? && y[0].key == key;
    }
    WritesConcat(x, y, key);
  }

  // ----- what counts as done was written -----

  ghost predicate NoRows(log: seq<Observation>, id: nat) {
    forall i :: 0 <= i < |log| ==> log[i].run != Some(id)
  }

  lemma {:induction false} RowsWereWritten(s: State, ws: seq<Write>, u: Upstream, p: Plan, clock: nat -> int,
      h: string -> Hash, i: nat)
    requires NoRows(s.log, p.id) && SteadyWrites(ws, u, p)
    requires i < |Run(s, ws, clock, h).log| && Run(s, ws, clock, h).log[i].run == Some(p.id)
    ensures Run(s, ws, clock, h).log[i].key.org == p.org && Writes(ws, Run(s, ws, clock, h).log[i].key)
  {
    var front, w := ws[..|ws| - 1], ws[|ws| - 1];
    assert ws == front + [w] && SteadyWrite(w, u, p);
    var before := Run(s, front, clock, h);
    if i < |before.log| {
      RowsWereWritten(s, front, u, p, clock, h, i);
      WritesConcat(front, [w], before.log[i].key);
    } else {
      assert [w][0].key == w.key;
      WritesConcat(front, [w], w.key);
    }
  }

  lemma DoneWasWritten(s: State, ws: seq<Write>, u: Upstream, p: Plan, clock: nat -> int, h: string -> Hash, e: Entity)
    requires NoRows(s.log, p.id) && SteadyWrites(ws, u, p) && e in Done(Run(s, ws, clock, h).log, p.id)
    ensures Writes(ws, Key(p.org, e))
  {
    var log := Run(s, ws, clock, h).log;
    var i :| 0 <= i < |log| && log[i].run == Some(p.id) && log[i].key.entity == e;
    RowsWereWritten(s, ws, u, p, clock, h, i);
  }

  // ----- the theorem -----

  // The attempt got through all it had to do and no fetch failed.
  ghost predicate Finishes(todo: seq<Job>, a: Attempt) {
    Owns(a.moves) >= |todo| && forall i :: 0 <= i < |todo| ==> a.upstream(todo[i]).Fetched?
  }

  ghost predicate LastFinishes(s: State, p: Plan, attempts: seq<Attempt>, clock: nat -> int, h: string -> Hash) {
    attempts != [] &&
    Finishes(Left(s, p, AllWrites(s, p, attempts[..|attempts| - 1], clock, h), clock, h), attempts[|attempts| - 1])
  }

  lemma EveryJobWritten(s: State, p: Plan, attempts: seq<Attempt>, u: Upstream, clock: nat -> int, h: string -> Hash,
      e: Entity)
    requires NoRows(s.log, p.id) && Steady(attempts, u, p) && LastFinishes(s, p, attempts, clock, h)
    requires e in Entities(p.jobs)
    ensures Writes(AllWrites(s, p, attempts, clock, h), Key(p.org, e))
  {
    var front, a := attempts[..|attempts| - 1], attempts[|attempts| - 1];
    var ws := AllWrites(s, p, front, clock, h);
    var todo := Left(s, p, ws, clock, h);
    AllSteady(s, p, front, u, clock, h);
    if e in Done(Run(s, ws, clock, h).log, p.id) {
      DoneWasWritten(s, ws, u, p, clock, h, e);
    } else {
      CoalescedMeans(p.jobs);
      var j :| 0 <= j < |Coalesced(p.jobs)| && Coalesced(p.jobs)[j].entity == e;
      assert Coalesced(p.jobs)[j] in todo;
      var k :| 0 <= k < |todo| && todo[k] == Coalesced(p.jobs)[j];
      OwnWritten(todo, a.moves, a.upstream, p, k);
    }
    WritesConcat(ws, MoveWrites(todo, a.moves, a.upstream, PlanTask(p)), Key(p.org, e));
  }

  // However often a baseline crashed and was resumed, and whatever others wrote meanwhile:
  // once an attempt finishes, the latest row of every job carries upstream's hash.
  lemma ResumedIsComplete(s: State, p: Plan, attempts: seq<Attempt>, u: Upstream, clock: nat -> int,
      h: string -> Hash, e: Entity)
    requires NoRows(s.log, p.id) && Steady(attempts, u, p) && LastFinishes(s, p, attempts, clock, h)
    requires e in Entities(p.jobs)
    ensures LatestHash(Run(s, AllWrites(s, p, attempts, clock, h), clock, h), Key(p.org, e)) == Some(h(u(Key(p.org, e))))
  {
    EveryJobWritten(s, p, attempts, u, clock, h, e);
    AllSteady(s, p, attempts, u, clock, h);
    SteadyLatest(s, AllWrites(s, p, attempts, clock, h), u, p, clock, h, Key(p.org, e));
  }

  // ----- the same view as one uninterrupted run -----

  ghost predicate OthersWrite(attempts: seq<Attempt>, key: Key) {
    exists i, j :: 0 <= i < |attempts| && 0 <= j < |attempts[i].moves| && attempts[i].moves[j].Other? && attempts[i].moves[j].w.key == key
  }

  lemma {:induction false} AttemptWrites(todo: seq<Job>, moves: seq<Move>, upstream: Job -> Outcome, p: Plan, key: Key)
    requires forall j :: 0 <= j < |moves| && moves[j].Other? ==> moves[j].w.key != key
    requires Writes(MoveWrites(todo, moves, upstream, PlanTask(p)), key)
    ensures key.org == p.org && key.entity in Entities(todo)
  {
    var front, m := moves[..|moves| - 1], moves[|moves| - 1];
    var x, y := MoveWrites(todo, front, upstream, PlanTask(p)), MoveWrite(todo, Owns(front), m, upstream, PlanTask(p));
    WritesConcat(x, y, key);
    if Writes(x, key) { AttemptWrites(todo, front, upstream, p, key); }
  }

  lemma LeftOfJobs(s: State, p: Plan, ws: seq<Write>, clock: nat -> int, h: string -> Hash)
    ensures Entities(Left(s, p, ws, clock, h)) <= Entities(p.jobs)
  {
    CoalescedMeans(p.jobs);
    var todo := Left(s, p, ws, clock, h);
    forall i | 0 <= i < |todo| ensures todo[i].entity in Entities(p.jobs) {
      assert todo[i] in todo;
    }
  }

  // Apart from the others' writes, only keys of the plan's jobs are written.
  lemma {:induction false} OnlyJobsWritten(s: State, p: Plan, attempts: seq<Attempt>, clock: nat -> int,
      h: string -> Hash, key: Key)
    requires !OthersWrite(attempts, key) && Writes(AllWrites(s, p, attempts, clock, h), key)
    ensures key.org == p.org && key.entity in Entities(p.jobs)
  {
    var n := |attempts| - 1;
    var front, a := attempts[..n], attempts[n];
    var ws := AllWrites(s, p, front, clock, h);
    var todo := Left(s, p, ws, clock, h);
    WritesConcat(ws, MoveWrites(todo, a.moves, a.upstream, PlanTask(p)), key);
    if Writes(ws, key) {
      assert !OthersWrite(front, key);
      OnlyJobsWritten(s, p, front, clock, h, key);
    } else {
      assert forall j :: 0 <= j < |a.moves| && a.moves[j].Other? ==> attempts[n].moves[j].w.key != key;
      AttemptWrites(todo, a.moves, a.upstream, p, key);
      LeftOfJobs(s, p, ws, clock, h);
    }
  }

  // Two histories of one plan that both finish, whatever their crashes, show the same
  // latest hash for every key that no other writer touched; one of them may be a single
  // uninterrupted attempt.
  lemma CrashesDoNotShow(s: State, p: Plan, attempts: seq<Attempt>, smooth: seq<Attempt>, u: Upstream,
      clock: nat -> int, h: string -> Hash, key: Key)
    requires NoRows(s.log, p.id)
    requires Steady(attempts, u, p) && LastFinishes(s, p, attempts, clock, h) && !OthersWrite(attempts, key)
    requires Steady(smooth, u, p) && LastFinishes(s, p, smooth, clock, h) && !OthersWrite(smooth, key)
    ensures LatestHash(Run(s, AllWrites(s, p, attempts, clock, h), clock, h), key)
            == LatestHash(Run(s, AllWrites(s, p, smooth, clock, h), clock, h), key)
  {
    if key.org == p.org && key.entity in Entities(p.jobs) {
      assert key == Key(p.org, key.entity);
      ResumedIsComplete(s, p, attempts, u, clock, h, key.entity);
      ResumedIsComplete(s, p, smooth, u, clock, h, key.entity);
    } else {
      Untouched(s, p, attempts, u, clock, h, key);
      Untouched(s, p, smooth, u, clock, h, key);
    }
  }

  lemma Untouched(s: State, p: Plan, attempts: seq<Attempt>, u: Upstream, clock: nat -> int, h: string -> Hash,
      key: Key)
    requires Steady(attempts, u, p) && !OthersWrite(attempts, key)
    requires !(key.org == p.org && key.entity in Entities(p.jobs))
    ensures LatestHash(Run(s, AllWrites(s, p, attempts, clock, h), clock, h), key) == LatestHash(s, key)
  {
    AllSteady(s, p, attempts, u, clock, h);
    SteadyLatest(s, AllWrites(s, p, attempts, clock, h), u, p, clock, h, key);
    if Writes(AllWrites(s, p, attempts, clock, h), key) { OnlyJobsWritten(s, p, attempts, clock, h, key); }
  }
}
