/**
 * The CI queue, its single worker, cancellation, crashes and boot recovery (apps/api/src/ci/runner.ts,
 * apps/api/src/ci/boot.ts, apps/api/src/ci/summary.ts). A step runs from one await to the next; database
 * writes are atomic and may be refused.
 */
module CiRunner {
  import opened Wrappers
  import opened Collections

  datatype Conclusion = Success | Failure | Cancelled

  datatype Job = JobQueued | JobRunning | JobCompleted(conclusion: Conclusion)

  datatype Status = Queued | Running | Completed(conclusion: Conclusion)

  /** A WorkflowRun row with its CheckRun rows in job order; `stored` says whether its repository has a storage key. */
  datatype Row = Row(status: Status, jobs: seq<Job>, stored: bool)

  /** Where the worker awaits. `next` is the job at hand and `failed` whether an earlier one failed. */
  datatype Worker =
    | Idle
    | Fetching(run: nat)
    | FailWrite(run: nat)                                  // failRun inside executeRun
    | CatchWrite(run: nat)                                 // failRun in pump's catch
    | FinalizeJobs(run: nat)
    | FinalizeRun(run: nat)
    | StartWrite(run: nat)
    | JobDir(run: nat, next: nat, failed: bool)
    | JobStart(run: nat, next: nat, failed: bool)
    | JobLoad(run: nat, next: nat, failed: bool)
    | JobClone(run: nat, next: nat, failed: bool)
    | JobStep(run: nat, next: nat, failed: bool, left: nat)
    | JobCleanup(run: nat, next: nat, failed: bool, verdict: Conclusion)
    | JobFinish(run: nat, next: nat, failed: bool, verdict: Conclusion)
    | CancelJobs(run: nat)
    | CancelRun(run: nat)
    | CompleteWrite(run: nat, failed: bool)

  /** A `cancelRun` call past its synchronous part. */
  datatype Canceler = CancelerJobs(run: nat) | CancelerRun(run: nat)

  /** Boot recovery, before the server listens; `ids` are the runs found orphaned. */
  datatype Boot = Up | BootRead | BootJobs(ids: set<nat>) | BootRuns(ids: set<nat>)

  /** What has happened since the process started, beside `failRuns` and `seen`, which span restarts. */
  datatype Past = Past(enqueued: seq<nat>, started: seq<nat>, pulled: set<nat>, failRuns: set<nat>, seen: set<nat>)

  datatype State = State(db: map<nat, Row>, created: set<nat>, queue: seq<nat>, processing: bool, cancelRequested: set<nat>,
                         active: Option<nat>, worker: Worker, cancelers: map<nat, Canceler>, boot: Boot, past: Past)

  /** How an await ended: rejected, or resolved with what the next branch tests. */
  datatype Outcome = Outcome(ok: bool, good: bool, steps: nat)

  datatype Event =
    | Create(run: nat, jobs: nat, stored: bool)
    | Enqueue(run: nat)
    | Cancel(run: nat, caller: nat)
    | CancelerStep(caller: nat, ok: bool)
    | WorkerStep(outcome: Outcome)
    | Crash
    | BootStep(ok: bool)

  // ------------------------------------------------------------------ database

  function CompleteRest(jobs: seq<Job>, c: Conclusion): (r: seq<Job>)
    ensures |r| == |jobs|
    ensures forall i :: 0 <= i < |jobs| ==> r[i] == if jobs[i].JobCompleted? then jobs[i] else JobCompleted(c)
  {
    if jobs == [] then []
    else [if jobs[0].JobCompleted? then jobs[0] else JobCompleted(c)] + CompleteRest(jobs[1..], c)
  }

  /** `checkRun.updateMany` over the jobs of `ids` that are not completed. */
  function MarkJobs(db: map<nat, Row>, ids: set<nat>, c: Conclusion): map<nat, Row> {
    map r | r in db :: if r in ids then db[r].(jobs := CompleteRest(db[r].jobs, c)) else db[r]
  }

  /** `workflowRun.updateMany` over the runs of `ids` that are not completed. */
  function MarkRuns(db: map<nat, Row>, ids: set<nat>, c: Conclusion): map<nat, Row> {
    map r | r in db :: if r in ids && !db[r].status.Completed? then db[r].(status := Completed(c)) else db[r]
  }

  function SetStatus(db: map<nat, Row>, r: nat, status: Status): map<nat, Row> {
    if r in db then db[r := db[r].(status := status)] else db
  }

  function SetJob(db: map<nat, Row>, r: nat, i: nat, job: Job): map<nat, Row> {
    if r in db && i < |db[r].jobs| then db[r := db[r].(jobs := db[r].jobs[i := job])] else db
  }

  function Orphaned(db: map<nat, Row>): set<nat> { set r | r in db && !db[r].status.Completed? }

  // --------------------------------------------------------------------- steps

  /** What the worker leaves alone, and how it serves the queue. */
  predicate Served(s: State, s': State) {
    && s'.created == s.created && s'.db.Keys == s.db.Keys && s.past.seen <= s'.past.seen
    && s'.past.enqueued == s.past.enqueued && s'.past.pulled == s.past.pulled
    && if s'.queue == s.queue then s'.past.started == s.past.started
       else s.queue != [] && s'.queue == s.queue[1..] && s'.past.started == s.past.started + [s.queue[0]]
  }

  /** `pump`: take the next run, or stop. */
  function Pump(s: State): (s': State)
    ensures Served(s, s')
  {
    if s.queue == [] then s.(processing := false, worker := Idle)
    else
      s.(processing := true, queue := s.queue[1..], active := Some(s.queue[0]), worker := Fetching(s.queue[0]),
         past := s.past.(started := s.past.started + [s.queue[0]]))
  }

  /** The `finally` after a run, and the loop test. */
  function Finish(s: State, r: nat): (s': State)
    ensures Served(s, s')
  {
    Pump(s.(active := None, cancelRequested := s.cancelRequested - {r}))
  }

  function Go(s: State, w: Worker): State { s.(worker := w) }

  /** A checkpoint that found the cancel flag. */
  function Seen(s: State, r: nat): State { s.(past := s.past.(seen := s.past.seen + {r})) }

  function FailRun(s: State, r: nat): State {
    s.(db := SetStatus(s.db, r, Completed(Failure)), past := s.past.(failRuns := s.past.failRuns + {r}))
  }

  /** The head of the job loop. */
  function NextJob(s: State, r: nat, i: nat, failed: bool): (s': State)
    ensures Served(s, s')
  {
    if r !in s.db || i >= |s.db[r].jobs| then Go(s, CompleteWrite(r, failed))
    else if r in s.cancelRequested then Go(Seen(s, r), CancelJobs(r))
    else Go(s, JobDir(r, i, failed))
  }

  /** The head of the step loop; `timeUp`: the job's budget is spent. */
  function NextStep(s: State, r: nat, i: nat, failed: bool, left: nat, timeUp: bool): (s': State)
    ensures Served(s, s')
  {
    if left == 0 then Go(s, JobCleanup(r, i, failed, Success))
    else if r in s.cancelRequested then Go(Seen(s, r), JobCleanup(r, i, failed, Cancelled))
    else if timeUp then Go(s, JobCleanup(r, i, failed, Failure))
    else Go(s, JobStep(r, i, failed, left - 1))
  }

  /** The `catch` inside a job. */
  function JobThrew(s: State, r: nat, i: nat, failed: bool): (s': State)
    ensures Served(s, s')
  {
    if r in s.cancelRequested then Go(Seen(s, r), JobCleanup(r, i, failed, Cancelled)) else Go(s, JobCleanup(r, i, failed, Failure))
  }

  predicate InJob(w: Worker) {
    w.JobDir? || w.JobStart? || w.JobLoad? || w.JobClone? || w.JobStep? || w.JobCleanup? || w.JobFinish?
  }

  function WorkOnJob(s: State, o: Outcome): (s': State)
    requires InJob(s.worker)
    ensures Served(s, s')
  {
    var r := s.worker.run;
    match s.worker
    case JobDir(_, i, f) => if o.ok then Go(s, JobStart(r, i, f)) else Go(s, CatchWrite(r))
    case JobStart(_, i, f) => if o.ok then Go(s.(db := SetJob(s.db, r, i, JobRunning)), JobLoad(r, i, f)) else Go(s, CatchWrite(r))
    case JobLoad(_, i, f) =>
      if !o.ok then JobThrew(s, r, i, f)
      else if !o.good then Go(s, JobCleanup(r, i, f, Failure))
      else Go(s, JobClone(r, i, f))
    case JobClone(_, i, f) =>
      if !o.ok then JobThrew(s, r, i, f)
      else if r in s.cancelRequested then Go(Seen(s, r), JobCleanup(r, i, f, Cancelled))
      else if !o.good then Go(s, JobCleanup(r, i, f, Failure))
      else NextStep(s, r, i, f, o.steps, false)
    case JobStep(_, i, f, left) =>
      if r in s.cancelRequested then Go(Seen(s, r), JobCleanup(r, i, f, Cancelled))
      else if !o.good then Go(s, JobCleanup(r, i, f, Failure))
      else NextStep(s, r, i, f, left, o.steps == 0)
    case JobCleanup(_, i, f, c) => if o.ok then Go(s, JobFinish(r, i, f, c)) else Go(s, CatchWrite(r))
    case JobFinish(_, i, f, c) =>
      if !o.ok then Go(s, CatchWrite(r))
      else
        var s' := s.(db := SetJob(s.db, r, i, JobCompleted(c)));
        if c == Cancelled then Go(s', CancelJobs(r)) else NextJob(s', r, i + 1, f || c == Failure)
  }

  function WorkOnRun(s: State, o: Outcome): (s': State)
    requires !s.worker.Idle? && !InJob(s.worker)
    ensures Served(s, s')
  {
    var r := s.worker.run;
    match s.worker
    case Fetching(_) =>
      if !o.ok then Go(s, CatchWrite(r))
      else if r !in s.db then Finish(s, r)
      else if !s.db[r].stored then Go(s, FailWrite(r))
      else if r in s.cancelRequested then Go(Seen(s, r), FinalizeJobs(r))
      else Go(s, StartWrite(r))
    case FailWrite(_) => if o.ok then Finish(FailRun(s, r), r) else Go(s, CatchWrite(r))
    case CatchWrite(_) => if o.ok then Finish(FailRun(s, r), r) else Finish(s, r)
    case FinalizeJobs(_) => if o.ok then Go(s.(db := MarkJobs(s.db, {r}, Cancelled)), FinalizeRun(r)) else Go(s, CatchWrite(r))
    case FinalizeRun(_) => if o.ok then Finish(s.(db := MarkRuns(s.db, {r}, Cancelled)), r) else Go(s, CatchWrite(r))
    case StartWrite(_) => if o.ok then NextJob(s.(db := SetStatus(s.db, r, Running)), r, 0, false) else Go(s, CatchWrite(r))
    case CancelJobs(_) => if o.ok then Go(s.(db := MarkJobs(s.db, {r}, Cancelled)), CancelRun(r)) else Go(s, CatchWrite(r))
    case CancelRun(_) => if o.ok then Finish(s.(db := SetStatus(s.db, r, Completed(Cancelled))), r) else Go(s, CatchWrite(r))
    case CompleteWrite(_, f) =>
      if o.ok then Finish(s.(db := SetStatus(s.db, r, Completed(if f then Failure else Success))), r) else Go(s, CatchWrite(r))
  }

  /** The worker's await ended. */
  function Work(s: State, o: Outcome): (s': State)
    requires !s.worker.Idle?
    ensures Served(s, s')
  {
    if InJob(s.worker) then WorkOnJob(s, o) else WorkOnRun(s, o)
  }

  function Without(q: seq<nat>, r: nat): seq<nat> {
    if q == [] then [] else if q[0] == r then q[1..] else [q[0]] + Without(q[1..], r)
  }

  predicate Enabled(s: State, e: Event) {
    match e
    case Create(r, _, _) => s.boot.Up? && r !in s.db
    case Enqueue(r) => s.boot.Up? && r in s.created
    case Cancel(r, k) => s.boot.Up? && r in s.db && r !in s.created && k !in s.cancelers
    case CancelerStep(k, _) => s.boot.Up? && k in s.cancelers
    case WorkerStep(_) => s.boot.Up? && !s.worker.Idle?
    case Crash => true
    case BootStep(_) => !s.boot.Up?
  }

  function Step(s: State, e: Event): State
    requires Enabled(s, e)
  {
    match e
    case Create(r, n, stored) => s.(db := s.db[r := Row(Queued, seq(n, _ => JobQueued), stored)], created := s.created + {r})
    case Enqueue(r) =>
      var s' := s.(created := s.created - {r}, queue := s.queue + [r], past := s.past.(enqueued := s.past.enqueued + [r]));
      if s'.processing then s' else Pump(s')
    case Cancel(r, k) =>
      var s' := s.(cancelRequested := s.cancelRequested + {r}, queue := Without(s.queue, r),
                   past := if r in s.queue then s.past.(pulled := s.past.pulled + {r}) else s.past);
      if s.active == Some(r) then s' else s'.(cancelers := s.cancelers[k := CancelerJobs(r)])
    case CancelerStep(k, ok) =>
      var c := s.cancelers[k];
      if !ok then s.(cancelers := s.cancelers - {k})
      else if c.CancelerJobs? then s.(db := MarkJobs(s.db, {c.run}, Cancelled), cancelers := s.cancelers[k := CancelerRun(c.run)])
      else s.(db := MarkRuns(s.db, {c.run}, Cancelled), cancelers := s.cancelers - {k}, cancelRequested := s.cancelRequested - {c.run})
    case WorkerStep(o) => Work(s, o)
    case Crash =>
      State(s.db, {}, [], false, {}, None, Idle, map[], BootRead, Past([], [], {}, s.past.failRuns, s.past.seen))
    case BootStep(ok) =>
      if !ok then s.(boot := Up)
      else
        match s.boot
        case BootRead => if Orphaned(s.db) == {} then s.(boot := Up) else s.(boot := BootJobs(Orphaned(s.db)))
        case BootJobs(ids) => s.(db := MarkJobs(s.db, ids, Failure), boot := BootRuns(ids))
        case BootRuns(ids) => s.(db := MarkRuns(s.db, ids, Failure), boot := Up)
        case Up => s
  }

  // ----------------------------------------------------------------- invariants

  predicate AllCompleted(jobs: seq<Job>) { forall i :: 0 <= i < |jobs| ==> jobs[i].JobCompleted? }

  predicate AllSuccess(jobs: seq<Job>, n: nat) { forall i :: 0 <= i < |jobs| && i < n ==> jobs[i] == JobCompleted(Success) }

  predicate DoneUpTo(jobs: seq<Job>, n: nat, failed: bool) {
    n <= |jobs| && (forall i :: 0 <= i < n ==> jobs[i].JobCompleted?) && (!failed ==> AllSuccess(jobs, n))
  }

  /** A completed run has only completed jobs, unless `failRun` wrote it; a successful one only successful jobs. */
  predicate RowSound(r: nat, row: Row, past: Past) {
    match row.status
    case Completed(c) =>
      (r !in past.failRuns ==> AllCompleted(row.jobs)) &&
      (c == Success ==> AllSuccess(row.jobs, |row.jobs|) && r !in past.seen)
    case _ => true
  }

  /** What the worker knows about its run's rows. */
  predicate WorkerSound(s: State) {
    if s.worker.Idle? then s.active == None
    else
      var r := s.worker.run;
      && s.active == Some(r) && r in s.db && !s.db[r].status.Completed?
      && (r in s.past.seen ==> AfterCheckpoint(s.worker))
      && Knows(s.worker, s.db[r].jobs)
  }

  predicate Knows(w: Worker, jobs: seq<Job>) {
    && (w.FinalizeRun? || w.CancelRun? ==> AllCompleted(jobs))
    && (w.CompleteWrite? ==> DoneUpTo(jobs, |jobs|, w.failed))
    && (InJob(w) ==> w.next < |jobs| && DoneUpTo(jobs, w.next, w.failed))
  }

  /** Once a checkpoint has seen the cancel flag, the run is on its way to a cancelled or failed end. */
  predicate AfterCheckpoint(w: Worker) {
    w.FinalizeJobs? || w.FinalizeRun? || w.CancelJobs? || w.CancelRun? || w.CatchWrite? ||
    ((w.JobCleanup? || w.JobFinish?) && w.verdict == Cancelled)
  }

  function Dropping(q: seq<nat>, gone: set<nat>): seq<nat> {
    if q == [] then [] else if q[0] in gone then Dropping(q[1..], gone) else [q[0]] + Dropping(q[1..], gone)
  }

  /** No lost wakeup, one worker, and starts in enqueue order without the runs pulled by a cancel. */
  predicate QueueSound(s: State) {
    && (s.processing <==> !s.worker.Idle?)
    && (s.queue != [] ==> s.processing)
    && Distinct(s.past.enqueued)
    && (forall r :: r in s.past.pulled ==> r in s.past.enqueued)
    && Dropping(s.past.enqueued, s.past.pulled) == s.past.started + s.queue
    && (s.active.Some? ==> s.past.started != [] && s.past.started[|s.past.started| - 1] == s.active.value)
  }

  /** Rows nobody has taken up yet, and cancelers keeping to rows the worker will never touch. */
  predicate RowsSound(s: State) {
    && (forall r :: r in s.created ==> r in s.db && s.db[r].status == Queued && r !in s.past.enqueued && r !in s.past.seen)
    && (forall r :: r in s.past.enqueued ==> r in s.db)
    && (forall i :: 0 <= i < |s.queue| ==> s.queue[i] in s.db && s.db[s.queue[i]].status == Queued && s.queue[i] !in s.past.seen)
    && (forall k :: k in s.cancelers ==> CancelerSound(s, s.cancelers[k]))
    && (forall r :: r in s.past.seen ==> r in s.db)
  }

  predicate CancelerSound(s: State, c: Canceler) {
    && c.run in s.db && c.run !in s.created && c.run !in s.queue && s.active != Some(c.run)
    && (c.CancelerRun? ==> AllCompleted(s.db[c.run].jobs))
  }

  predicate BootSound(s: State) {
    match s.boot
    case Up => true
    case BootRead => Quiet(s)
    case BootJobs(ids) => Quiet(s) && ids == Orphaned(s.db)
    case BootRuns(ids) => Quiet(s) && ids == Orphaned(s.db) && forall r :: r in ids ==> AllCompleted(s.db[r].jobs)
  }

  predicate Quiet(s: State) { s.worker.Idle? && s.cancelers == map[] && s.queue == [] && s.created == {} && s.past.enqueued == [] }

  predicate Inv(s: State) {
    && (forall r :: r in s.db ==> RowSound(r, s.db[r], s.past))
    && WorkerSound(s) && QueueSound(s) && RowsSound(s) && BootSound(s)
  }

  // ------------------------------------------------------------ queue arithmetic

  lemma {:induction false} DroppingKeeps(q: seq<nat>, gone: set<nat>)
    ensures forall r :: r in Dropping(q, gone) <==> r in q && r !in gone
    ensures Distinct(q) ==> Distinct(Dropping(q, gone))
  {
    if q != [] {
      DroppingKeeps(q[1..], gone);
      assert q == [q[0]] + q[1..];
    }
  }

  lemma {:induction false} DroppingAppend(q: seq<nat>, r: nat, gone: set<nat>)
    ensures Dropping(q + [r], gone) == Dropping(q, gone) + (if r in gone then [] else [r])
  {
    if q == [] {
      assert q + [r] == [r] && [r][1..] == [];
    } else {
      assert (q + [r])[1..] == q[1..] + [r];
      DroppingAppend(q[1..], r, gone);
    }
  }

  lemma {:induction false} WithoutAbsent(q: seq<nat>, r: nat)
    requires r !in q
    ensures Without(q, r) == q
  {
    if q != [] { WithoutAbsent(q[1..], r); }
  }

  lemma {:induction false} WithoutMembers(q: seq<nat>, r: nat)
    requires Distinct(q)
    ensures forall x :: x in Without(q, r) <==> x in q && x != r
  {
    if q != [] {
      assert q == [q[0]] + q[1..];
      if q[0] != r { WithoutMembers(q[1..], r); }
    }
  }

  lemma {:induction false} WithoutAppend(a: seq<nat>, b: seq<nat>, r: nat)
    requires r !in a
    ensures Without(a + b, r) == a + Without(b, r)
  {
    if a == [] {
      assert a + b == b;
    } else {
      assert (a + b)[1..] == a[1..] + b;
      WithoutAppend(a[1..], b, r);
    }
  }

  lemma {:induction false} DroppingOneMore(q: seq<nat>, gone: set<nat>, r: nat)
    requires Distinct(q)
    ensures Dropping(q, gone + {r}) == Without(Dropping(q, gone), r)
  {
    if q != [] {
      DroppingOneMore(q[1..], gone, r);
      DroppingKeeps(q[1..], gone);
      if q[0] == r && r !in gone {
        assert r !in q[1..];
        WithoutAbsent(Dropping(q[1..], gone), r);
        assert ([r] + Dropping(q[1..], gone))[1..] == Dropping(q[1..], gone);
      } else if q[0] !in gone {
        assert ([q[0]] + Dropping(q[1..], gone))[1..] == Dropping(q[1..], gone);
      }
    }
  }

  /** The run at work has left the queue for good, and waits in nobody else's hands. */
  lemma ActiveIsAlone(s: State)
    requires Inv(s) && s.active.Some?
    ensures s.active.value !in s.queue && s.active.value in s.past.enqueued && s.active.value !in s.created
  {
    var r, all := s.active.value, s.past.started + s.queue;
    DroppingKeeps(s.past.enqueued, s.past.pulled);
    var last := |s.past.started| - 1;
    assert all[last] == r && r in all;
    assert forall i :: 0 <= i < |s.queue| ==> s.queue[i] == all[last + 1 + i];
  }

  lemma QueuedIsNotStarted(s: State, r: nat)
    requires QueueSound(s) && r in s.queue
    ensures r !in s.past.started && r in s.past.enqueued
  {
    var all := s.past.started + s.queue;
    DroppingKeeps(s.past.enqueued, s.past.pulled);
    var i :| 0 <= i < |s.queue| && s.queue[i] == r;
    assert all[|s.past.started| + i] == r && r in all;
    assert forall j :: 0 <= j < |s.past.started| ==> s.past.started[j] == all[j];
  }

  // ------------------------------------------------------------- one step at a time

  /** The queue's own account, between two runs. */
  predicate QueueAccount(s: State) {
    && Distinct(s.past.enqueued)
    && (forall r :: r in s.past.pulled ==> r in s.past.enqueued)
    && Dropping(s.past.enqueued, s.past.pulled) == s.past.started + s.queue
  }

  lemma PumpKeepsQueue(s: State)
    requires QueueAccount(s) && s.active == None
    ensures QueueSound(Pump(s))
    ensures forall i :: 0 <= i < |Pump(s).queue| ==> Pump(s).queue[i] in s.queue && Pump(s).queue[i] != s.queue[0]
  {
    if s.queue != [] {
      var all := s.past.started + s.queue;
      assert s.queue == [s.queue[0]] + s.queue[1..];
      assert Pump(s).past.started + Pump(s).queue == all;
      DroppingKeeps(s.past.enqueued, s.past.pulled);
      assert all[|s.past.started|] == s.queue[0];
      assert forall i :: 0 <= i < |s.queue| - 1 ==> s.queue[1..][i] == all[|s.past.started| + 1 + i];
    }
  }

  lemma PumpKeeps(s: State)
    requires forall r :: r in s.db ==> RowSound(r, s.db[r], s.past)
    requires s.active == None && s.boot.Up? && RowsSound(s) && QueueAccount(s)
    ensures Inv(Pump(s))
  {
    var s' := Pump(s);
    PumpKeepsQueue(s);
    if s.queue != [] {
      forall k | k in s'.cancelers ensures CancelerSound(s', s'.cancelers[k]) { assert CancelerSound(s, s.cancelers[k]); }
    }
  }

  lemma CreateKeeps(s: State, r: nat, n: nat, stored: bool)
    requires Inv(s) && Enabled(s, Create(r, n, stored))
    ensures Inv(Step(s, Create(r, n, stored)))
  {
  }

  lemma EnqueueKeeps(s: State, r: nat)
    requires Inv(s) && Enabled(s, Enqueue(r))
    ensures Inv(Step(s, Enqueue(r)))
  {
    var s' := s.(created := s.created - {r}, queue := s.queue + [r], past := s.past.(enqueued := s.past.enqueued + [r]));
    DroppingAppend(s.past.enqueued, r, s.past.pulled);
    assert (s.past.started + s.queue) + [r] == s.past.started + s'.queue;
    assert forall i :: 0 <= i < |s'.queue| ==> s'.queue[i] == if i < |s.queue| then s.queue[i] else r;
    assert Distinct(s'.past.enqueued) by {
      assert forall i :: 0 <= i < |s.past.enqueued| ==> s'.past.enqueued[i] == s.past.enqueued[i];
    }
    assert forall k :: k in s.cancelers ==> CancelerSound(s, s.cancelers[k]);
    assert RowsSound(s');
    if !s.processing { PumpKeeps(s'); }
  }

  lemma CancelKeepsQueue(s: State, r: nat, k: nat)
    requires QueueSound(s) && Enabled(s, Cancel(r, k))
    ensures QueueSound(Step(s, Cancel(r, k)))
    ensures forall x :: x in Step(s, Cancel(r, k)).queue <==> x in s.queue && x != r
  {
    if r in s.queue {
      QueuedIsNotStarted(s, r);
      DroppingOneMore(s.past.enqueued, s.past.pulled, r);
      WithoutAppend(s.past.started, s.queue, r);
    } else {
      WithoutAbsent(s.queue, r);
    }
    QueueDistinct(s);
    WithoutMembers(s.queue, r);
  }

  lemma CancelKeeps(s: State, r: nat, k: nat)
    requires Inv(s) && Enabled(s, Cancel(r, k))
    ensures Inv(Step(s, Cancel(r, k)))
  {
    var s' := Step(s, Cancel(r, k));
    CancelKeepsQueue(s, r, k);
    assert RowsSound(s') by {
      assert forall i :: 0 <= i < |s'.queue| ==> s'.queue[i] in s'.queue;
      forall j | j in s'.cancelers ensures CancelerSound(s', s'.cancelers[j]) {
        if j in s.cancelers { assert CancelerSound(s, s.cancelers[j]); }
      }
    }
  }

  lemma QueueDistinct(s: State)
    requires QueueSound(s)
    ensures Distinct(s.queue)
  {
    var all := s.past.started + s.queue;
    DroppingKeeps(s.past.enqueued, s.past.pulled);
    assert forall i :: 0 <= i < |s.queue| ==> s.queue[i] == all[|s.past.started| + i];
  }

  lemma MarkJobsSound(db: map<nat, Row>, ids: set<nat>, c: Conclusion, past: Past)
    requires forall r :: r in db ==> RowSound(r, db[r], past)
    ensures forall r :: r in db ==> RowSound(r, MarkJobs(db, ids, c)[r], past)
    ensures forall r :: r in db && r in ids ==> AllCompleted(MarkJobs(db, ids, c)[r].jobs)
    ensures Orphaned(MarkJobs(db, ids, c)) == Orphaned(db)
  {
    var db' := MarkJobs(db, ids, c);
    assert forall r :: r in db ==> r in db' && db'[r].status == db[r].status;
  }

  lemma MarkRunsSound(db: map<nat, Row>, ids: set<nat>, c: Conclusion, past: Past)
    requires c != Success && forall r :: r in db ==> RowSound(r, db[r], past)
    requires forall r :: r in db && r in ids ==> AllCompleted(db[r].jobs)
    ensures forall r :: r in db ==> RowSound(r, MarkRuns(db, ids, c)[r], past)
  {
  }

  lemma CancelerKeepsRows(s: State, k: nat, ok: bool)
    requires RowsSound(s) && Enabled(s, CancelerStep(k, ok))
    ensures RowsSound(Step(s, CancelerStep(k, ok)))
  {
    var s', c := Step(s, CancelerStep(k, ok)), s.cancelers[k];
    assert CancelerSound(s, c);
    forall j | j in s'.cancelers ensures CancelerSound(s', s'.cancelers[j]) {
      if j in s.cancelers { assert CancelerSound(s, s.cancelers[j]); }
    }
  }

  lemma CancelerKeeps(s: State, k: nat, ok: bool)
    requires Inv(s) && Enabled(s, CancelerStep(k, ok))
    ensures Inv(Step(s, CancelerStep(k, ok)))
  {
    var c := s.cancelers[k];
    assert CancelerSound(s, c);
    CancelerKeepsRows(s, k, ok);
    if c.CancelerJobs? { MarkJobsSound(s.db, {c.run}, Cancelled, s.past); } else { MarkRunsSound(s.db, {c.run}, Cancelled, s.past); }
  }

  lemma CrashKeeps(s: State)
    requires Inv(s)
    ensures Inv(Step(s, Crash))
  {
  }

  lemma BootKeeps(s: State, ok: bool)
    requires Inv(s) && Enabled(s, BootStep(ok))
    ensures Inv(Step(s, BootStep(ok)))
  {
    match s.boot
    case BootJobs(ids) =>
      MarkJobsSound(s.db, ids, Failure, s.past);
      if ok { BootJobsKeeps(s, ids); }
    case BootRuns(ids) =>
      MarkRunsSound(s.db, ids, Failure, s.past);
      if ok { BootRunsKeeps(s, ids); }
    case _ =>
  }

  lemma BootJobsKeeps(s: State, ids: set<nat>)
    requires Inv(s) && s.boot == BootJobs(ids)
    requires forall r :: r in s.db ==> RowSound(r, MarkJobs(s.db, ids, Failure)[r], s.past)
    ensures Inv(Step(s, BootStep(true)))
  {
    MarkJobsSound(s.db, ids, Failure, s.past);
  }

  lemma BootRunsKeeps(s: State, ids: set<nat>)
    requires Inv(s) && s.boot == BootRuns(ids)
    requires forall r :: r in s.db ==> RowSound(r, MarkRuns(s.db, ids, Failure)[r], s.past)
    ensures Inv(Step(s, BootStep(true)))
  {
  }

  // ------------------------------------------------------------------- the worker

  /** The worker's run has new rows, and perhaps a new mark in its history. */
  predicate AtWork(s: State, s': State, row: Row) {
    && !s.worker.Idle? && s.worker.run in s.db
    && ((s'.db == s.db && row == s.db[s.worker.run]) || s'.db == s.db[s.worker.run := row])
    && s'.created == s.created && s'.queue == s.queue && s'.processing == s.processing && s'.cancelRequested == s.cancelRequested
    && s'.active == s.active && s'.cancelers == s.cancelers && s'.boot == s.boot
    && s'.past.enqueued == s.past.enqueued && s'.past.started == s.past.started && s'.past.pulled == s.past.pulled
    && (s'.past.seen == s.past.seen || s'.past.seen == s.past.seen + {s.worker.run})
    && (s'.past.failRuns == s.past.failRuns || s'.past.failRuns == s.past.failRuns + {s.worker.run})
  }

  lemma OthersStay(s: State, s': State, row: Row)
    requires Inv(s) && AtWork(s, s', row) && RowSound(s.worker.run, row, s'.past)
    ensures (forall r :: r in s'.db ==> RowSound(r, s'.db[r], s'.past)) && RowsSound(s')
  {
    ActiveIsAlone(s);
    forall r | r in s'.db ensures RowSound(r, s'.db[r], s'.past) {
      if r != s.worker.run { assert RowSound(r, s.db[r], s.past); }
    }
    forall k | k in s'.cancelers ensures CancelerSound(s', s'.cancelers[k]) { assert CancelerSound(s, s.cancelers[k]); }
  }

  /** The worker goes on with the same run. */
  lemma WorkGoesOn(s: State, s': State, row: Row)
    requires Inv(s) && AtWork(s, s', row) && RowSound(s.worker.run, row, s'.past)
    requires !s'.worker.Idle? && WorkerSound(s') && s.boot.Up?
    ensures Inv(s')
  {
    OthersStay(s, s', row);
  }

  /** The worker is done with its run. */
  lemma WorkEnds(s: State, s': State, row: Row)
    requires Inv(s) && AtWork(s, s', row) && RowSound(s.worker.run, row, s'.past) && s.boot.Up?
    ensures Inv(Finish(s', s.worker.run))
  {
    OthersStay(s, s', row);
    var s'' := s'.(active := None, cancelRequested := s'.cancelRequested - {s.worker.run});
    assert RowsSound(s'') by {
      forall k | k in s''.cancelers ensures CancelerSound(s'', s''.cancelers[k]) { assert CancelerSound(s', s'.cancelers[k]); }
    }
    PumpKeeps(s'');
  }

  /** A rejected await outside a job's own try: `pump`'s catch takes over. */
  lemma ThrowKeeps(s: State)
    requires Inv(s) && s.boot.Up? && !s.worker.Idle?
    ensures Inv(Go(s, CatchWrite(s.worker.run)))
  {
    var r := s.worker.run;
    WorkGoesOn(s, Go(s, CatchWrite(r)), s.db[r]);
  }

  lemma FailRunKeeps(s: State)
    requires Inv(s) && s.boot.Up? && !s.worker.Idle?
    ensures Inv(Finish(FailRun(s, s.worker.run), s.worker.run))
  {
    var r := s.worker.run;
    WorkEnds(s, FailRun(s, r), s.db[r].(status := Completed(Failure)));
  }

  lemma MarkJobsOne(db: map<nat, Row>, r: nat, c: Conclusion)
    requires r in db
    ensures MarkJobs(db, {r}, c) == db[r := db[r].(jobs := CompleteRest(db[r].jobs, c))]
  {
  }

  lemma MarkRunsOne(db: map<nat, Row>, r: nat, c: Conclusion)
    requires r in db && !db[r].status.Completed?
    ensures MarkRuns(db, {r}, c) == db[r := db[r].(status := Completed(c))]
  {
  }

  /** The row of the run at work after a step that does not end it. */
  function RowAfter(s: State, o: Outcome): Row
    requires WorkerSound(s) && !s.worker.Idle?
  {
    var row := s.db[s.worker.run];
    if !o.ok then row
    else
      match s.worker
      case FinalizeJobs(_) => row.(jobs := CompleteRest(row.jobs, Cancelled))
      case CancelJobs(_) => row.(jobs := CompleteRest(row.jobs, Cancelled))
      case StartWrite(_) => row.(status := Running)
      case JobStart(_, i, _) => row.(jobs := row.jobs[i := JobRunning])
      case JobFinish(_, i, _, c) => row.(jobs := row.jobs[i := JobCompleted(c)])
      case _ => row
  }

  predicate Ending(w: Worker) { w.FailWrite? || w.CatchWrite? || w.FinalizeRun? || w.CancelRun? || w.CompleteWrite? }

  /** A step of the worker that stays with its run, and what it then knows. */
  predicate Proceeds(s: State, o: Outcome)
    requires WorkerSound(s) && !s.worker.Idle?
  {
    AtWork(s, Work(s, o), RowAfter(s, o)) && WorkerSound(Work(s, o)) && !Work(s, o).worker.Idle?
  }

  lemma MovesOn(s: State, w: Worker)
    requires WorkerSound(s) && !s.worker.Idle? && !w.Idle? && w.run == s.worker.run && Knows(w, s.db[w.run].jobs)
    requires w.run in s.past.seen ==> AfterCheckpoint(w)
    ensures AtWork(s, Go(s, w), s.db[w.run]) && WorkerSound(Go(s, w))
  {
  }

  lemma MovesOnWriting(s: State, row: Row, w: Worker)
    requires WorkerSound(s) && !s.worker.Idle? && !w.Idle? && w.run == s.worker.run && Knows(w, row.jobs)
    requires !row.status.Completed? && (w.run in s.past.seen ==> AfterCheckpoint(w))
    ensures var s' := Go(s.(db := s.db[w.run := row]), w); AtWork(s, s', row) && WorkerSound(s')
  {
  }

  lemma MovesOnSeen(s: State, w: Worker)
    requires WorkerSound(s) && !s.worker.Idle? && !w.Idle? && w.run == s.worker.run && Knows(w, s.db[w.run].jobs)
    requires AfterCheckpoint(w)
    ensures AtWork(s, Go(Seen(s, w.run), w), s.db[w.run]) && WorkerSound(Go(Seen(s, w.run), w))
  {
  }

  lemma NextStepProceeds(s: State, left: nat, timeUp: bool)
    requires WorkerSound(s) && (s.worker.JobClone? || s.worker.JobStep?)
    ensures var s' := NextStep(s, s.worker.run, s.worker.next, s.worker.failed, left, timeUp);
      AtWork(s, s', s.db[s.worker.run]) && WorkerSound(s') && !s'.worker.Idle?
  {
    var r, i, f := s.worker.run, s.worker.next, s.worker.failed;
    if left == 0 { MovesOn(s, JobCleanup(r, i, f, Success)); }
    else if r in s.cancelRequested { MovesOnSeen(s, JobCleanup(r, i, f, Cancelled)); }
    else if timeUp { MovesOn(s, JobCleanup(r, i, f, Failure)); }
    else { MovesOn(s, JobStep(r, i, f, left - 1)); }
  }

  lemma AtFetching(s: State, o: Outcome)
    requires WorkerSound(s) && s.worker.Fetching?
    ensures Proceeds(s, o)
  {
  }

  lemma AtFinalizeJobs(s: State, o: Outcome)
    requires WorkerSound(s) && s.worker.FinalizeJobs?
    ensures Proceeds(s, o)
  {
    MarkJobsOne(s.db, s.worker.run, Cancelled);
  }

  lemma AtStartWrite(s: State, o: Outcome)
    requires WorkerSound(s) && s.worker.StartWrite?
    ensures Proceeds(s, o)
  {
  }

  lemma AtJobDir(s: State, o: Outcome)
    requires WorkerSound(s) && s.worker.JobDir?
    ensures Proceeds(s, o)
  {
  }

  lemma AtJobStart(s: State, o: Outcome)
    requires WorkerSound(s) && s.worker.JobStart?
    ensures Proceeds(s, o)
  {
  }

  lemma AtJobLoad(s: State, o: Outcome)
    requires WorkerSound(s) && s.worker.JobLoad?
    ensures Proceeds(s, o)
  {
    var r, i, f := s.worker.run, s.worker.next, s.worker.failed;
    if !o.ok && r in s.cancelRequested { MovesOnSeen(s, JobCleanup(r, i, f, Cancelled)); }
    else if !o.ok || !o.good { MovesOn(s, JobCleanup(r, i, f, Failure)); }
    else { MovesOn(s, JobClone(r, i, f)); }
  }

  lemma AtJobClone(s: State, o: Outcome)
    requires WorkerSound(s) && s.worker.JobClone?
    ensures Proceeds(s, o)
  {
    var r, i, f := s.worker.run, s.worker.next, s.worker.failed;
    if r in s.cancelRequested { MovesOnSeen(s, JobCleanup(r, i, f, Cancelled)); }
    else if !o.ok || !o.good { MovesOn(s, JobCleanup(r, i, f, Failure)); }
    else { NextStepProceeds(s, o.steps, false); }
  }

  lemma AtJobStep(s: State, o: Outcome)
    requires WorkerSound(s) && s.worker.JobStep?
    ensures Proceeds(s, o)
  {
    var r, i, f := s.worker.run, s.worker.next, s.worker.failed;
    if r in s.cancelRequested { MovesOnSeen(s, JobCleanup(r, i, f, Cancelled)); }
    else if !o.good { MovesOn(s, JobCleanup(r, i, f, Failure)); }
    else { NextStepProceeds(s, s.worker.left, o.steps == 0); }
  }

  lemma AtJobCleanup(s: State, o: Outcome)
    requires WorkerSound(s) && s.worker.JobCleanup?
    ensures Proceeds(s, o)
  {
  }

  lemma AtCancelJobs(s: State, o: Outcome)
    requires WorkerSound(s) && s.worker.CancelJobs?
    ensures Proceeds(s, o)
  {
    MarkJobsOne(s.db, s.worker.run, Cancelled);
  }

  lemma AtJobFinish(s: State, o: Outcome)
    requires WorkerSound(s) && s.worker.JobFinish?
    ensures Proceeds(s, o)
  {
    if !o.ok { MovesOn(s, CatchWrite(s.worker.run)); } else { AtJobWritten(s, o); }
  }

  lemma AtJobWritten(s: State, o: Outcome)
    requires WorkerSound(s) && s.worker.JobFinish? && o.ok
    ensures Proceeds(s, o)
  {
    var r, i, f, c := s.worker.run, s.worker.next, s.worker.failed, s.worker.verdict;
    var row := s.db[r].(jobs := s.db[r].jobs[i := JobCompleted(c)]);
    assert SetJob(s.db, r, i, JobCompleted(c)) == s.db[r := row];
    if c == Cancelled {
      MovesOnWriting(s, row, CancelJobs(r));
    } else {
      JobFinished(s.db[r].jobs, i, f, c);
      NextJobProceeds(s, row, i + 1, f || c == Failure);
    }
  }

  lemma NextJobProceeds(s: State, row: Row, i: nat, failed: bool)
    requires WorkerSound(s) && !s.worker.Idle? && !row.status.Completed? && s.worker.run !in s.past.seen
    requires DoneUpTo(row.jobs, i, failed)
    ensures var s' := NextJob(s.(db := s.db[s.worker.run := row]), s.worker.run, i, failed);
      AtWork(s, s', row) && WorkerSound(s') && !s'.worker.Idle?
  {
    var r := s.worker.run;
    if i == |row.jobs| { MovesOnWriting(s, row, CompleteWrite(r, failed)); }
    else if r in s.cancelRequested { }
    else { MovesOnWriting(s, row, JobDir(r, i, failed)); }
  }

  lemma JobFinished(jobs: seq<Job>, i: nat, failed: bool, c: Conclusion)
    requires i < |jobs| && DoneUpTo(jobs, i, failed) && c != Cancelled
    ensures DoneUpTo(jobs[i := JobCompleted(c)], i + 1, failed || c == Failure)
  {
  }

  /** The writes that end a run. */
  lemma WorkAtEnd(s: State, o: Outcome)
    requires Inv(s) && s.boot.Up? && !s.worker.Idle? && Ending(s.worker)
    ensures Inv(Work(s, o))
  {
    var r := s.worker.run;
    var row := s.db[r];
    if !o.ok {
      if s.worker.CatchWrite? { WorkEnds(s, s, row); } else { ThrowKeeps(s); }
    } else if s.worker.FinalizeRun? {
      MarkRunsOne(s.db, r, Cancelled);
      WorkEnds(s, s.(db := MarkRuns(s.db, {r}, Cancelled)), row.(status := Completed(Cancelled)));
    } else if s.worker.FailWrite? || s.worker.CatchWrite? {
      FailRunKeeps(s);
    } else {
      var status := Completed(if s.worker.CancelRun? then Cancelled else if s.worker.failed then Failure else Success);
      WorkEnds(s, s.(db := SetStatus(s.db, r, status)), row.(status := status));
    }
  }

  lemma WorkProceeds(s: State, o: Outcome)
    requires WorkerSound(s) && !s.worker.Idle? && !Ending(s.worker)
    ensures Proceeds(s, o)
  {
    match s.worker
    case Fetching(_) => AtFetching(s, o);
    case FinalizeJobs(_) => AtFinalizeJobs(s, o);
    case StartWrite(_) => AtStartWrite(s, o);
    case JobDir(_, _, _) => AtJobDir(s, o);
    case JobStart(_, _, _) => AtJobStart(s, o);
    case JobLoad(_, _, _) => AtJobLoad(s, o);
    case JobClone(_, _, _) => AtJobClone(s, o);
    case JobStep(_, _, _, _) => AtJobStep(s, o);
    case JobCleanup(_, _, _, _) => AtJobCleanup(s, o);
    case JobFinish(_, _, _, _) => AtJobFinish(s, o);
    case CancelJobs(_) => AtCancelJobs(s, o);
  }

  lemma WorkKeeps(s: State, o: Outcome)
    requires Inv(s) && s.boot.Up? && !s.worker.Idle?
    ensures Inv(Work(s, o))
  {
    if Ending(s.worker) {
      WorkAtEnd(s, o);
    } else {
      WorkProceeds(s, o);
      WorkGoesOn(s, Work(s, o), RowAfter(s, o));
    }
  }

  lemma StepKeepsInv(s: State, e: Event)
    requires Inv(s) && Enabled(s, e)
    ensures Inv(Step(s, e))
  {
    match e
    case Create(r, n, stored) => CreateKeeps(s, r, n, stored);
    case Enqueue(r) => EnqueueKeeps(s, r);
    case Cancel(r, k) => CancelKeeps(s, r, k);
    case CancelerStep(k, ok) => CancelerKeeps(s, k, ok);
    case WorkerStep(o) => WorkKeeps(s, o);
    case Crash => CrashKeeps(s);
    case BootStep(ok) => BootKeeps(s, ok);
  }

  // ------------------------------------------------------------------- whole runs

  const FRESH := State(map[], {}, [], false, {}, None, Idle, map[], Up, Past([], [], {}, {}, {}))

  predicate Leads(s: State, e: Event, s': State) { Enabled(s, e) && s' == Step(s, e) }

  predicate Run(states: seq<State>, events: seq<Event>) {
    |states| == |events| + 1 && states[0] == FRESH && forall i :: 0 <= i < |events| ==> Leads(states[i], events[i], states[i + 1])
  }

  lemma {:induction false} RunKeepsInv(states: seq<State>, events: seq<Event>, i: nat)
    requires Run(states, events) && i < |states|
    ensures Inv(states[i])
  {
    if i > 0 {
      RunKeepsInv(states, events, i - 1);
      assert Leads(states[i - 1], events[i - 1], states[i - 1 + 1]);
      StepKeepsInv(states[i - 1], events[i - 1]);
    }
  }

  /**
   * At every moment of every run, across crashes and partial recoveries: a completed run has only completed
   * jobs unless `failRun` completed it, and a run that ended in success has only successful jobs.
   */
  lemma CompletedRunsHaveCompletedJobs(states: seq<State>, events: seq<Event>, i: nat, r: nat)
    requires Run(states, events) && i < |states| && r in states[i].db && states[i].db[r].status.Completed?
    ensures r !in states[i].past.failRuns ==> AllCompleted(states[i].db[r].jobs)
    ensures states[i].db[r].status == Completed(Success) ==> AllSuccess(states[i].db[r].jobs, |states[i].db[r].jobs|)
  {
    RunKeepsInv(states, events, i);
  }

  /**
   * No lost wakeup and one worker; started runs are distinct and, with the queue, are the enqueued runs in
   * their order without those a cancel pulled out.
   */
  lemma QueueIsServedInOrder(states: seq<State>, events: seq<Event>, i: nat)
    requires Run(states, events) && i < |states|
    ensures var s := states[i];
      && (s.queue != [] ==> !s.worker.Idle?)
      && s.past.started + s.queue == Dropping(s.past.enqueued, s.past.pulled)
      && Distinct(s.past.started)
      && (s.active.Some? ==> s.past.started != [] && s.past.started[|s.past.started| - 1] == s.active.value)
      && (!s.worker.Idle? ==> s.active == Some(s.worker.run))
  {
    RunKeepsInv(states, events, i);
    var s := states[i];
    DroppingKeeps(s.past.enqueued, s.past.pulled);
    var all := s.past.started + s.queue;
    assert forall j :: 0 <= j < |s.past.started| ==> s.past.started[j] == all[j];
  }

  /** A run nobody will ever take up: it exists, is not waiting anywhere, and has not started. */
  predicate NeverStarts(s: State, r: nat) {
    r in s.db && r !in s.created && r !in s.queue && r !in s.past.started
  }

  lemma {:induction false} WithoutSubset(q: seq<nat>, r: nat, x: nat)
    requires x in Without(q, r)
    ensures x in q
  {
    if q[0] != r && x != q[0] { WithoutSubset(q[1..], r, x); }
  }

  lemma NeverStartsStays(s: State, e: Event, r: nat)
    requires Enabled(s, e) && NeverStarts(s, r)
    ensures NeverStarts(Step(s, e), r)
  {
    if e.Cancel? && r in Without(s.queue, e.run) { WithoutSubset(s.queue, e.run, r); }
  }

  /** A run cancelled while queued never starts, then or after any restart. */
  lemma {:induction false} CancelledWhileQueuedNeverStarts(states: seq<State>, events: seq<Event>, i: nat, j: nat, r: nat)
    requires Run(states, events) && i <= j < |states| && r in states[i].past.pulled
    ensures r in states[j].db && r !in states[j].past.started && states[j].active != Some(r)
  {
    RunKeepsInv(states, events, i);
    PulledIsOut(states[i], r);
    NeverStartsLater(states, events, i, j, r);
    RunKeepsInv(states, events, j);
  }

  lemma PulledIsOut(s: State, r: nat)
    requires Inv(s) && r in s.past.pulled
    ensures NeverStarts(s, r)
  {
    var all := s.past.started + s.queue;
    DroppingKeeps(s.past.enqueued, s.past.pulled);
    assert r in s.past.enqueued && r !in all;
    assert forall i :: 0 <= i < |s.past.started| ==> s.past.started[i] == all[i] && s.past.started[i] in all;
    assert forall i :: 0 <= i < |s.queue| ==> s.queue[i] == all[|s.past.started| + i] && s.queue[i] in all;
  }

  lemma {:induction false} NeverStartsLater(states: seq<State>, events: seq<Event>, i: nat, j: nat, r: nat)
    requires Run(states, events) && i <= j < |states| && NeverStarts(states[i], r)
    ensures NeverStarts(states[j], r)
    decreases j - i
  {
    if i < j {
      assert Leads(states[i], events[i], states[i + 1]);
      NeverStartsStays(states[i], events[i], r);
      NeverStartsLater(states, events, i + 1, j, r);
    }
  }

  lemma SeenStays(s: State, e: Event, r: nat)
    requires Enabled(s, e) && r in s.past.seen
    ensures r in Step(s, e).past.seen
  {
  }

  /** A run whose cancel flag a checkpoint has seen never ends in success. */
  lemma {:induction false} SeenCancelNeverSucceeds(states: seq<State>, events: seq<Event>, i: nat, j: nat, r: nat)
    requires Run(states, events) && i <= j < |states| && r in states[i].past.seen
    ensures r in states[j].db && states[j].db[r].status != Completed(Success)
    decreases j - i
  {
    if i < j {
      assert Leads(states[i], events[i], states[i + 1]);
      SeenStays(states[i], events[i], r);
      SeenCancelNeverSucceeds(states, events, i + 1, j, r);
    } else {
      RunKeepsInv(states, events, i);
    }
  }

  // --------------------------------------------------------------- boot and summary

  datatype Summary = Summary(total: nat, passing: nat, failing: nat, pending: nat)

  function Count(jobs: seq<Job>, p: Job -> bool): nat {
    if jobs == [] then 0 else (if p(jobs[0]) then 1 else 0) + Count(jobs[1..], p)
  }

  predicate IsPending(j: Job) { !j.JobCompleted? }
  predicate IsPassing(j: Job) { j == JobCompleted(Success) }
  predicate IsFailing(j: Job) { j.JobCompleted? && j.conclusion != Success }

  lemma {:induction false} CountAppend(jobs: seq<Job>, j: Job, p: Job -> bool)
    ensures Count(jobs + [j], p) == Count(jobs, p) + (if p(j) then 1 else 0)
  {
    if jobs == [] {
      assert jobs + [j] == [j] && [j][1..] == [];
    } else {
      assert (jobs + [j])[1..] == jobs[1..] + [j];
      CountAppend(jobs[1..], j, p);
    }
  }

  /** `summarizeCheckRuns`: every job counts once, and pending is zero exactly when all are completed. */
  method SummarizeCheckRuns(jobs: seq<Job>) returns (s: Summary)
    ensures s == Summary(|jobs|, Count(jobs, IsPassing), Count(jobs, IsFailing), Count(jobs, IsPending))
    ensures s.total == s.passing + s.failing + s.pending
    ensures s.pending == 0 <==> AllCompleted(jobs)
    ensures s.pending == 0 && s.failing == 0 <==> AllSuccess(jobs, |jobs|)
  {
    var passing, failing, pending := 0, 0, 0;
    for k := 0 to |jobs|
      invariant passing == Count(jobs[..k], IsPassing) && failing == Count(jobs[..k], IsFailing) && pending == Count(jobs[..k], IsPending)
      invariant passing + failing + pending == k
      invariant pending == 0 <==> AllCompleted(jobs[..k])
      invariant pending == 0 && failing == 0 <==> AllSuccess(jobs[..k], k)
    {
      assert jobs[..k + 1] == jobs[..k] + [jobs[k]];
      CountAppend(jobs[..k], jobs[k], IsPassing);
      CountAppend(jobs[..k], jobs[k], IsFailing);
      CountAppend(jobs[..k], jobs[k], IsPending);
      if !jobs[k].JobCompleted? { pending := pending + 1; }
      else if jobs[k].conclusion == Success { passing := passing + 1; }
      else { failing := failing + 1; }
    }
    assert jobs[..|jobs|] == jobs;
    s := Summary(|jobs|, passing, failing, pending);
  }

  /** The completed jobs stay, and the others complete with `c`. */
  predicate Rests(jobs: seq<Job>, jobs': seq<Job>, c: Conclusion) {
    |jobs'| == |jobs| && forall k :: 0 <= k < |jobs| ==> jobs'[k] == if jobs[k].JobCompleted? then jobs[k] else JobCompleted(c)
  }

  /** `failOrphanedRuns` run to its end: jobs first, then runs. */
  function Recovered(db: map<nat, Row>): map<nat, Row> { MarkRuns(MarkJobs(db, Orphaned(db), Failure), Orphaned(db), Failure) }

  /**
   * It completes every run, and leaves a job pending exactly in the runs that were completed with one before. What was
   * pending fails, and what was completed stays.
   */
  lemma RecoveryCompletes(db: map<nat, Row>, r: nat)
    requires r in db
    ensures r in Recovered(db) && Recovered(db)[r].status.Completed?
    ensures AllCompleted(Recovered(db)[r].jobs) <==> !(db[r].status.Completed? && !AllCompleted(db[r].jobs))
    ensures db[r].status.Completed? ==> Recovered(db)[r] == db[r]
    ensures !db[r].status.Completed? ==> Recovered(db)[r].status == Completed(Failure) && Rests(db[r].jobs, Recovered(db)[r].jobs, Failure)
  {
  }

  /** The steps of one boot that reaches its end. */
  lemma BootIsRecovery(s: State)
    requires Inv(s) && s.boot.BootRead?
    ensures Orphaned(s.db) == {} ==> Step(s, BootStep(true)).db == Recovered(s.db)
    ensures Orphaned(s.db) != {} ==>
              Step(Step(Step(s, BootStep(true)), BootStep(true)), BootStep(true)).db == Recovered(s.db)
  {
    if Orphaned(s.db) == {} { assert Recovered(s.db) == s.db; }
  }

  /**
   * In every reachable state, one full `failOrphanedRuns` leaves no run uncompleted, and no job pending but in
   * runs that `failRun` completed.
   */
  lemma NothingStaysPending(states: seq<State>, events: seq<Event>, i: nat, r: nat)
    requires Run(states, events) && i < |states| && r in states[i].db
    ensures r in Recovered(states[i].db) && Recovered(states[i].db)[r].status.Completed?
    ensures r !in states[i].past.failRuns ==> AllCompleted(Recovered(states[i].db)[r].jobs)
  {
    RunKeepsInv(states, events, i);
    RecoveryCompletes(states[i].db, r);
  }

  /** A completed run with a job that is not. */
  predicate LeftPending(s: State, r: nat) { r in s.db && s.db[r].status.Completed? && !AllCompleted(s.db[r].jobs) }

  /** The event is a `failRun` write of the run. */
  predicate FailsRun(s: State, e: Event, r: nat) {
    e.WorkerStep? && e.outcome.ok && (s.worker.FailWrite? || s.worker.CatchWrite?) && s.worker.run == r
  }

  lemma WorkLeavesPending(s: State, o: Outcome, r: nat)
    requires Inv(s) && s.boot.Up? && !s.worker.Idle? && !LeftPending(s, r)
    ensures LeftPending(Work(s, o), r) <==> FailsRun(s, WorkerStep(o), r) && !AllCompleted(s.db[r].jobs)
  {
    var w := s.worker.run;
    if !Ending(s.worker) {
      WorkProceeds(s, o);
    } else if o.ok && s.worker.FinalizeRun? {
      MarkRunsOne(s.db, w, Cancelled);
    }
  }

  lemma OthersLeavePending(s: State, e: Event, r: nat)
    requires Inv(s) && Enabled(s, e) && !e.WorkerStep? && !LeftPending(s, r)
    ensures !LeftPending(Step(s, e), r)
  {
    if e.CancelerStep? { assert CancelerSound(s, s.cancelers[e.caller]); }
  }

  /**
   * A step leaves a completed run with a job that is not exactly when it is a `failRun` write of a run with such a
   * job; whatever else completes a run finds all its jobs completed.
   */
  lemma OnlyFailRunLeavesPending(s: State, e: Event, r: nat)
    requires Inv(s) && Enabled(s, e) && !LeftPending(s, r)
    ensures LeftPending(Step(s, e), r) <==> FailsRun(s, e, r) && !AllCompleted(s.db[r].jobs)
  {
    if e.WorkerStep? { WorkLeavesPending(s, e.outcome, r); } else { OthersLeavePending(s, e, r); }
  }

  /**
   * `failRun` completes a run without completing its jobs: a refused write while a job starts leaves it
   * completed with a pending job, which no later boot repairs.
   */
  lemma FailRunLeavesJobsPending() returns (states: seq<State>, events: seq<Event>)
    ensures Run(states, events) && 0 in states[|events|].db
    ensures Recovered(states[|events|].db)[0] == Row(Completed(Failure), [JobQueued], true)
  {
    var fine, refused := Outcome(true, true, 1), Outcome(false, true, 1);
    var waiting, running := Row(Queued, [JobQueued], true), Row(Running, [JobQueued], true);
    events := [Create(0, 1, true), Enqueue(0), WorkerStep(fine), WorkerStep(fine), WorkerStep(fine), WorkerStep(refused), WorkerStep(fine)];
    states := [FRESH, FRESH.(db := map[0 := waiting], created := {0}), Alone(waiting, Fetching(0)), Alone(waiting, StartWrite(0)),
               Alone(running, JobDir(0, 0, false)), Alone(running, JobStart(0, 0, false)), Alone(running, CatchWrite(0)),
               Finish(FailRun(Alone(running, CatchWrite(0)), 0), 0)];
    AloneStarts();
    AloneRuns(fine, refused);
    StillPending(states[7]);
  }

  lemma StillPending(s: State)
    requires s == Finish(FailRun(Alone(Row(Running, [JobQueued], true), CatchWrite(0)), 0), 0)
    ensures 0 in s.db && Recovered(s.db)[0] == Row(Completed(Failure), [JobQueued], true)
  {
    assert s.db[0] == Row(Completed(Failure), [JobQueued], true);
  }

  /** One run, taken up by the worker. */
  function Alone(row: Row, w: Worker): State {
    State(map[0 := row], {}, [], true, {}, Some(0), w, map[], Up, Past([0], [0], {}, {}, {}))
  }

  lemma AloneStarts()
    ensures var waiting := Row(Queued, [JobQueued], true); var created := FRESH.(db := map[0 := waiting], created := {0});
      Leads(FRESH, Create(0, 1, true), created) && Leads(created, Enqueue(0), Alone(waiting, Fetching(0)))
  {
    assert seq(1, _ => JobQueued) == [JobQueued];
    assert map[][0 := Row(Queued, [JobQueued], true)] == map[0 := Row(Queued, [JobQueued], true)];
  }

  lemma AloneRuns(fine: Outcome, refused: Outcome)
    requires fine.ok && fine.good && !refused.ok
    ensures var waiting, running := Row(Queued, [JobQueued], true), Row(Running, [JobQueued], true);
      && Leads(Alone(waiting, Fetching(0)), WorkerStep(fine), Alone(waiting, StartWrite(0)))
      && Leads(Alone(waiting, StartWrite(0)), WorkerStep(fine), Alone(running, JobDir(0, 0, false)))
      && Leads(Alone(running, JobDir(0, 0, false)), WorkerStep(fine), Alone(running, JobStart(0, 0, false)))
      && Leads(Alone(running, JobStart(0, 0, false)), WorkerStep(refused), Alone(running, CatchWrite(0)))
      && Leads(Alone(running, CatchWrite(0)), WorkerStep(fine), Finish(FailRun(Alone(running, CatchWrite(0)), 0), 0))
  {
  }
}
