/**
 * How the jobs and runs of the CI worker end (apps/api/src/ci/runner.ts): conclusions told from the awaits
 * themselves, not from the steps of the machine that drew them.
 */
module CiVerdicts {
  import opened Wrappers
  import opened Collections
  import opened CiRunner

  // --------------------------------------------------------------- what a job awaited

  /** An await of a job's own work, and whether the run's cancel flag was up when it ended. */
  datatype Await = Await(outcome: Outcome, cancel: bool)

  predicate Good(a: Await) { a.outcome.ok && a.outcome.good }

  predicate GoodStep(a: Await) { a.outcome.good && !a.cancel }

  /** A step after which there is time for another. */
  predicate OnAfter(a: Await) { GoodStep(a) && a.outcome.steps != 0 }

  /**
   * The awaits of the job at hand since its row was marked running: the workflow is loaded, the commit cloned, and
   * then each of its steps run.
   */
  function Awaited(states: seq<State>, events: seq<Event>, i: nat): seq<Await>
    requires i < |states| && i <= |events|
  {
    if i == 0 then [] else AwaitedNext(states[i - 1], events[i - 1], Awaited(states, events, i - 1))
  }

  function AwaitedNext(s: State, e: Event, before: seq<Await>): seq<Await> {
    if !e.WorkerStep? || s.worker.Idle? then before
    else if s.worker.JobStart? then []
    else if s.worker.JobLoad? || s.worker.JobClone? || s.worker.JobStep?
    then before + [Await(e.outcome, s.worker.run in s.cancelRequested)]
    else before
  }

  /** Nothing so far ends the job: there is a step left and time for it. */
  predicate GoesOn(tr: seq<Await>) {
    && (1 <= |tr| ==> Good(tr[0]))
    && (2 <= |tr| ==> Good(tr[1]) && !tr[1].cancel && |tr| < 2 + tr[1].outcome.steps)
    && (forall k :: 2 <= k < |tr| ==> OnAfter(tr[k]))
  }

  /** Loaded, cloned, and every one of its steps ended well and in time, with no cancel seen. */
  predicate Passed(tr: seq<Await>) {
    && 2 <= |tr| && Good(tr[0]) && Good(tr[1]) && !tr[1].cancel
    && |tr| == 2 + tr[1].outcome.steps
    && (forall k :: 2 <= k < |tr| ==> GoodStep(tr[k]))
    && (forall k :: 2 <= k < |tr| - 1 ==> OnAfter(tr[k]))
  }

  /** The last await met the cancel flag; one that has merely loaded the workflow does not look for it. */
  predicate SawCancel(tr: seq<Await>) {
    tr != [] && tr[|tr| - 1].cancel && !(|tr| == 1 && tr[0].outcome.ok)
  }

  /** The job stopped at its last await, and not before. */
  predicate Ended(tr: seq<Await>) { tr != [] && GoesOn(tr[..|tr| - 1]) && !GoesOn(tr) }

  function Verdict(tr: seq<Await>): (c: Conclusion)
    ensures c == Success <==> Passed(tr)
    ensures c == Cancelled <==> SawCancel(tr)
  {
    if Passed(tr) then Success else if SawCancel(tr) then Cancelled else Failure
  }

  /** What the worker's place in a job says about the awaits behind it. */
  predicate TraceFits(w: Worker, tr: seq<Await>) {
    match w
    case JobLoad(_, _, _) => tr == []
    case JobClone(_, _, _) => |tr| == 1 && GoesOn(tr)
    case JobStep(_, _, _, left) => 2 <= |tr| && GoesOn(tr) && |tr| + 1 + left == 2 + tr[1].outcome.steps
    case JobCleanup(_, _, _, c) => Ended(tr) && c == Verdict(tr)
    case JobFinish(_, _, _, c) => Ended(tr) && c == Verdict(tr)
    case _ => true
  }

  predicate InOwnWork(w: Worker) { w.JobLoad? || w.JobClone? || w.JobStep? }

  /** The place in the job that the awaits so far lead to. */
  lemma LoadFits(s: State, o: Outcome, tr: seq<Await>)
    requires s.worker.JobLoad? && TraceFits(s.worker, tr)
    ensures TraceFits(Work(s, o).worker, tr + [Await(o, s.worker.run in s.cancelRequested)])
  {
    var now := tr + [Await(o, s.worker.run in s.cancelRequested)];
    assert now[..0] == tr;
  }

  lemma CloneFits(s: State, o: Outcome, tr: seq<Await>)
    requires s.worker.JobClone? && TraceFits(s.worker, tr)
    ensures TraceFits(Work(s, o).worker, tr + [Await(o, s.worker.run in s.cancelRequested)])
  {
    var now := tr + [Await(o, s.worker.run in s.cancelRequested)];
    assert now[..1] == tr;
  }

  lemma StepFits(s: State, o: Outcome, tr: seq<Await>)
    requires s.worker.JobStep? && TraceFits(s.worker, tr)
    ensures TraceFits(Work(s, o).worker, tr + [Await(o, s.worker.run in s.cancelRequested)])
  {
    var last := Await(o, s.worker.run in s.cancelRequested);
    var now := tr + [last];
    assert now[..|tr|] == tr;
    StepOn(tr, last);
    StepPasses(tr, last);
  }

  lemma StepOn(tr: seq<Await>, last: Await)
    requires 2 <= |tr| && GoesOn(tr)
    ensures GoesOn(tr + [last]) <==> OnAfter(last) && |tr| + 1 < 2 + tr[1].outcome.steps
  {
    var now := tr + [last];
    assert now[|tr|] == last;
  }

  lemma StepPasses(tr: seq<Await>, last: Await)
    requires 2 <= |tr| && GoesOn(tr)
    ensures Passed(tr + [last]) <==> GoodStep(last) && |tr| + 1 == 2 + tr[1].outcome.steps
  {
    var now := tr + [last];
    assert now[|tr|] == last;
    assert forall k :: 2 <= k < |tr| ==> OnAfter(tr[k]) && now[k] == tr[k];
  }

  lemma WorkFits(s: State, o: Outcome, tr: seq<Await>)
    requires InOwnWork(s.worker) && TraceFits(s.worker, tr)
    ensures TraceFits(Work(s, o).worker, tr + [Await(o, s.worker.run in s.cancelRequested)])
  {
    hide Work, GoesOn, Passed, Ended, SawCancel, Verdict;
    if s.worker.JobLoad? { LoadFits(s, o, tr); } else if s.worker.JobClone? { CloneFits(s, o, tr); } else { StepFits(s, o, tr); }
  }

  lemma EdgesFit(s: State, o: Outcome, tr: seq<Await>)
    requires InJob(s.worker) && !InOwnWork(s.worker) && TraceFits(s.worker, tr)
    ensures TraceFits(Work(s, o).worker, if s.worker.JobStart? then [] else tr)
  {
    hide Passed, Ended, SawCancel, Verdict, GoesOn, SetJob;
  }

  /** Outside its jobs the worker starts the first job or leaves the run, with nothing failed yet. */
  predicate AtFirst(w: Worker) { (InJob(w) ==> w.JobDir? && !w.failed) && (w.CompleteWrite? ==> !w.failed) }

  lemma FinishGoes(s: State, r: nat)
    ensures AtFirst(Finish(s, r).worker)
  {
  }

  lemma StartGoes(s: State, o: Outcome)
    requires s.worker.StartWrite?
    ensures AtFirst(Work(s, o).worker)
  {
    hide SetStatus, Served;
  }

  lemma OutsideGoes(s: State, o: Outcome)
    requires !InJob(s.worker) && !s.worker.Idle?
    ensures AtFirst(Work(s, o).worker)
  {
    hide MarkJobs, MarkRuns, SetStatus, Served, Finish, NextJob, Orphaned;
    var r := s.worker.run;
    if s.worker.StartWrite? { StartGoes(s, o); }
    FinishGoes(s, r);
    FinishGoes(FailRun(s, r), r);
    FinishGoes(s.(db := MarkRuns(s.db, {r}, Cancelled)), r);
    FinishGoes(s.(db := SetStatus(s.db, r, Completed(Cancelled))), r);
    if s.worker.CompleteWrite? { CompleteGoes(s, o); }
  }

  lemma CompleteGoes(s: State, o: Outcome)
    requires s.worker.CompleteWrite?
    ensures AtFirst(Work(s, o).worker)
  {
    hide SetStatus, Served;
  }

  lemma OutsideFits(s: State, o: Outcome, tr: seq<Await>)
    requires !InJob(s.worker) && !s.worker.Idle?
    ensures TraceFits(Work(s, o).worker, tr)
  {
    hide Work, Verdict, GoesOn, Ended;
    OutsideGoes(s, o);
  }

  lemma OthersFit(s: State, e: Event, tr: seq<Await>)
    requires Enabled(s, e) && TraceFits(s.worker, tr) && !e.WorkerStep?
    ensures TraceFits(Step(s, e).worker, tr)
  {
    hide Passed, Ended, SawCancel, Verdict, GoesOn, MarkJobs, MarkRuns;
  }

  lemma StepWorks(s: State, e: Event)
    requires Enabled(s, e) && e.WorkerStep?
    ensures Step(s, e) == Work(s, e.outcome) && !s.worker.Idle?
  {
  }

  lemma StepFitsAny(s: State, e: Event, tr: seq<Await>)
    requires Enabled(s, e) && TraceFits(s.worker, tr)
    ensures TraceFits(Step(s, e).worker, AwaitedNext(s, e, tr))
  {
    hide Step, Work, TraceFits, Enabled;
    if e.WorkerStep? && InOwnWork(s.worker) {
      WorkFits(s, e.outcome, tr);
      StepWorks(s, e);
    } else if e.WorkerStep? {
      StepWorks(s, e);
      if InJob(s.worker) { EdgesFit(s, e.outcome, tr); } else { OutsideFits(s, e.outcome, tr); }
    } else {
      OthersFit(s, e, tr);
    }
  }

  lemma RunSteps(states: seq<State>, events: seq<Event>, i: nat)
    requires Run(states, events) && i < |events|
    ensures Enabled(states[i], events[i]) && states[i + 1] == Step(states[i], events[i]) && Inv(states[i])
  {
    hide Step, Enabled, Inv;
    assert Leads(states[i], events[i], states[i + 1]);
    RunKeepsInv(states, events, i);
  }

  lemma AwaitedOneMore(states: seq<State>, events: seq<Event>, i: nat)
    requires i + 1 < |states| && i < |events|
    ensures Awaited(states, events, i + 1) == AwaitedNext(states[i], events[i], Awaited(states, events, i))
  {
    hide AwaitedNext;
  }

  lemma {:induction false} AwaitedFits(states: seq<State>, events: seq<Event>, i: nat)
    requires Run(states, events) && i < |states|
    ensures TraceFits(states[i].worker, Awaited(states, events, i))
  {
    hide *;
    if i == 0 {
      FreshFits(states, events);
    } else {
      LastStep(states, events, i);
      AwaitedFits(states, events, i - 1);
      RunSteps(states, events, i - 1);
      AwaitedOneMore(states, events, i - 1);
      StepFitsAny(states[i - 1], events[i - 1], Awaited(states, events, i - 1));
    }
  }

  lemma FreshFits(states: seq<State>, events: seq<Event>)
    requires Run(states, events)
    ensures |states| == |events| + 1 && TraceFits(states[0].worker, Awaited(states, events, 0)) && FailedKnown(states[0])
  {
    hide GoesOn, Ended, Verdict, HasBad, Leads;
    assert FRESH.worker.Idle?;
  }

  lemma LastStep(states: seq<State>, events: seq<Event>, i: nat)
    requires Run(states, events) && i < |states|
    ensures i <= |events| && |states| == |events| + 1
  {
    hide Leads;
  }

  /**
   * A job's conclusion, at every moment of every run of the system at which its worker has one: the job stopped at the
   * first await that could not go on. It is `success` exactly when the workflow was loaded, the commit cloned and as
   * many steps as the job has ended well and in time, with no cancel seen, `cancelled` exactly when its last await met
   * a cancel, and otherwise `failure`.
   */
  lemma ConclusionIsEarned(states: seq<State>, events: seq<Event>, i: nat)
    requires Run(states, events) && i < |states| && (states[i].worker.JobCleanup? || states[i].worker.JobFinish?)
    ensures var c, tr := states[i].worker.verdict, Awaited(states, events, i);
      && Ended(tr) && (c == Success <==> Passed(tr)) && (c == Cancelled <==> SawCancel(tr))
  {
    AwaitedFits(states, events, i);
  }

  // ------------------------------------------------------------------ what becomes of rows

  /** The write of the conclusion of job `j` of run `r`. */
  predicate FinishesJob(s: State, e: Event, r: nat, j: nat) {
    e.WorkerStep? && e.outcome.ok && s.worker.JobFinish? && s.worker.run == r && s.worker.next == j
  }

  predicate IsJob(s: State, r: nat, j: nat) { r in s.db && j < |s.db[r].jobs| }

  /** Who writes a job's row, and what: the worker the conclusion it has, a cancel `cancelled`, boot recovery `failure`. */
  predicate JobWritten(s: State, e: Event, s': State, r: nat, j: nat)
    requires IsJob(s, r, j)
  {
    var job := s.db[r].jobs[j];
    && IsJob(s', r, j)
    && var job' := s'.db[r].jobs[j];
       if FinishesJob(s, e, r, j) then job' == JobCompleted(s.worker.verdict)
       else job' == job || job' == JobRunning || (!job.JobCompleted? && (job' == JobCompleted(Cancelled) || (e.BootStep? && job' == JobCompleted(Failure))))
  }

  lemma WorkWritesJob(s: State, o: Outcome, r: nat, j: nat)
    requires Inv(s) && s.boot.Up? && !s.worker.Idle? && IsJob(s, r, j)
    ensures JobWritten(s, WorkerStep(o), Work(s, o), r, j)
  {
    if Ending(s.worker) {
      EndingWritesNoJob(s, o, r, j);
    } else {
      WorkProceeds(s, o);
    }
    hide Work, Inv, Knows;
  }

  lemma EndingWritesNoJob(s: State, o: Outcome, r: nat, j: nat)
    requires Ending(s.worker) && IsJob(s, r, j)
    ensures IsJob(Work(s, o), r, j) && Work(s, o).db[r].jobs == s.db[r].jobs
  {
    hide Served;
  }

  lemma StepWritesJob(s: State, e: Event, r: nat, j: nat)
    requires Inv(s) && Enabled(s, e) && IsJob(s, r, j)
    ensures JobWritten(s, e, Step(s, e), r, j)
  {
    if e.WorkerStep? {
      WorkWritesJob(s, e.outcome, r, j);
      StepWorks(s, e);
    }
  }

  /**
   * In every run of the system, a job becomes successful only by the write that follows awaits that all ended well and
   * saw no cancel, and failed only by boot recovery or by the write that follows a bad await that saw no cancel; and
   * that write does record which of these it was.
   */
  lemma JobsEndAsTheirAwaits(states: seq<State>, events: seq<Event>, i: nat, r: nat, j: nat)
    requires Run(states, events) && i < |events| && IsJob(states[i], r, j)
    ensures IsJob(states[i + 1], r, j)
    ensures var before, after, tr := states[i].db[r].jobs[j], states[i + 1].db[r].jobs[j], Awaited(states, events, i);
      && (FinishesJob(states[i], events[i], r, j) ==> Ended(tr) && after == JobCompleted(Verdict(tr)))
      && (after == JobCompleted(Success) ==> (after == before || (FinishesJob(states[i], events[i], r, j) && Passed(tr))))
      && (after == JobCompleted(Failure) ==>
            (after == before || events[i].BootStep? || (FinishesJob(states[i], events[i], r, j) && !Passed(tr) && !SawCancel(tr))))
  {
    hide Step, Inv, Enabled, Awaited, Ended, Passed, SawCancel;
    LastStep(states, events, i + 1);
    RunSteps(states, events, i);
    StepWritesJob(states[i], events[i], r, j);
    AwaitedFits(states, events, i);
  }

  predicate HasBad(jobs: seq<Job>, n: nat) { exists k :: 0 <= k < n && k < |jobs| && jobs[k] == JobCompleted(Failure) }

  /** `failed`, where the worker has it, says that an earlier job failed. */
  predicate FailedKnown(s: State) {
    var w := s.worker;
    && (InJob(w) && w.failed ==> w.run in s.db && HasBad(s.db[w.run].jobs, w.next))
    && (w.CompleteWrite? && w.failed ==> w.run in s.db && HasBad(s.db[w.run].jobs, |s.db[w.run].jobs|))
  }

  lemma BadStays(jobs: seq<Job>, n: nat, jobs': seq<Job>, n': nat)
    requires HasBad(jobs, n) && n <= n' && |jobs| == |jobs'|
    requires forall k :: 0 <= k < n && k < |jobs| ==> jobs'[k] == jobs[k]
    ensures HasBad(jobs', n')
  {
    var k :| 0 <= k < n && k < |jobs| && jobs[k] == JobCompleted(Failure);
    assert jobs'[k] == JobCompleted(Failure);
  }

  lemma FinishKeepsFailed(s: State, o: Outcome)
    requires Inv(s) && s.worker.JobFinish? && o.ok && FailedKnown(s)
    ensures FailedKnown(WorkOnJob(s, o))
  {
    var r, i, f, c := s.worker.run, s.worker.next, s.worker.failed, s.worker.verdict;
    var jobs := s.db[r].jobs;
    var jobs' := jobs[i := JobCompleted(c)];
    assert SetJob(s.db, r, i, JobCompleted(c))[r].jobs == jobs';
    assert c == Failure ==> jobs'[i] == JobCompleted(Failure) && HasBad(jobs', i + 1);
    if f { BadStays(jobs, i, jobs', i + 1); }
    if i + 1 == |jobs| && (f || c == Failure) { BadStays(jobs', i + 1, jobs', |jobs|); }
    hide HasBad, Inv, Knows, SetJob;
  }

  /** In a job, the rows of the earlier jobs stay. */
  lemma StartKeepsFailed(s: State, o: Outcome)
    requires Inv(s) && s.worker.JobStart? && FailedKnown(s)
    ensures FailedKnown(WorkOnJob(s, o))
  {
    var r, i := s.worker.run, s.worker.next;
    if s.worker.failed { BadStays(s.db[r].jobs, i, SetJob(s.db, r, i, JobRunning)[r].jobs, i); }
    hide HasBad, Inv, Knows;
  }

  lemma JobKeepsFailed(s: State, o: Outcome)
    requires Inv(s) && InJob(s.worker) && !(s.worker.JobFinish? && o.ok) && FailedKnown(s)
    ensures FailedKnown(WorkOnJob(s, o))
  {
    hide HasBad, Inv, Knows, SetJob, NextJob;
    if s.worker.JobStart? { StartKeepsFailed(s, o); }
  }

  lemma WorkKeepsFailed(s: State, o: Outcome)
    requires Inv(s) && s.boot.Up? && !s.worker.Idle? && FailedKnown(s)
    ensures FailedKnown(Work(s, o))
  {
    hide HasBad, Inv, WorkOnRun, WorkOnJob;
    if InJob(s.worker) {
      if s.worker.JobFinish? && o.ok { FinishKeepsFailed(s, o); } else { JobKeepsFailed(s, o); }
    } else {
      OutsideGoes(s, o);
    }
  }

  lemma StepKeepsFailed(s: State, e: Event)
    requires Inv(s) && Enabled(s, e) && FailedKnown(s)
    ensures FailedKnown(Step(s, e))
  {
    if e.WorkerStep? {
      WorkKeepsFailed(s, e.outcome);
      StepWorks(s, e);
    } else if e.CancelerStep? {
      assert CancelerSound(s, s.cancelers[e.caller]);
    }
    hide HasBad, Work;
  }

  lemma {:induction false} RunKnowsFailed(states: seq<State>, events: seq<Event>, i: nat)
    requires Run(states, events) && i < |states|
    ensures FailedKnown(states[i])
  {
    hide *;
    if i == 0 {
      FreshFits(states, events);
    } else {
      LastStep(states, events, i);
      RunKnowsFailed(states, events, i - 1);
      RunSteps(states, events, i - 1);
      StepKeepsFailed(states[i - 1], events[i - 1]);
    }
  }

  /** The write that completes run `r` after its last job. */
  predicate CompletesRun(s: State, e: Event, r: nat) {
    e.WorkerStep? && e.outcome.ok && s.worker.CompleteWrite? && s.worker.run == r
  }

  lemma JobCompletesNothing(s: State, o: Outcome, r: nat)
    requires Inv(s) && InJob(s.worker) && r in s.db
    ensures r in Work(s, o).db && Work(s, o).db[r].status == s.db[r].status
  {
    hide Inv;
  }

  lemma CompleteCompletes(s: State, o: Outcome)
    requires Inv(s) && s.worker.CompleteWrite? && o.ok && FailedKnown(s)
    ensures var r, row := s.worker.run, s.db[s.worker.run];
      Work(s, o).db == s.db[r := row.(status := Completed(if AllSuccess(row.jobs, |row.jobs|) then Success else Failure))]
  {
    hide HasBad, Served;
    if s.worker.failed { BadIsNotSuccess(s.db[s.worker.run].jobs); }
  }

  lemma BadIsNotSuccess(jobs: seq<Job>)
    requires HasBad(jobs, |jobs|)
    ensures !AllSuccess(jobs, |jobs|)
  {
  }

  lemma OthersCompleteOtherwise(s: State, o: Outcome, r: nat)
    requires Inv(s) && !InJob(s.worker) && !s.worker.Idle? && !s.worker.CompleteWrite? && r in s.db
    ensures r in Work(s, o).db && (Work(s, o).db[r].status == Completed(Success) ==> s.db[r].status == Completed(Success))
  {
    hide Inv, Served;
  }

  lemma StepCompletes(s: State, e: Event, r: nat)
    requires Inv(s) && Enabled(s, e) && r in s.db && FailedKnown(s)
    ensures r in Step(s, e).db
    ensures var row, status := s.db[r], Step(s, e).db[r].status;
      && (CompletesRun(s, e, r) ==> status == Completed(if AllSuccess(row.jobs, |row.jobs|) then Success else Failure))
      && (status == Completed(Success) ==> (status == row.status || CompletesRun(s, e, r)))
      && (CompletesRun(s, e, r) ==> Step(s, e).db[r].jobs == row.jobs)
  {
    if e.WorkerStep? {
      StepWorks(s, e);
      hide Work, FailedKnown, Step, Inv, AllSuccess;
      if InJob(s.worker) { JobCompletesNothing(s, e.outcome, r); }
      else if !s.worker.CompleteWrite? { OthersCompleteOtherwise(s, e.outcome, r); }
      else if e.outcome.ok { CompleteCompletes(s, e.outcome); }
      else { RefusedCompletesNothing(s, e.outcome); }
    } else {
      hide FailedKnown, Inv, AllSuccess, Pump;
    }
  }

  lemma RefusedCompletesNothing(s: State, o: Outcome)
    requires s.worker.CompleteWrite? && !o.ok
    ensures Work(s, o).db == s.db
  {
  }

  /**
   * In every run of the system, a workflow run becomes successful only by the write that follows its last job, and that
   * write records success when every job is successful and failure when one is not.
   */
  lemma RunsEndAsTheirJobs(states: seq<State>, events: seq<Event>, i: nat, r: nat)
    requires Run(states, events) && i < |events| && r in states[i].db
    ensures r in states[i + 1].db
    ensures var row, row' := states[i].db[r], states[i + 1].db[r];
      && (CompletesRun(states[i], events[i], r) ==>
            row'.jobs == row.jobs && row'.status == Completed(if AllSuccess(row.jobs, |row.jobs|) then Success else Failure))
      && (row'.status == Completed(Success) ==> (row'.status == row.status || CompletesRun(states[i], events[i], r)))
  {
    hide Step, Enabled, Inv, FailedKnown;
    LastStep(states, events, i + 1);
    RunSteps(states, events, i);
    RunKnowsFailed(states, events, i);
    StepCompletes(states[i], events[i], r);
  }
}
