/**
 * Whole workflow runs of the CI worker that nothing disturbs, and cancellations, from the first await to the last
 * write (apps/api/src/ci/runner.ts).
 */
module CiWholeRuns {
  import opened Wrappers
  import opened Collections
  import opened CiRunner
  import opened CiVerdicts

  /** The worker's awaits end as listed, one after the other, and nothing else happens in between. */
  predicate Plays(s: State, os: seq<Outcome>, s': State)
    decreases |os|
  {
    if os == [] then s' == s
    else Enabled(s, WorkerStep(os[0])) && Plays(Step(s, WorkerStep(os[0])), os[1..], s')
  }

  lemma PlaysOne(s: State, o: Outcome, os: seq<Outcome>, s': State)
    requires s.boot.Up? && !s.worker.Idle? && Plays(Work(s, o), os, s')
    ensures Plays(s, [o] + os, s')
  {
    assert ([o] + os)[1..] == os;
    hide Work;
  }

  lemma PlaysLast(s: State, o: Outcome)
    requires s.boot.Up? && !s.worker.Idle?
    ensures Plays(s, [o], Work(s, o))
  {
    hide Work;
    assert Plays(Work(s, o), [], Work(s, o));
    PlaysOne(s, o, [], Work(s, o));
    assert [o] + [] == [o];
  }

  lemma {:induction false} PlaysBoth(s: State, a: seq<Outcome>, m: State, b: seq<Outcome>, s': State)
    requires Plays(s, a, m) && Plays(m, b, s')
    ensures Plays(s, a + b, s')
    decreases |a|
  {
    hide Step, Enabled;
    if a == [] {
      assert a + b == b;
    } else {
      assert (a + b)[1..] == a[1..] + b;
      PlaysBoth(Step(s, WorkerStep(a[0])), a[1..], m, b, s');
    }
  }

  // -------------------------------------------------------------------- one job

  /** The awaits of a job that no cancel meets. */
  function Calm(os: seq<Outcome>): (tr: seq<Await>)
    ensures |tr| == |os| && forall k :: 0 <= k < |os| ==> tr[k] == Await(os[k], false)
  {
    seq(|os|, k requires 0 <= k < |os| => Await(os[k], false))
  }

  lemma CalmSeesNoCancel(os: seq<Outcome>)
    ensures !SawCancel(Calm(os)) && Verdict(Calm(os)) != Cancelled
  {
  }

  /** From an await of the job's own, with no cancel, the worker goes on in the job or to its clean-up. */
  lemma OwnWorkGoes(s: State, o: Outcome)
    requires InOwnWork(s.worker) && s.worker.run !in s.cancelRequested
    ensures var w := Work(s, o).worker;
      && Work(s, o) == Go(s, w) && (InOwnWork(w) || w.JobCleanup?)
      && w.run == s.worker.run && w.next == s.worker.next && w.failed == s.worker.failed
  {
    hide Served;
  }

  lemma PrefixGoesOn(tr: seq<Await>, n: nat)
    requires GoesOn(tr) && n <= |tr|
    ensures GoesOn(tr[..n])
  {
    assert forall k :: 2 <= k < n ==> tr[..n][k] == tr[k];
  }

  /** The awaits of an undisturbed job from the `k`-th on. */
  lemma {:induction false} TracePlays(s: State, os: seq<Outcome>, k: nat)
    requires s.boot.Up? && InOwnWork(s.worker) && s.worker.run !in s.cancelRequested
    requires k < |os| && Ended(Calm(os)) && TraceFits(s.worker, Calm(os[..k]))
    ensures Plays(s, os[k..], Go(s, JobCleanup(s.worker.run, s.worker.next, s.worker.failed, Verdict(Calm(os)))))
    decreases |os| - k
  {
    hide Work, GoesOn, Verdict, InOwnWork, Plays, Enabled, Step;
    InOwnWorkIs(s.worker);
    var w := Work(s, os[k]).worker;
    WorkFits(s, os[k], Calm(os[..k]));
    assert Calm(os[..k]) + [Await(os[k], false)] == Calm(os[..k + 1]);
    OwnWorkGoes(s, os[k]);
    assert os[k..] == [os[k]] + os[k + 1..];
    if k + 1 < |os| {
      assert Calm(os[..k + 1]) == Calm(os)[..|os| - 1][..k + 1];
      PrefixGoesOn(Calm(os)[..|os| - 1], k + 1);
      TracePlays(Go(s, w), os, k + 1);
      PlaysOne(s, os[k], os[k + 1..], Go(s, JobCleanup(s.worker.run, s.worker.next, s.worker.failed, Verdict(Calm(os)))));
    } else {
      assert os[..k + 1] == os && os[k + 1..] == [];
      InOwnWorkIs(w);
      PlaysLast(s, os[k]);
      assert [os[k]] + [] == [os[k]];
    }
  }

  lemma InOwnWorkIs(w: Worker)
    ensures InOwnWork(w) <==> w.JobLoad? || w.JobClone? || w.JobStep?
  {
  }

  const FINE := Outcome(true, true, 1)

  /** The job's directory and its row; its own awaits; its clean-up and its row. */
  function JobScript(os: seq<Outcome>): seq<Outcome> { [FINE, FINE] + os + [FINE, FINE] }

  /** An undisturbed job leaves its conclusion in its row. */
  lemma JobPlays(s: State, os: seq<Outcome>)
    requires s.boot.Up? && s.worker.JobDir? && s.worker.run !in s.cancelRequested && IsJob(s, s.worker.run, s.worker.next)
    requires Ended(Calm(os))
    ensures var r, i, f, c := s.worker.run, s.worker.next, s.worker.failed, Verdict(Calm(os));
      Plays(s, JobScript(os), NextJob(s.(db := SetJob(s.db, r, i, JobCompleted(c))), r, i + 1, f || c == Failure))
  {
    var r, i, f, c := s.worker.run, s.worker.next, s.worker.failed, Verdict(Calm(os));
    var s1 := Go(s, JobStart(r, i, f));
    var s2 := Go(s.(db := SetJob(s.db, r, i, JobRunning)), JobLoad(r, i, f));
    var s3 := Go(s2, JobCleanup(r, i, f, c));
    var s4 := Go(s2, JobFinish(r, i, f, c));
    CalmSeesNoCancel(os);
    JobEdges(s, c);
    JobLastEdge(s, c);
    hide Work, Verdict, Ended, SetJob, NextJob, Plays, JobScript;
    assert Calm(os[..0]) == [] && os[0..] == os;
    TracePlays(s2, os, 0);
    PlaysLast(s4, FINE);
    PlaysOne(s3, FINE, [FINE], Work(s4, FINE));
    PlaysBoth(s2, os, s3, [FINE] + [FINE], Work(s4, FINE));
    PlaysOne(s1, FINE, os + ([FINE] + [FINE]), Work(s4, FINE));
    PlaysOne(s, FINE, [FINE] + (os + ([FINE] + [FINE])), Work(s4, FINE));
    ScriptIs(os);
  }

  lemma ScriptIs(os: seq<Outcome>)
    ensures JobScript(os) == [FINE] + ([FINE] + (os + ([FINE] + [FINE])))
  {
  }

  lemma JobEdges(s: State, c: Conclusion)
    requires s.worker.JobDir? && IsJob(s, s.worker.run, s.worker.next)
    ensures var r, i, f := s.worker.run, s.worker.next, s.worker.failed;
      var s2 := Go(s.(db := SetJob(s.db, r, i, JobRunning)), JobLoad(r, i, f));
      && Work(s, FINE) == Go(s, JobStart(r, i, f)) && Work(Go(s, JobStart(r, i, f)), FINE) == s2
      && Work(Go(s2, JobCleanup(r, i, f, c)), FINE) == Go(s2, JobFinish(r, i, f, c))
  {
    hide SetJob, Served;
  }

  lemma JobLastEdge(s: State, c: Conclusion)
    requires s.worker.JobDir? && IsJob(s, s.worker.run, s.worker.next) && c != Cancelled
    ensures var r, i, f := s.worker.run, s.worker.next, s.worker.failed;
      Work(Go(s.(db := SetJob(s.db, r, i, JobRunning)), JobFinish(r, i, f, c)), FINE)
      == NextJob(s.(db := SetJob(s.db, r, i, JobCompleted(c))), r, i + 1, f || c == Failure)
  {
    var r, i, f := s.worker.run, s.worker.next, s.worker.failed;
    SetJobTwice(s.db, r, i, JobRunning, JobCompleted(c));
    hide SetJob, Served, NextJob;
  }

  lemma SetJobTwice(db: map<nat, Row>, r: nat, i: nat, a: Job, b: Job)
    ensures SetJob(SetJob(db, r, i, a), r, i, b) == SetJob(db, r, i, b)
  {
    if r in db && i < |db[r].jobs| { assert db[r].jobs[i := a][i := b] == db[r].jobs[i := b]; }
  }

  // -------------------------------------------------------------------- one run

  function Conclusions(trs: seq<seq<Outcome>>): (jobs: seq<Job>)
    ensures |jobs| == |trs| && forall k :: 0 <= k < |trs| ==> jobs[k] == JobCompleted(Verdict(Calm(trs[k])))
  {
    seq(|trs|, k requires 0 <= k < |trs| => JobCompleted(Verdict(Calm(trs[k]))))
  }

  predicate AllPassed(trs: seq<seq<Outcome>>) { forall k :: 0 <= k < |trs| ==> Passed(Calm(trs[k])) }

  predicate AllEnded(trs: seq<seq<Outcome>>) { forall k :: 0 <= k < |trs| ==> Ended(Calm(trs[k])) }

  function JobScripts(trs: seq<seq<Outcome>>): seq<Outcome> {
    if trs == [] then [] else JobScript(trs[0]) + JobScripts(trs[1..])
  }

  /** Fetched and marked running; the jobs one after the other; the last write. */
  function RunScript(trs: seq<seq<Outcome>>): seq<Outcome> { [FINE, FINE] + JobScripts(trs) + [FINE] }

  function WithJobs(s: State, r: nat, jobs: seq<Job>): State
    requires r in s.db
  {
    s.(db := s.db[r := s.db[r].(jobs := jobs)])
  }

  lemma FailedOnwards(trs: seq<seq<Outcome>>, failed: bool)
    requires trs != []
    ensures (failed || Verdict(Calm(trs[0])) == Failure) || !AllPassed(trs[1..]) <==> failed || !AllPassed(trs)
  {
    CalmSeesNoCancel(trs[0]);
    hide Passed, Verdict, SawCancel, Calm;
    assert forall k :: 1 <= k < |trs| ==> trs[k] == trs[1..][k - 1];
  }

  /** The row after the first of the jobs, and after them all. */
  lemma JobRows(s: State, r: nat, i: nat, trs: seq<seq<Outcome>>)
    requires r in s.db && i + |trs| == |s.db[r].jobs| && trs != []
    ensures var jobs, job := s.db[r].jobs, JobCompleted(Verdict(Calm(trs[0])));
      var s' := s.(db := SetJob(s.db, r, i, job));
      && r in s'.db && s'.db[r].jobs == jobs[i := job]
      && WithJobs(s', r, s'.db[r].jobs[..i + 1] + Conclusions(trs[1..])) == WithJobs(s, r, jobs[..i] + Conclusions(trs))
  {
    hide Verdict, Calm;
    var jobs, job := s.db[r].jobs, JobCompleted(Verdict(Calm(trs[0])));
    var all := jobs[..i] + Conclusions(trs);
    assert jobs[i := job][..i + 1] + Conclusions(trs[1..]) == all;
    assert s.db[r := s.db[r].(jobs := jobs[i := job])][r := s.db[r].(jobs := all)] == s.db[r := s.db[r].(jobs := all)];
  }

  lemma NextJobIs(s: State, r: nat, i: nat, failed: bool)
    requires r in s.db && r !in s.cancelRequested && i <= |s.db[r].jobs|
    ensures NextJob(s, r, i, failed) == Go(s, if i < |s.db[r].jobs| then JobDir(r, i, failed) else CompleteWrite(r, failed))
  {
  }

  lemma NextJobForgets(s: State, w: Worker, r: nat, i: nat, failed: bool)
    ensures NextJob(Go(s, w), r, i, failed) == NextJob(s, r, i, failed)
  {
  }

  lemma NoJobsPlay(s: State, r: nat, i: nat, failed: bool)
    requires r in s.db && i == |s.db[r].jobs|
    ensures Plays(NextJob(s, r, i, failed), JobScripts([]), Go(WithJobs(s, r, s.db[r].jobs[..i] + Conclusions([])), CompleteWrite(r, failed)))
  {
    var jobs := s.db[r].jobs;
    assert jobs[..i] + Conclusions([]) == jobs;
    assert s.db[r := s.db[r].(jobs := jobs)] == s.db;
  }

  lemma FirstScript(trs: seq<seq<Outcome>>)
    requires trs != [] && AllEnded(trs)
    ensures JobScripts(trs) == JobScript(trs[0]) + JobScripts(trs[1..]) && Ended(Calm(trs[0])) && AllEnded(trs[1..])
  {
    hide Ended, JobScript;
  }

  lemma {:induction false} JobsPlay(s: State, r: nat, i: nat, failed: bool, trs: seq<seq<Outcome>>)
    requires s.boot.Up? && r in s.db && r !in s.cancelRequested && i + |trs| == |s.db[r].jobs| && AllEnded(trs)
    ensures Plays(NextJob(s, r, i, failed), JobScripts(trs),
                  Go(WithJobs(s, r, s.db[r].jobs[..i] + Conclusions(trs)), CompleteWrite(r, failed || !AllPassed(trs))))
    decreases |trs|
  {
    hide NextJob, WithJobs, Conclusions, JobScripts, JobScript, Plays, Verdict, Calm, SetJob, Ended, AllEnded;
    if trs == [] {
      NoJobsPlay(s, r, i, failed);
    } else {
      hide AllPassed;
      var c := Verdict(Calm(trs[0]));
      var s', f' := s.(db := SetJob(s.db, r, i, JobCompleted(c))), failed || c == Failure;
      NextJobIs(s, r, i, failed);
      FirstScript(trs);
      JobPlays(Go(s, JobDir(r, i, failed)), trs[0]);
      NextJobForgets(s', JobDir(r, i, failed), r, i + 1, f');
      JobRows(s, r, i, trs);
      FailedOnwards(trs, failed);
      JobsPlay(s', r, i + 1, f', trs[1..]);
      PlaysBoth(Go(s, JobDir(r, i, failed)), JobScript(trs[0]), NextJob(s', r, i + 1, f'), JobScripts(trs[1..]),
                Go(WithJobs(s, r, s.db[r].jobs[..i] + Conclusions(trs)), CompleteWrite(r, failed || !AllPassed(trs))));
    }
  }

  /** A row as the run's jobs leave it. */
  function Done(row: Row, trs: seq<seq<Outcome>>): Row {
    row.(status := Completed(if AllPassed(trs) then Success else Failure), jobs := Conclusions(trs))
  }

  /** Run `r` ends with this row, nothing else changed in the database, and the worker takes up the next in the queue. */
  function EndsWith(s: State, r: nat, row: Row): (s': State)
    ensures s'.db == s.db[r := row]
    ensures s'.worker == if s.queue == [] then Idle else Fetching(s.queue[0])
  {
    Finish(s.(db := s.db[r := row]), r)
  }

  lemma EndForgets(s: State, r: nat, row0: Row, w: Worker, row: Row)
    ensures EndsWith(s.(db := s.db[r := row0], worker := w), r, row) == EndsWith(s, r, row)
  {
    assert s.db[r := row0][r := row] == s.db[r := row];
  }

  /**
   * A run that nothing disturbs, whatever its jobs' own awaits are: every job is run to the await that ends it and no
   * further, its row holds what those awaits amount to, the run is successful exactly when all of them passed, and no
   * other row changes.
   */
  lemma UndisturbedRun(s: State, trs: seq<seq<Outcome>>)
    requires s.boot.Up? && s.worker.Fetching? && s.worker.run in s.db && s.db[s.worker.run].stored
    requires s.worker.run !in s.cancelRequested && |trs| == |s.db[s.worker.run].jobs| && AllEnded(trs)
    ensures var r := s.worker.run;
      Plays(s, RunScript(trs), EndsWith(s, r, Done(s.db[r], trs)))
  {
    var r := s.worker.run;
    var s1, s2 := Go(s, StartWrite(r)), s.(db := SetStatus(s.db, r, Running));
    var last := Go(WithJobs(s2, r, Conclusions(trs)), CompleteWrite(r, !AllPassed(trs)));
    RunEdges(s, trs);
    RunningJobs(s, r);
    assert s2.db[r].jobs[..0] + Conclusions(trs) == Conclusions(trs);
    hide Work, NextJob, SetStatus, Plays, Conclusions, AllPassed, AllEnded, WithJobs, EndsWith, JobScripts, Done;
    JobsPlay(s2, r, 0, false, trs);
    PlaysFramed(s, s1, NextJob(s2, r, 0, false), JobScripts(trs), last);
  }

  lemma RunningJobs(s: State, r: nat)
    requires r in s.db
    ensures r in SetStatus(s.db, r, Running) && SetStatus(s.db, r, Running)[r].jobs == s.db[r].jobs
  {
  }

  lemma PlaysFramed(s: State, s1: State, m: State, os: seq<Outcome>, last: State)
    requires s.boot.Up? && !s.worker.Idle? && s1.boot.Up? && !s1.worker.Idle? && last.boot.Up? && !last.worker.Idle?
    requires Work(s, FINE) == s1 && Work(s1, FINE) == m && Plays(m, os, last)
    ensures Plays(s, [FINE, FINE] + os + [FINE], Work(last, FINE))
  {
    hide Work, Plays;
    PlaysLast(last, FINE);
    PlaysBoth(m, os, last, [FINE], Work(last, FINE));
    PlaysOne(s1, FINE, os + [FINE], Work(last, FINE));
    PlaysOne(s, FINE, [FINE] + (os + [FINE]), Work(last, FINE));
    assert [FINE, FINE] + os + [FINE] == [FINE] + ([FINE] + (os + [FINE]));
  }

  lemma RunEdges(s: State, trs: seq<seq<Outcome>>)
    requires s.worker.Fetching? && s.worker.run in s.db && s.db[s.worker.run].stored && s.worker.run !in s.cancelRequested
    ensures var r := s.worker.run;
      var s2 := s.(db := SetStatus(s.db, r, Running));
      var last := Go(WithJobs(s2, r, Conclusions(trs)), CompleteWrite(r, !AllPassed(trs)));
      && Work(s, FINE) == Go(s, StartWrite(r)) && Work(Go(s, StartWrite(r)), FINE) == NextJob(Go(s2, StartWrite(r)), r, 0, false)
      && NextJob(Go(s2, StartWrite(r)), r, 0, false) == NextJob(s2, r, 0, false)
      && Work(last, FINE) == EndsWith(s, r, Done(s.db[r], trs))
  {
    hide Served, AllPassed, Conclusions;
    var r := s.worker.run;
    var s2 := s.(db := SetStatus(s.db, r, Running));
    var last := Go(WithJobs(s2, r, Conclusions(trs)), CompleteWrite(r, !AllPassed(trs)));
    assert SetStatus(last.db, r, Done(s.db[r], trs).status) == s.db[r := Done(s.db[r], trs)];
  }

  /** Loaded, cloned, and `n` steps that end well with time left. */
  function GoodTrace(n: nat): seq<Outcome> { [FINE, Outcome(true, true, n)] + seq(n, _ => FINE) }

  lemma GoodTracePasses(n: nat)
    ensures Ended(Calm(GoodTrace(n))) && Passed(Calm(GoodTrace(n))) && |GoodTrace(n)| == 2 + n
  {
    var tr := Calm(GoodTrace(n));
    assert forall k :: 2 <= k < |tr| ==> OnAfter(tr[k]);
  }

  function GoodTraces(steps: seq<nat>): seq<seq<Outcome>> { seq(|steps|, k requires 0 <= k < |steps| => GoodTrace(steps[k])) }

  /** When everything goes well, a run awaits every step of every job once and ends successful with all its jobs. */
  lemma GoodRunSucceeds(s: State, steps: seq<nat>)
    requires s.boot.Up? && s.worker.Fetching? && s.worker.run in s.db && s.db[s.worker.run].stored
    requires s.worker.run !in s.cancelRequested && |steps| == |s.db[s.worker.run].jobs|
    ensures var r := s.worker.run;
      var row := s.db[r].(status := Completed(Success), jobs := seq(|steps|, _ => JobCompleted(Success)));
      Plays(s, RunScript(GoodTraces(steps)), EndsWith(s, r, row))
  {
    var trs := GoodTraces(steps);
    forall k | 0 <= k < |trs| ensures Ended(Calm(trs[k])) && Passed(Calm(trs[k])) { GoodTracePasses(steps[k]); }
    assert Conclusions(trs) == seq(|steps|, _ => JobCompleted(Success));
    UndisturbedRun(s, trs);
    hide Plays, EndsWith, RunScript, Ended, Passed, GoodTraces;
  }

  // ------------------------------------------------------------------- cancellation

  function Fines(n: nat): seq<Outcome> { seq(n, _ => FINE) }

  /** One write on the way: with it, `n` more await the end. */
  lemma OneMoreWrite(s: State, r: nat, n: nat, row0: Row, w: Worker, row: Row)
    requires s.boot.Up? && !s.worker.Idle? && r in s.db
    requires var s1 := s.(db := s.db[r := row0], worker := w); Work(s, FINE) == s1 && Plays(s1, Fines(n), EndsWith(s1, r, row))
    ensures Plays(s, Fines(n + 1), EndsWith(s, r, row))
  {
    EndForgets(s, r, row0, w, row);
    hide Work, Plays, EndsWith;
    PlaysOne(s, FINE, Fines(n), EndsWith(s, r, row));
    assert [FINE] + Fines(n) == Fines(n + 1);
  }

  lemma LastWriteCancels(s: State)
    requires WorkerSound(s) && s.boot.Up? && (s.worker.FinalizeRun? || s.worker.CancelRun?)
    ensures Plays(s, Fines(1), EndsWith(s, s.worker.run, s.db[s.worker.run].(status := Completed(Cancelled))))
  {
    MarkRunsOne(s.db, s.worker.run, Cancelled);
    hide Served;
    var s' := EndsWith(s, s.worker.run, s.db[s.worker.run].(status := Completed(Cancelled)));
    assert Work(s, FINE) == s';
    hide Work, EndsWith, Plays;
    PlaysLast(s, FINE);
    assert Fines(1) == [FINE];
  }

  /** A cancelled run's row, from its jobs. */
  function CancelledRow(row: Row): Row { Row(Completed(Cancelled), CompleteRest(row.jobs, Cancelled), row.stored) }

  lemma JobsWritten(s: State)
    requires WorkerSound(s) && (s.worker.FinalizeJobs? || s.worker.CancelJobs?)
    ensures var r := s.worker.run;
      var row := s.db[r].(jobs := CompleteRest(s.db[r].jobs, Cancelled));
      Work(s, FINE) == s.(db := s.db[r := row], worker := if s.worker.FinalizeJobs? then FinalizeRun(r) else CancelRun(r))
  {
    MarkJobsOne(s.db, s.worker.run, Cancelled);
    hide MarkJobs, CompleteRest, Served;
  }

  lemma JobsWriteCancels(s: State)
    requires WorkerSound(s) && s.boot.Up? && (s.worker.FinalizeJobs? || s.worker.CancelJobs?)
    ensures Plays(s, Fines(2), EndsWith(s, s.worker.run, CancelledRow(s.db[s.worker.run])))
  {
    var r := s.worker.run;
    var row := s.db[r].(jobs := CompleteRest(s.db[r].jobs, Cancelled));
    var w := if s.worker.FinalizeJobs? then FinalizeRun(r) else CancelRun(r);
    var s1 := s.(db := s.db[r := row], worker := w);
    JobsWritten(s);
    hide Work, EndsWith, Plays, Fines;
    LastWriteCancels(s1);
    OneMoreWrite(s, r, 1, row, w, CancelledRow(s.db[r]));
  }

  lemma JobFinishCancels(s: State)
    requires WorkerSound(s) && s.boot.Up? && s.worker.JobFinish? && s.worker.verdict == Cancelled
    ensures var row := s.db[s.worker.run];
      Plays(s, Fines(3), EndsWith(s, s.worker.run, CancelledRow(row.(jobs := row.jobs[s.worker.next := JobCompleted(Cancelled)]))))
  {
    var r, i := s.worker.run, s.worker.next;
    var row := s.db[r].(jobs := s.db[r].jobs[i := JobCompleted(Cancelled)]);
    var s1 := s.(db := s.db[r := row], worker := CancelJobs(r));
    assert Work(s, FINE) == s1;
    hide Work, EndsWith, Plays, Fines, CancelledRow;
    JobsWriteCancels(s1);
    OneMoreWrite(s, r, 2, row, CancelJobs(r), CancelledRow(row));
  }

  lemma JobCleanupCancels(s: State)
    requires WorkerSound(s) && s.boot.Up? && s.worker.JobCleanup? && s.worker.verdict == Cancelled
    ensures var row := s.db[s.worker.run];
      Plays(s, Fines(4), EndsWith(s, s.worker.run, CancelledRow(row.(jobs := row.jobs[s.worker.next := JobCompleted(Cancelled)]))))
  {
    var r, i, w := s.worker.run, s.worker.next, JobFinish(s.worker.run, s.worker.next, s.worker.failed, Cancelled);
    var s1 := s.(db := s.db[r := s.db[r]], worker := w);
    assert s1.db == s.db;
    assert Work(s, FINE) == s1;
    hide Work, EndsWith, Plays, Fines, CancelledRow;
    JobFinishCancels(s1);
    OneMoreWrite(s, r, 3, s.db[r], w, CancelledRow(s.db[r].(jobs := s.db[r].jobs[i := JobCompleted(Cancelled)])));
  }

  /**
   * Once a checkpoint of the worker has seen the cancel flag, and with no write refused, the run ends cancelled: the
   * job at hand and every job that had not completed are cancelled, and the others stay.
   */
  lemma SeenCancelEndsCancelled(s: State) returns (n: nat, row: Row)
    requires Inv(s) && s.boot.Up? && !s.worker.Idle? && AfterCheckpoint(s.worker) && !s.worker.CatchWrite?
    ensures Plays(s, Fines(n), EndsWith(s, s.worker.run, row)) && row.status == Completed(Cancelled)
    ensures var w, jobs := s.worker, s.db[s.worker.run].jobs;
      Rests(if InJob(w) then jobs[w.next := JobCompleted(Cancelled)] else jobs, row.jobs, Cancelled)
  {
    hide Plays, Work, RowSound, QueueSound, RowsSound, BootSound, EndsWith, Fines;
    var r := s.worker.run;
    if s.worker.FinalizeRun? || s.worker.CancelRun? {
      LastWriteCancels(s);
      n, row := 1, s.db[r].(status := Completed(Cancelled));
    } else if s.worker.FinalizeJobs? || s.worker.CancelJobs? {
      JobsWriteCancels(s);
      n, row := 2, CancelledRow(s.db[r]);
    } else {
      row := CancelledRow(s.db[r].(jobs := s.db[r].jobs[s.worker.next := JobCompleted(Cancelled)]));
      if s.worker.JobFinish? { JobFinishCancels(s); n := 3; } else { JobCleanupCancels(s); n := 4; }
    }
  }

  /** A cancel of the run at work stays known until that run ends or the process does. */
  lemma CancelSticks(s: State, e: Event, r: nat)
    requires Inv(s) && Enabled(s, e) && !e.Crash? && s.active == Some(r) && r in s.cancelRequested
    ensures r in Step(s, e).cancelRequested || (Step(s, e).active != Some(r) && e.WorkerStep? && Ending(s.worker))
  {
    ActiveIsAlone(s);
    if e.CancelerStep? { assert CancelerSound(s, s.cancelers[e.caller]); }
  }

  /** A cancel is known from its call on. */
  lemma CancelIsKnown(s: State, r: nat, k: nat)
    requires Inv(s) && Enabled(s, Cancel(r, k))
    ensures var s' := Step(s, Cancel(r, k));
      r in s'.cancelRequested && r !in s'.queue && s'.db == s.db && (s.active != Some(r) ==> k in s'.cancelers)
  {
    CancelKeepsQueue(s, r, k);
  }

  /** A cancel of a run that is not at work pulls it from the queue and, with no write refused, ends it and its jobs cancelled. */
  lemma CancelElsewhereEndsCancelled(s: State, r: nat, k: nat)
    requires Enabled(s, Cancel(r, k)) && s.active != Some(r)
    ensures var s1, write := Step(s, Cancel(r, k)), CancelerStep(k, true);
      && Enabled(s1, write) && Enabled(Step(s1, write), write)
      && var s3 := Step(Step(s1, write), write);
         && s3.db.Keys == s.db.Keys && (forall x :: x in s.db && x != r ==> s3.db[x] == s.db[x])
         && Rests(s.db[r].jobs, s3.db[r].jobs, Cancelled)
         && s3.db[r].status == (if s.db[r].status.Completed? then s.db[r].status else Completed(Cancelled))
         && k !in s3.cancelers && r !in s3.cancelRequested
  {
  }

  // ------------------------------------------------------------------------ failure

  /** The two awaits fail the run: its jobs stay, nothing else changes, and the worker takes up the next in the queue. */
  predicate FailsTheRun(s: State, first: Outcome, second: Outcome)
    requires !s.worker.Idle? && s.worker.run in s.db
  {
    var r, s1 := s.worker.run, Work(s, first);
    && !s1.worker.Idle?
    && var s2 := Work(s1, second);
       && s2.db == s.db[r := s.db[r].(status := Completed(Failure))]
       && s2.worker == if s.queue == [] then Idle else Fetching(s.queue[0])
  }

  /** A refused write outside a job's own work fails the run, as does a repository without storage. */
  lemma RefusedWriteFailsRun(s: State, refused: Outcome)
    requires !s.worker.Idle? && s.worker.run in s.db && !InOwnWork(s.worker) && !s.worker.CatchWrite? && !refused.ok
    ensures FailsTheRun(s, refused, FINE)
  {
    hide Served;
    var r := s.worker.run;
    assert Work(s, refused) == Go(s, CatchWrite(r)) by { hide MarkJobs, MarkRuns, SetJob, SetStatus, NextJob, FailRun, Finish; }
    CatchFails(s);
    hide Work;
  }

  lemma CatchFails(s: State)
    requires !s.worker.Idle? && s.worker.run in s.db
    ensures var r := s.worker.run;
      var s2 := Work(Go(s, CatchWrite(r)), FINE);
      s2.db == s.db[r := s.db[r].(status := Completed(Failure))] && s2.worker == if s.queue == [] then Idle else Fetching(s.queue[0])
  {
    hide Served;
  }

  lemma UnstoredRunFails(s: State)
    requires s.worker.Fetching? && s.worker.run in s.db && !s.db[s.worker.run].stored
    ensures FailsTheRun(s, FINE, FINE)
  {
    hide Served;
  }
}
