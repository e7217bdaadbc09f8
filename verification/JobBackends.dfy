/** The service over either repository: the guarded statements of SQLite make no difference to any run. */
module JobBackends {
  import opened JobSpec
  import opened JobRuns
  import opened JobSqlite

  /** The job map after a step when the jobs are kept in SQLite: renewals and progress are guarded updates, and a renewal that
      updates no row counts as refused. */
  function GuardedJobs(jobs: Jobs, step: Step): Jobs {
    hide NewJob, Owns, Unexpired, Guard, Reconcile, GuardedRenew, GuardedProgress, NextJobs;
    match step
    case RenewLease(worker, id, token, check, now, sweep) =>
      if !(id in jobs && Owns(jobs[id], worker, token) && jobs[id].status == InProgress && Unexpired(jobs[id], check)) then jobs
      else if Guard(jobs[id], worker, token, now) then GuardedRenew(jobs, id, worker, token, now, LEASE_SECONDS)
      else Reconcile(jobs, sweep)
    case UpdateProgress(worker, id, token, sequence, progress, lines, context, check, now) =>
      if !(id in jobs && Owns(jobs[id], worker, token) && Unexpired(jobs[id], check)) then jobs
      else if !(0 < sequence <= MAX_SEQUENCE) || jobs[id].status != InProgress then jobs
      else GuardedProgress(if context then jobs[id := jobs[id].(updated := check)] else jobs, id, worker, token, sequence, progress, lines, now)
    case _ => NextJobs(jobs, step)
  }

  function GuardedRun(jobs: Jobs, steps: seq<Step>): Jobs
    decreases |steps|
  {
    if steps == [] then jobs else GuardedRun(GuardedJobs(jobs, steps[0]), steps[1..])
  }

  ghost predicate AllLeased(jobs: Jobs) {
    forall id | id in jobs :: Leased(jobs[id])
  }

  lemma StepsAgree(jobs: Jobs, step: Step)
    requires AllLeased(jobs)
    ensures GuardedJobs(jobs, step) == NextJobs(jobs, step)
  {
    hide Owns, Unexpired, Guard, Holds, Reconcile, Claim, Renew, Progress, GuardedRenew, GuardedProgress, Leased, NewJob, ReportOne, CancelOne;
    match step
    case RenewLease(worker, id, token, check, now, sweep) =>
      if id in jobs {
        RepositoriesAgree(jobs, id, worker, token, 0, "", [], now, LEASE_SECONDS);
      }
    case UpdateProgress(worker, id, token, sequence, progress, lines, context, check, now) =>
      if id in jobs {
        var touched := if context then jobs[id := jobs[id].(updated := check)] else jobs;
        TouchedIsLeased(jobs[id], check);
        RepositoriesAgree(touched, id, worker, token, sequence, progress, lines, now, LEASE_SECONDS);
      }
    case _ =>
  }

  lemma TouchedIsLeased(j: Job, now: int)
    requires Leased(j)
    ensures Leased(j.(updated := now))
  {
  }

  lemma InvIsLeased(s: State)
    requires Inv(s)
    ensures s.life.Keys == s.jobs.Keys && AllLeased(s.jobs)
  {
    hide TokensDistinct;
    forall id | id in s.jobs
      ensures Leased(s.jobs[id])
    {
      assert LifeFits(s.jobs[id], s.life[id]);
    }
  }

  lemma {:induction false} RunsAgreeFrom(s: State, steps: seq<Step>)
    requires Inv(s) && LegalRun(s, steps)
    ensures GuardedRun(s.jobs, steps) == Run(s, steps).jobs
    decreases |steps|
  {
    hide Inv, NextJobs, GuardedJobs, Observed, AllLeased;
    InvIsLeased(s);
    if steps != [] {
      assert Legal(s, steps[0]);
      StepsAgree(s.jobs, steps[0]);
      StepKeepsInv(s, steps[0]);
      RunsAgreeFrom(Next(s, steps[0]), steps[1..]);
    }
  }

  /** Every legal run from the start gives the same jobs with either repository. */
  lemma RunsAgree(steps: seq<Step>)
    requires LegalRun(START, steps)
    ensures GuardedRun(map[], steps) == Run(START, steps).jobs
  {
    hide NextJobs, GuardedJobs, Observed, Legal;
    RunsAgreeFrom(START, steps);
  }
}
