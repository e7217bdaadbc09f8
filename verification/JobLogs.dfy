/** How long a job's log can get over the runs of the service. */
module JobLogs {
  import opened Text
  import opened LogBound
  import opened JobSpec
  import opened JobRuns

  /** The log fits, or the job lapsed and only the interruption line is beyond the limits. */
  predicate LogWithin(j: Job) {
    Fits(j.log) || (j.status == Failed && j.owner.None? && OneLineBeyond(j.log))
  }

  predicate OneLineBeyond(log: seq<string>) {
    log != [] && log[|log| - 1] == InterruptionLine() && Fits(log[..|log| - 1])
  }

  lemma LapseKeepsLog(j: Job, now: int)
    requires LogWithin(j)
    ensures LogWithin(ReconcileOne(j, now))
  {
    hide Fits, InterruptionLine, ExpiredError, InterruptedRecovery, OrDefault;
    assert (j.log + [InterruptionLine()])[..|j.log|] == j.log;
  }

  lemma BoundFits(lines: seq<string>)
    ensures Fits(Bound(lines))
  {
    BoundIsLongest(lines);
  }

  lemma ClaimKeepsLog(j: Job, worker: string, token: string, now: int)
    requires LogWithin(j)
    ensures LogWithin(ClaimedFrom(j, worker, token, now, LEASE_SECONDS))
  {
    hide Fits, InterruptionLine;
  }

  lemma ReportKeepsLog(j: Job, status: Status, summary: Option<Summary>, lines: seq<string>, clean: string -> string, now: int,
                        end: int)
    ensures LogWithin(ReportOne(j, status, summary, lines, clean, now, end))
  {
    hide Fits, Bound, CleanAll, InterruptionLine;
    BoundFits(CleanAll(j.log + lines, clean));
  }

  lemma RenewKeepsLog(j: Job, now: int)
    requires LogWithin(j)
    ensures LogWithin(RenewOne(j, now, LEASE_SECONDS)) && LogWithin(j.(updated := now))
  {
    hide Fits, InterruptionLine;
  }

  lemma ProgressKeepsLog(j: Job, sequence: int, progress: string, lines: seq<string>, now: int)
    requires LogWithin(j)
    ensures LogWithin(ProgressOne(j, sequence, progress, lines, now))
  {
    hide Fits, Bound, InterruptionLine;
    BoundFits(j.log + lines);
  }

  lemma CancelKeepsLog(j: Job, now: int, end: int)
    requires LogWithin(j) && Cancelable(j)
    ensures LogWithin(CancelOne(j, now, end))
  {
    hide InterruptionLine, CanceledRecovery, OrDefault;
    OneLine(CanceledLine());
  }

  /** One call keeps every log within. */
  lemma StepKeepsLogs(jobs: Jobs, step: Step, id: string)
    requires id in jobs && LogWithin(jobs[id]) && (step.Dispatch? ==> step.id !in jobs)
    ensures id in NextJobs(jobs, step) && LogWithin(NextJobs(jobs, step)[id])
  {
    hide LogWithin, ReconcileOne, ClaimedFrom, RenewOne, ProgressOne, ReportOne, CancelOne, NewJob, Owns, Unexpired, Holds, ReportAccepted;
    var j := jobs[id];
    match step
    case Dispatch(_, _, _, _, _, _) =>
    case Fetch(worker, sweep, now, draw) =>
      LapseKeepsLog(j, sweep);
      LapseKeepsLog(ReconcileOne(j, sweep), now);
      ClaimKeepsLog(ReconcileOne(ReconcileOne(j, sweep), now), worker, draw(id), now);
    case RenewLease(_, _, _, _, now, sweep) =>
      LapseKeepsLog(j, sweep);
      RenewKeepsLog(j, now);
    case Diagnostic(_, _, _, now, sweep) =>
      LapseKeepsLog(j, sweep);
      RenewKeepsLog(j, now);
    case UpdateProgress(_, _, _, sequence, progress, lines, _, check, now) =>
      RenewKeepsLog(j, check);
      ProgressKeepsLog(j, sequence, progress, lines, now);
      ProgressKeepsLog(j.(updated := check), sequence, progress, lines, now);
    case UpdateStatus(_, _, _, status, summary, lines, clean, _, now, end) =>
      ReportKeepsLog(j, status, summary, lines, clean, now, end);
    case CancelJob(_, sweep, now, end) =>
      LapseKeepsLog(j, sweep);
      if Cancelable(ReconcileOne(j, sweep)) {
        CancelKeepsLog(ReconcileOne(j, sweep), now, end);
      }
    case Sweep(now) => LapseKeepsLog(j, now);
  }

  ghost predicate AllWithin(jobs: Jobs) {
    forall id | id in jobs :: LogWithin(jobs[id])
  }

  lemma NewKeepsLogs(jobs: Jobs, step: Step)
    requires step.Dispatch? && step.id !in jobs
    ensures step.id in NextJobs(jobs, step) && LogWithin(NextJobs(jobs, step)[step.id])
  {
    hide InterruptionLine;
  }

  lemma {:induction false} RunKeepsLogs(s: State, steps: seq<Step>)
    requires s.life.Keys == s.jobs.Keys && LegalRun(s, steps) && AllWithin(s.jobs)
    ensures AllWithin(Run(s, steps).jobs)
    decreases |steps|
  {
    hide NextJobs, Observed, LogWithin;
    assert steps != [] ==> Legal(s, steps[0]);
    if steps != [] {
      var next := Next(s, steps[0]);
      DispatchIsNew(s, steps[0]);
      DomainGrows(s.jobs, steps[0]);
      forall id | id in next.jobs
        ensures LogWithin(next.jobs[id])
      {
        if id in s.jobs {
          StepKeepsLogs(s.jobs, steps[0], id);
        } else {
          NewKeepsLogs(s.jobs, steps[0]);
        }
      }
      RunKeepsLogs(next, steps[1..]);
    }
  }

  /** In every legal run each log fits its limits, or the job's lease ran out and the log is one line longer than one that
      fits: the interruption line. */
  lemma LogsStayWithin(steps: seq<Step>, id: string)
    requires LegalRun(START, steps) && id in Run(START, steps).jobs
    ensures var s := Run(START, steps);
            Fits(s.jobs[id].log) || (OneLineBeyond(s.jobs[id].log) && |s.life[id]| == 2 && s.life[id][1].Lapsed?)
  {
    hide NextJobs, Observed, Legal, Fits, OneLineBeyond;
    RunKeepsInv(START, steps);
    RunKeepsLogs(START, steps);
    var s := Run(START, steps);
    assert LogWithin(s.jobs[id]) && LifeFits(s.jobs[id], s.life[id]);
  }
}
