/** What each service call does to the job records, field by field: which records change, and what they become. */
module JobEffects {
  import opened Text
  import opened LogBound
  import opened JobSpec
  import opened JobRuns

  /** The worker owns the job and its token is the job's. */
  predicate Entitled(j: Job, worker: string, token: Option<string>) {
    j.owner == Some(worker) && token.Some? && (if j.token.Some? then j.token.value == token.value else token.value == "")
  }

  predicate LiveAt(j: Job, t: int) {
    j.expires.Some? && t < j.expires.value
  }

  /** The fields by which a worker holds a job. */
  predicate SameLease(a: Job, b: Job) {
    a.owner == b.owner && a.token == b.token && a.issued == b.issued && a.expires == b.expires && a.attempts == b.attempts
    && a.started == b.started
  }

  /** What a job is. */
  predicate SameTask(a: Job, b: Job) {
    a.worker == b.worker && a.command == b.command && a.target == b.target && a.requestedBy == b.requestedBy && a.submitted == b.submitted
  }

  ghost predicate OthersSame(before: Jobs, after: Jobs, id: string) {
    after.Keys == before.Keys && forall k | k in before && k != id :: after[k] == before[k]
  }

  // Lapse

  predicate Lapses(j: Job, t: int) {
    j.status == InProgress && j.expires.Some? && j.expires.value <= t
  }

  /** The job fails without an owner, keeps an error it had, and its log ends with the interruption line unless it had it. */
  predicate LapsedTo(j: Job, j': Job, t: int) {
    && SameTask(j, j') && j'.attempts == j.attempts && j'.started == j.started
    && j'.status == Failed && j'.owner.None? && j'.token.None? && j'.issued.None? && j'.expires.None?
    && j'.finished == Some(t) && j'.updated == t
    && j'.summary.sequence == j.summary.sequence && j'.summary.progress == j.summary.progress
    && j'.summary.error == Some(if j.summary.error.Some? then j.summary.error.value else ExpiredError())
    && j'.summary.recovery == Some("worker_interrupted")
    && j'.log == j.log + if InterruptionLine() in j.log then [] else [InterruptionLine()]
  }

  predicate SweptTo(j: Job, j': Job, t: int) {
    if Lapses(j, t) then LapsedTo(j, j', t) else j' == j
  }

  lemma SweepsOne(j: Job, t: int)
    ensures SweptTo(j, ReconcileOne(j, t), t)
  {
    hide InterruptionLine, ExpiredError;
    assert j.log + [] == j.log;
  }

  ghost predicate AllSwept(before: Jobs, after: Jobs, t: int) {
    after.Keys == before.Keys && forall k | k in before :: SweptTo(before[k], after[k], t)
  }

  lemma SweepsAll(jobs: Jobs, t: int)
    ensures AllSwept(jobs, Reconcile(jobs, t), t)
  {
    hide ReconcileOne, SweptTo;
    forall k | k in jobs {
      SweepsOne(jobs[k], t);
    }
  }

  // Fetch

  /** The pending job is now the worker's, with a new token for five minutes. */
  predicate HandedOut(j: Job, j': Job, worker: string, token: string, t: int) {
    && SameTask(j, j') && j'.summary == j.summary && j'.log == j.log && j'.finished == j.finished
    && j'.status == InProgress && j'.owner == Some(worker) && j'.token == Some(token) && j'.issued == Some(t)
    && j'.expires == Some(t + 300_000_000) && j'.attempts == j.attempts + 1 && j'.started == Some(t) && j'.updated == t
  }

  /** A fetch hands out exactly the worker's pending jobs and ends exactly the running ones that have expired. */
  ghost predicate FetchOutcome(jobs: Jobs, step: Step, after: Jobs)
    requires step.Fetch?
  {
    after.Keys == jobs.Keys && forall k | k in jobs ::
      if jobs[k].status == Pending && jobs[k].worker == step.worker then HandedOut(jobs[k], after[k], step.worker, step.draw(k), step.now)
      else if Lapses(jobs[k], step.sweep) then LapsedTo(jobs[k], after[k], step.sweep)
      else SweptTo(jobs[k], after[k], step.now)
  }

  lemma FetchesOne(j: Job, worker: string, sweep: int, now: int, token: string)
    ensures var j' := ClaimedFrom(ReconcileOne(ReconcileOne(j, sweep), now), worker, token, now, LEASE_SECONDS);
            if j.status == Pending && j.worker == worker then HandedOut(j, j', worker, token, now)
            else if Lapses(j, sweep) then LapsedTo(j, j', sweep)
            else SweptTo(j, j', now)
  {
    hide InterruptionLine, ExpiredError, OrDefault, LapsedTo, Interrupt;
    SweepsOne(j, sweep);
    SweepsOne(j, now);
    LapsedIsFailed(j, sweep);
    LapsedIsFailed(j, now);
  }

  lemma LapsedIsFailed(j: Job, t: int)
    ensures Lapses(j, t) ==> ReconcileOne(j, t).status == Failed
  {
    hide InterruptionLine, ExpiredError, OrDefault;
  }

  lemma FetchEffect(jobs: Jobs, step: Step)
    requires step.Fetch?
    ensures FetchOutcome(jobs, step, NextJobs(jobs, step))
  {
    hide NewJob, Renew, Progress, Holds, Owns, Unexpired, ReportAccepted, ReportOne;
    hide Cancelable, CancelOne, ReconcileOne, ClaimedFrom, HandedOut, Lapses, LapsedTo, SweptTo;
    forall k | k in jobs {
      FetchesOne(jobs[k], step.worker, step.sweep, step.now, step.draw(k));
    }
  }

  // Renewal

  /** Only the expiry moves, to five minutes from now. */
  predicate RenewedTo(j: Job, j': Job, t: int) {
    && j'.expires == Some(t + 300_000_000) && j'.updated == t
    && j'.(expires := j.expires, updated := j.updated) == j
  }

  /** A renewal refused at once changes nothing; one refused after a second look at the clock sweeps. */
  ghost predicate RenewOutcome(jobs: Jobs, step: Step, after: Jobs)
    requires step.RenewLease?
  {
    hide AllSwept, Entitled, LiveAt, RenewedTo;
    var id := step.id;
    if !(id in jobs && Entitled(jobs[id], step.worker, step.token) && jobs[id].status == InProgress && LiveAt(jobs[id], step.check))
    then after == jobs
    else if LiveAt(jobs[id], step.now) then OthersSame(jobs, after, id) && RenewedTo(jobs[id], after[id], step.now)
    else AllSwept(jobs, after, step.sweep)
  }

  lemma RenewEffect(jobs: Jobs, step: Step)
    requires step.RenewLease?
    ensures RenewOutcome(jobs, step, NextJobs(jobs, step))
  {
    hide Reconcile, AllSwept, NewJob, Claim, Progress, ReportAccepted, ReportOne, Cancelable, CancelOne;
    SweepsAll(jobs, step.sweep);
  }

  // Diagnostics

  ghost predicate DiagnosticOutcome(jobs: Jobs, step: Step, after: Jobs)
    requires step.Diagnostic?
  {
    hide AllSwept, Entitled, LiveAt;
    var id := step.id;
    if !(id in jobs && Entitled(jobs[id], step.worker, step.token) && jobs[id].status == InProgress) then after == jobs
    else if LiveAt(jobs[id], step.now)
    then OthersSame(jobs, after, id) && after[id].updated == step.now && after[id].(updated := jobs[id].updated) == jobs[id]
    else AllSwept(jobs, after, step.sweep)
  }

  lemma DiagnosticEffect(jobs: Jobs, step: Step)
    requires step.Diagnostic?
    ensures DiagnosticOutcome(jobs, step, NextJobs(jobs, step))
  {
    hide Reconcile, AllSwept, NewJob, Claim, Renew, Progress, Holds, ReportAccepted, ReportOne, Cancelable, CancelOne;
    SweepsAll(jobs, step.sweep);
  }

  // Progress

  /** Number, progress and log are the report's; nothing else moves. */
  ghost predicate ProgressedTo(j: Job, j': Job, step: Step)
    requires step.UpdateProgress?
  {
    && j'.summary.sequence == step.sequence && j'.summary.progress == Some(step.progress)
    && LongestFittingSuffix(j.log + step.lines, j'.log) && j'.updated == step.now
    && j'.(summary := j'.summary.(sequence := j.summary.sequence, progress := j.summary.progress), log := j.log, updated := j.updated) == j
  }

  /** A report of the holder of a live lease is stored when its number is new and the highest so far; otherwise a lease
      context that came with it is all that is kept. */
  ghost predicate ProgressOutcome(jobs: Jobs, step: Step, after: Jobs)
    requires step.UpdateProgress?
  {
    var id := step.id;
    if !(id in jobs && Entitled(jobs[id], step.worker, step.token) && jobs[id].status == InProgress && LiveAt(jobs[id], step.check)
         && 0 < step.sequence <= 1_000_000_000)
    then after == jobs
    else
      && OthersSame(jobs, after, id)
      && if LiveAt(jobs[id], step.now) && jobs[id].summary.sequence < step.sequence then ProgressedTo(jobs[id], after[id], step)
         else after[id].updated == (if step.context then step.check else jobs[id].updated)
              && after[id].(updated := jobs[id].updated) == jobs[id]
  }

  lemma ProgressEffect(jobs: Jobs, step: Step)
    requires step.UpdateProgress?
    ensures ProgressOutcome(jobs, step, NextJobs(jobs, step))
  {
    hide Reconcile, Bound, LongestFittingSuffix, NewJob, Claim, Renew, ReportAccepted, ReportOne, Cancelable, CancelOne;
    if step.id in jobs {
      BoundIsLongest(jobs[step.id].log + step.lines);
    }
  }

  // The final report

  /** The old lines and then the reported ones, each cleaned. */
  function Cleaned(log: seq<string>, lines: seq<string>, clean: string -> string): seq<string> {
    seq(|log| + |lines|, i requires 0 <= i < |log| + |lines| => clean(if i < |log| then log[i] else lines[i - |log|]))
  }

  lemma {:induction false} CleansEach(lines: seq<string>, clean: string -> string)
    ensures forall i | 0 <= i < |lines| :: CleanAll(lines, clean)[i] == clean(lines[i])
  {
    if lines != [] {
      CleansEach(lines[1..], clean);
    }
  }

  /** Status, summary, log and times are the report's; the lease and everything else stay. */
  ghost predicate ReportedTo(j: Job, j': Job, step: Step)
    requires step.UpdateStatus?
  {
    && SameTask(j, j') && SameLease(j, j') && j'.status == step.status
    && j'.finished == Some(step.end) && j'.updated == step.now
    && (step.summary.Some? ==> j'.summary == step.summary.value) && (step.summary.None? ==> j'.summary == j.summary)
    && LongestFittingSuffix(Cleaned(j.log, step.lines, step.clean), j'.log)
  }

  /** Exactly the holder of a live lease can end a running job, as succeeded or failed, and changes no other. */
  ghost predicate ReportOutcome(jobs: Jobs, step: Step, after: Jobs)
    requires step.UpdateStatus?
  {
    var id := step.id;
    if id in jobs && Entitled(jobs[id], step.worker, step.token) && jobs[id].status == InProgress && LiveAt(jobs[id], step.check)
       && (step.status == Succeeded || step.status == Failed)
    then OthersSame(jobs, after, id) && ReportedTo(jobs[id], after[id], step)
    else after == jobs
  }

  lemma ReportEffect(jobs: Jobs, step: Step)
    requires step.UpdateStatus?
    ensures ReportOutcome(jobs, step, NextJobs(jobs, step))
  {
    hide Bound, CleanAll, LongestFittingSuffix, Cleaned, NewJob, Reconcile, Claim, Renew, Progress, Cancelable, CancelOne;
    if step.id in jobs {
      var log := jobs[step.id].log;
      CleanedLog(log, step.lines, step.clean);
      BoundIsLongest(Cleaned(log, step.lines, step.clean));
    }
  }

  lemma CleanedLog(log: seq<string>, lines: seq<string>, clean: string -> string)
    ensures CleanAll(log + lines, clean) == Cleaned(log, lines, clean)
  {
    hide CleanAll;
    CleansEach(log + lines, clean);
    var cleaned := CleanAll(log + lines, clean);
    forall i | 0 <= i < |cleaned|
      ensures cleaned[i] == Cleaned(log, lines, clean)[i]
    {
    }
  }

  // Cancelling

  /** The job stops; an error, a recovery, a log and a finish time it had stay. */
  predicate CanceledTo(j: Job, j': Job, now: int, end: int) {
    && SameTask(j, j') && SameLease(j, j') && j'.status == Canceled && j'.updated == now
    && j'.finished == Some(if j.finished.Some? then j.finished.value else end)
    && j'.summary.sequence == j.summary.sequence && j'.summary.progress == j.summary.progress
    && j'.summary.error == Some(if j.summary.error.Some? then j.summary.error.value else "job canceled")
    && j'.summary.recovery == Some(if j.summary.recovery.Some? then j.summary.recovery.value else "operator_canceled")
    && (if |j.log| > 0 then j'.log == j.log else j'.log == [CanceledLine()])
  }

  /** Expired jobs lapse first; a job that is then pending or in progress is canceled. */
  ghost predicate CancelOutcome(jobs: Jobs, step: Step, after: Jobs)
    requires step.CancelJob?
  {
    hide SweptTo, Lapses, CanceledTo;
    var id := step.id;
    && after.Keys == jobs.Keys && (forall k | k in jobs && k != id :: SweptTo(jobs[k], after[k], step.sweep))
    && (id in jobs ==>
          if (jobs[id].status == Pending || jobs[id].status == InProgress) && !Lapses(jobs[id], step.sweep)
          then CanceledTo(jobs[id], after[id], step.now, step.end)
          else SweptTo(jobs[id], after[id], step.sweep))
  }

  lemma CancelsOne(j: Job, now: int, end: int)
    ensures CanceledTo(j, CancelOne(j, now, end), now, end)
  {
    hide CanceledLine;
  }

  lemma CancelEffect(jobs: Jobs, step: Step)
    requires step.CancelJob?
    ensures CancelOutcome(jobs, step, NextJobs(jobs, step))
  {
    hide ReconcileOne, CancelOne, LapsedTo, CanceledTo, NewJob, Claim, Renew, Progress, Holds, Owns, Unexpired, ReportAccepted, ReportOne;
    SweepsAll(jobs, step.sweep);
    if step.id in jobs {
      CancelsOne(jobs[step.id], step.now, step.end);
      LapsedIsFailed(jobs[step.id], step.sweep);
    }
  }

  // Dispatch and sweep

  /** A new job is pending, held by nobody, with nothing reported. */
  predicate NewTo(j: Job, step: Step)
    requires step.Dispatch?
  {
    && j.worker == step.worker && j.command == step.command && j.target == step.target && j.requestedBy == step.requestedBy
    && j.status == Pending && j.owner.None? && j.token.None? && j.issued.None? && j.expires.None? && j.attempts == 0
    && j.summary == Summary(0, None, None, None) && j.log == [] && j.submitted == step.now && j.updated == step.now
    && j.started.None? && j.finished.None?
  }

  lemma DispatchEffect(jobs: Jobs, step: Step)
    requires step.Dispatch?
    ensures var after := NextJobs(jobs, step);
            after.Keys == jobs.Keys + {step.id} && NewTo(after[step.id], step) && forall k | k in jobs && k != step.id :: after[k] == jobs[k]
  {
    hide Reconcile, Claim, Renew, Progress, ReportOne, CancelOne, Holds, ReportAccepted, Cancelable, Unexpired, Owns;
  }

  lemma SweepEffect(jobs: Jobs, step: Step)
    requires step.Sweep?
    ensures AllSwept(jobs, NextJobs(jobs, step), step.now)
  {
    hide Reconcile, AllSwept, NewJob, Claim, Renew, Progress, Holds, Owns, Unexpired, ReportAccepted, ReportOne, Cancelable, CancelOne;
    SweepsAll(jobs, step.now);
  }
}
