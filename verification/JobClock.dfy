/** What the lease times of a run keep, and which of it needs a clock that does not go back. */
module JobClock {
  import opened Text
  import opened JobSpec
  import opened JobRuns

  const LEASE := 300 * 1_000_000

  /** The clock readings of one call, in order. */
  function Readings(step: Step): seq<int> {
    match step
    case Dispatch(_, _, _, _, _, now) => [now]
    case Fetch(_, sweep, now, _) => [sweep, now]
    case RenewLease(_, _, _, check, now, sweep) => [check, now, sweep]
    case Diagnostic(_, _, _, now, sweep) => [now, sweep]
    case UpdateProgress(_, _, _, _, _, _, _, check, now) => [check, now]
    case UpdateStatus(_, _, _, _, _, _, _, check, now, end) => [check, now, end]
    case CancelJob(_, sweep, now, end) => [sweep, now, end]
    case Sweep(now) => [now]
  }

  function LastReading(step: Step): int {
    var r := Readings(step); r[|r| - 1]
  }

  /** The readings do not go back, and start no earlier than `t`. */
  predicate ForwardFrom(t: int, step: Step) {
    var r := Readings(step);
    t <= r[0] && (|r| > 1 ==> r[0] <= r[1]) && (|r| > 2 ==> r[1] <= r[2])
  }

  /** A running job's issue time is before its expiry, which is at most one lease ahead of the clock. */
  predicate LeaseInOrder(j: Job, t: int) {
    j.status == InProgress && j.issued.Some? && j.expires.Some? ==>
      j.issued.value <= t && j.issued.value < j.expires.value <= t + LEASE
  }

  predicate AllInOrder(jobs: Jobs, t: int) {
    forall id | id in jobs :: LeaseInOrder(jobs[id], t)
  }

  /** How a running job came by its lease times in one step. */
  ghost predicate LeaseSource(jobs: Jobs, step: Step, id: string)
    requires id in NextJobs(jobs, step)
  {
    var j := NextJobs(jobs, step)[id];
    j.status == InProgress ==>
      || (id in jobs && jobs[id].status == InProgress && j.issued == jobs[id].issued && j.expires == jobs[id].expires)
      || (id in jobs && jobs[id].status == InProgress && step.RenewLease? && step.id == id && j.issued == jobs[id].issued
          && Unexpired(jobs[id], step.check) && Unexpired(jobs[id], step.now) && j.expires == Some(step.now + LEASE))
      || (id in jobs && step.Fetch? && jobs[id].status == Pending && j.issued == Some(step.now) && j.expires == Some(step.now + LEASE))
  }

  lemma FetchLeaseSource(jobs: Jobs, step: Step, id: string)
    requires step.Fetch? && id in NextJobs(jobs, step)
    ensures LeaseSource(jobs, step, id)
  {
    hide OrDefault, InterruptionLine, ExpiredError, InterruptedRecovery, NewJob, ReportOne, CancelOne, Renew, Progress;
  }

  lemma RenewLeaseSource(jobs: Jobs, step: Step, id: string)
    requires step.RenewLease? && id in NextJobs(jobs, step)
    ensures LeaseSource(jobs, step, id)
  {
    hide OrDefault, InterruptionLine, ExpiredError, InterruptedRecovery, NewJob, ReportOne, CancelOne, Claim, Progress, Owns;
  }

  lemma SweepLeaseSource(jobs: Jobs, step: Step, id: string)
    requires (step.Sweep? || step.Diagnostic? || step.CancelJob?) && id in NextJobs(jobs, step)
    ensures LeaseSource(jobs, step, id)
  {
    hide OrDefault, InterruptionLine, ExpiredError, InterruptedRecovery, CanceledLine, CanceledRecovery;
    hide NewJob, ReportOne, Claim, Renew, Progress, Owns, Unexpired;
  }

  lemma OtherLeaseSource(jobs: Jobs, step: Step, id: string)
    requires (step.Dispatch? || step.UpdateProgress? || step.UpdateStatus?) && id in NextJobs(jobs, step)
    requires step.Dispatch? ==> step.id !in jobs
    ensures LeaseSource(jobs, step, id)
  {
    hide LogBound.Bound, CleanAll, Reconcile, CancelOne, Claim, Renew, Owns, Unexpired, Holds;
  }

  lemma StepLeaseSource(jobs: Jobs, step: Step, id: string)
    requires id in NextJobs(jobs, step) && (step.Dispatch? ==> step.id !in jobs)
    ensures LeaseSource(jobs, step, id)
  {
    hide NextJobs, LeaseSource;
    if step.Fetch? {
      FetchLeaseSource(jobs, step, id);
    } else if step.RenewLease? {
      RenewLeaseSource(jobs, step, id);
    } else if step.Sweep? || step.Diagnostic? || step.CancelJob? {
      SweepLeaseSource(jobs, step, id);
    } else {
      OtherLeaseSource(jobs, step, id);
    }
  }

  lemma StepInOrder(jobs: Jobs, step: Step, t: int, id: string)
    requires AllInOrder(jobs, t) && ForwardFrom(t, step) && id in NextJobs(jobs, step) && (step.Dispatch? ==> step.id !in jobs)
    ensures LeaseInOrder(NextJobs(jobs, step)[id], LastReading(step))
    ensures t <= LastReading(step)
  {
    hide NextJobs;
    StepLeaseSource(jobs, step, id);
    assert id in jobs ==> LeaseInOrder(jobs[id], t);
  }

  /** With a clock that does not go back, no step moves a running job's expiry back. */
  lemma ExpiryNeverMovesBack(jobs: Jobs, step: Step, t: int, id: string)
    requires AllInOrder(jobs, t) && ForwardFrom(t, step) && (step.Dispatch? ==> step.id !in jobs)
    requires id in jobs && jobs[id].status == InProgress && jobs[id].issued.Some? && jobs[id].expires.Some?
    requires id in NextJobs(jobs, step) && NextJobs(jobs, step)[id].status == InProgress
    ensures NextJobs(jobs, step)[id].expires.Some? && jobs[id].expires.value <= NextJobs(jobs, step)[id].expires.value
  {
    hide NextJobs;
    StepLeaseSource(jobs, step, id);
    assert LeaseInOrder(jobs[id], t);
  }

  /** Whatever the clock does, a running job's expiry changes only by a renewal read before it. */
  lemma ExpiryChangesOnlyBefore(jobs: Jobs, step: Step, id: string)
    requires (step.Dispatch? ==> step.id !in jobs) && id in jobs && jobs[id].status == InProgress && jobs[id].expires.Some?
    requires id in NextJobs(jobs, step) && NextJobs(jobs, step)[id].status == InProgress
    requires NextJobs(jobs, step)[id].expires != jobs[id].expires
    ensures step.RenewLease? && step.id == id && step.check < jobs[id].expires.value && step.now < jobs[id].expires.value
    ensures NextJobs(jobs, step)[id].expires == Some(step.now + LEASE)
  {
    hide NextJobs;
    StepLeaseSource(jobs, step, id);
  }

  /** After a sweep or a fetch nothing that has expired is still running, whatever the clock did before. */
  lemma NothingExpiredAfter(jobs: Jobs, step: Step, id: string)
    requires (step.Fetch? || step.Sweep?) && id in NextJobs(jobs, step)
    ensures !Expired(NextJobs(jobs, step)[id], LastReading(step))
  {
    hide ReconcileOne, ClaimedFrom;
    if step.Fetch? {
      NothingExpired(Reconcile(jobs, step.sweep), step.worker, step.now, LEASE_SECONDS, step.draw);
    } else {
      NothingExpired(jobs, "", step.now, LEASE_SECONDS, (id: string) => id);
    }
  }

  /** The exact condition on the clock for a successful renewal to leave issue before expiry. */
  lemma RenewalOrderIff(j: Job, worker: string, token: Option<string>, now: int)
    requires Holds(j, worker, token, now) && j.issued.Some?
    ensures var r := RenewOne(j, now, LEASE_SECONDS);
            r.issued.value < r.expires.value <==> j.issued.value - LEASE < now
  {
  }

  // Runs

  ghost predicate ForwardRun(t: int, steps: seq<Step>)
    decreases |steps|
  {
    steps != [] ==> ForwardFrom(t, steps[0]) && ForwardRun(LastReading(steps[0]), steps[1..])
  }

  function ClockAfter(t: int, steps: seq<Step>): int
    decreases |steps|
  {
    if steps == [] then t else ClockAfter(LastReading(steps[0]), steps[1..])
  }

  lemma {:induction false} RunInOrder(s: State, steps: seq<Step>, t: int)
    requires s.life.Keys == s.jobs.Keys && LegalRun(s, steps) && AllInOrder(s.jobs, t) && ForwardRun(t, steps)
    ensures AllInOrder(Run(s, steps).jobs, ClockAfter(t, steps))
    decreases |steps|
  {
    hide NextJobs, Observed, LeaseInOrder, LastReading, ForwardFrom;
    assert steps != [] ==> Legal(s, steps[0]);
    if steps != [] {
      var next := Next(s, steps[0]);
      forall id | id in next.jobs
        ensures LeaseInOrder(next.jobs[id], LastReading(steps[0]))
      {
        StepInOrder(s.jobs, steps[0], t, id);
      }
      RunInOrder(next, steps[1..], LastReading(steps[0]));
    }
  }

  /** The lease invariant of every legal run with such a clock, together with the tokens and lives of `JobRuns`. */
  lemma LeaseInvariant(steps: seq<Step>, t: int, id: string)
    requires LegalRun(START, steps) && ForwardRun(t, steps)
    requires id in Run(START, steps).jobs && Run(START, steps).jobs[id].status == InProgress
    ensures var j := Run(START, steps).jobs[id];
            && j.owner == Some(j.worker) && j.token.Some? && j.issued.Some? && j.expires.Some?
            && j.issued.value < j.expires.value <= ClockAfter(t, steps) + LEASE
            && forall other | other in Run(START, steps).jobs && other != id :: Run(START, steps).jobs[other].token != j.token
  {
    hide NextJobs, Observed, Legal;
    RunKeepsInv(START, steps);
    RunInOrder(START, steps, t);
    assert LeaseInOrder(Run(START, steps).jobs[id], ClockAfter(t, steps));
  }

  // The exact condition over runs

  /** Every running job was issued before it expires. */
  ghost predicate IssuedBeforeExpiry(jobs: Jobs) {
    forall id | id in jobs && jobs[id].status == InProgress && jobs[id].issued.Some? && jobs[id].expires.Some? ::
      jobs[id].issued.value < jobs[id].expires.value
  }

  /** Whether the call renews a lease: what the service and then the repository check. */
  predicate Renews(jobs: Jobs, step: Step) {
    && step.RenewLease? && step.id in jobs && Owns(jobs[step.id], step.worker, step.token) && jobs[step.id].status == InProgress
    && Unexpired(jobs[step.id], step.check) && Holds(jobs[step.id], step.worker, step.token, step.now)
  }

  /** A renewal whose clock has not gone back by a whole lease since the job was issued. */
  predicate RenewalInTime(jobs: Jobs, step: Step) {
    Renews(jobs, step) && jobs[step.id].issued.Some? ==> jobs[step.id].issued.value - LEASE < step.now
  }

  /** One call keeps the order exactly when a renewal it makes is in time. */
  lemma StepKeepsOrderIff(jobs: Jobs, step: Step)
    requires IssuedBeforeExpiry(jobs) && (step.Dispatch? ==> step.id !in jobs)
    ensures IssuedBeforeExpiry(NextJobs(jobs, step)) <==> RenewalInTime(jobs, step)
  {
    hide NextJobs, Owns, Unexpired, Holds;
    if Renews(jobs, step) {
      RenewedJobs(jobs, step);
      var next := NextJobs(jobs, step);
      assert next[step.id].status == InProgress && next[step.id].issued == jobs[step.id].issued;
      assert next[step.id].expires == Some(step.now + LEASE);
      assert forall id | id in jobs && id != step.id :: next[id] == jobs[id];
    } else {
      forall id | id in NextJobs(jobs, step)
        ensures var j := NextJobs(jobs, step)[id];
                j.status == InProgress && j.issued.Some? && j.expires.Some? ==> j.issued.value < j.expires.value
      {
        NotRenewedSource(jobs, step, id);
      }
    }
  }

  lemma RenewedJobs(jobs: Jobs, step: Step)
    requires Renews(jobs, step)
    ensures NextJobs(jobs, step) == jobs[step.id := RenewOne(jobs[step.id], step.now, LEASE_SECONDS)]
  {
    hide Reconcile, Claim, Progress, ReportOne, CancelOne;
  }

  /** A running job after a call that is no renewal has the lease it had or a new one. */
  lemma NotRenewedSource(jobs: Jobs, step: Step, id: string)
    requires !Renews(jobs, step) && id in NextJobs(jobs, step) && (step.Dispatch? ==> step.id !in jobs)
    ensures var j := NextJobs(jobs, step)[id];
            j.status == InProgress ==>
              || (id in jobs && jobs[id].status == InProgress && j.issued == jobs[id].issued && j.expires == jobs[id].expires)
              || (step.Fetch? && j.issued == Some(step.now) && j.expires == Some(step.now + LEASE))
  {
    if step.RenewLease? {
      NoRenewalSource(jobs, step, id);
    } else {
      hide NextJobs;
      StepLeaseSource(jobs, step, id);
    }
  }

  lemma NoRenewalSource(jobs: Jobs, step: Step, id: string)
    requires step.RenewLease? && !Renews(jobs, step) && id in NextJobs(jobs, step)
    ensures id in jobs
    ensures NextJobs(jobs, step)[id].status == InProgress ==> NextJobs(jobs, step)[id] == jobs[id]
  {
    hide Claim, Progress, ReportOne, CancelOne, NewJob, OrDefault, InterruptionLine, ExpiredError, InterruptedRecovery;
  }

  ghost predicate AlwaysInOrder(s: State, steps: seq<Step>)
    requires s.life.Keys == s.jobs.Keys
    decreases |steps|
  {
    hide Next;
    IssuedBeforeExpiry(s.jobs) && (steps != [] ==> AlwaysInOrder(Next(s, steps[0]), steps[1..]))
  }

  ghost predicate RenewalsInTime(s: State, steps: seq<Step>)
    requires s.life.Keys == s.jobs.Keys
    decreases |steps|
  {
    hide Next, RenewalInTime;
    steps != [] ==> RenewalInTime(s.jobs, steps[0]) && RenewalsInTime(Next(s, steps[0]), steps[1..])
  }

  /** In a legal run every running job is always issued before it expires, exactly when no renewal that succeeds reads a clock
      that has gone back by a whole lease since the job was handed out. */
  lemma {:induction false} AlwaysInOrderIff(s: State, steps: seq<Step>)
    requires s.life.Keys == s.jobs.Keys && LegalRun(s, steps) && IssuedBeforeExpiry(s.jobs)
    ensures AlwaysInOrder(s, steps) <==> RenewalsInTime(s, steps)
    decreases |steps|
  {
    hide NextJobs, Observed, IssuedBeforeExpiry, RenewalInTime;
    assert steps != [] ==> Legal(s, steps[0]);
    if steps != [] {
      var next := Next(s, steps[0]);
      assert next.jobs == NextJobs(s.jobs, steps[0]);
      StepKeepsOrderIff(s.jobs, steps[0]);
      if IssuedBeforeExpiry(next.jobs) {
        AlwaysInOrderIff(next, steps[1..]);
      } else {
        assert !AlwaysInOrder(next, steps[1..]);
      }
    }
  }

  /** A job is dispatched and fetched, and renewed by a clock set back by one lease. */
  function BackwardRun(t: int): seq<Step> {
    [Dispatch("a", "w", "backup.run", None, "api", t), Fetch("w", t, t, (id: string) => "k"),
     RenewLease("w", "a", Some("k"), t - LEASE, t - LEASE, t - LEASE)]
  }

  function Fetched(t: int): Job {
    ClaimOne(NewJob("w", "backup.run", None, "api", t), "w", "k", t, LEASE_SECONDS)
  }

  lemma DispatchAlone(t: int)
    ensures var s := Next(START, BackwardRun(t)[0]);
            s.jobs == map["a" := NewJob("w", "backup.run", None, "api", t)] && s.tokens == {}
  {
    hide Observed, NewJob;
  }

  lemma NewIsClaimed(t: int)
    ensures var j := NewJob("w", "backup.run", None, "api", t);
            ReconcileOne(j, t) == j && ClaimedFrom(j, "w", "k", t, LEASE_SECONDS) == Fetched(t)
  {
    hide ClaimOne;
  }

  lemma FetchAlone(s: State, t: int)
    requires s.jobs == map["a" := NewJob("w", "backup.run", None, "api", t)] && s.tokens == {} && s.life.Keys == s.jobs.Keys
    ensures Legal(s, BackwardRun(t)[1]) && NextJobs(s.jobs, BackwardRun(t)[1]) == map["a" := Fetched(t)]
  {
    hide ClaimOne, Interrupt, NewJob, ReportOne, CancelOne, Renew, Progress, Owns, Unexpired, Holds;
    NewIsClaimed(t);
    var step := BackwardRun(t)[1];
    var next := NextJobs(s.jobs, step);
    assert next.Keys == {"a"};
    assert next["a"] == Fetched(t);
  }

  lemma DispatchIsLegal(t: int)
    ensures Legal(START, BackwardRun(t)[0])
  {
  }

  lemma BackwardRenewal(t: int)
    ensures Renews(map["a" := Fetched(t)], BackwardRun(t)[2]) && !RenewalInTime(map["a" := Fetched(t)], BackwardRun(t)[2])
    ensures !LeaseInOrder(RenewOne(Fetched(t), t - LEASE, LEASE_SECONDS), t)
  {
  }

  lemma FirstOf(s: State, steps: seq<Step>)
    requires s.life.Keys == s.jobs.Keys && steps != []
    ensures Run(s, steps) == Run(Next(s, steps[0]), steps[1..])
    ensures LegalRun(s, steps) <==> Legal(s, steps[0]) && LegalRun(Next(s, steps[0]), steps[1..])
    ensures RenewalsInTime(s, steps) <==> RenewalInTime(s.jobs, steps[0]) && RenewalsInTime(Next(s, steps[0]), steps[1..])
  {
    hide NextJobs, Observed, Legal, RenewalInTime, Next;
  }

  lemma NoSteps(s: State)
    requires s.life.Keys == s.jobs.Keys
    ensures Run(s, []) == s && LegalRun(s, [])
  {
  }

  lemma ThreeSteps(s: State, a: Step, b: Step, c: Step)
    requires s.life.Keys == s.jobs.Keys && Legal(s, a) && Legal(Next(s, a), b) && Legal(Next(Next(s, a), b), c)
    ensures LegalRun(s, [a, b, c]) && Run(s, [a, b, c]) == Next(Next(Next(s, a), b), c)
    ensures RenewalsInTime(s, [a, b, c]) ==> RenewalInTime(Next(Next(s, a), b).jobs, c)
  {
    hide NextJobs, Observed, Legal, RenewalInTime, Next, Run, LegalRun, RenewalsInTime;
    var s1, s2 := Next(s, a), Next(Next(s, a), b);
    assert [a, b, c][1..] == [b, c] && [b, c][1..] == [c] && [c][1..] == [];
    FirstOf(s, [a, b, c]);
    FirstOf(s1, [b, c]);
    FirstOf(s2, [c]);
    NoSteps(Next(s2, c));
  }

  /** A legal run from the start in which a clock set back by one lease lets a renewal succeed and the lease end when it
      began. */
  lemma BackwardClockBreaksOrder(t: int)
    ensures LegalRun(START, BackwardRun(t)) && !AlwaysInOrder(START, BackwardRun(t))
    ensures Run(START, BackwardRun(t)).jobs == map["a" := RenewOne(Fetched(t), t - LEASE, LEASE_SECONDS)]
  {
    hide NextJobs, Observed, Legal, Fetched, RenewalInTime, Renews, RenewOne, IssuedBeforeExpiry, LegalRun, Run, RenewalsInTime, NewJob;
    var run := BackwardRun(t);
    DispatchIsLegal(t);
    DispatchAlone(t);
    var s1 := Next(START, run[0]);
    FetchAlone(s1, t);
    var s2 := Next(s1, run[1]);
    assert s2.jobs == map["a" := Fetched(t)];
    BackwardRenewal(t);
    RenewIsLegal(s2, run[2]);
    RenewedJobs(s2.jobs, run[2]);
    assert s2.jobs["a" := RenewOne(Fetched(t), t - LEASE, LEASE_SECONDS)] == map["a" := RenewOne(Fetched(t), t - LEASE, LEASE_SECONDS)];
    ThreeSteps(START, run[0], run[1], run[2]);
    assert [run[0], run[1], run[2]] == run;
    NothingRunning();
    AlwaysInOrderIff(START, run);
  }

  lemma RenewIsLegal(s: State, step: Step)
    requires step.RenewLease?
    ensures Legal(s, step)
  {
  }

  lemma NothingRunning()
    ensures IssuedBeforeExpiry(START.jobs)
  {
  }

  /** A running job of an invariant state is running or finished after a call. */
  lemma NeverPendingAgain(s: State, step: Step, id: string)
    requires Inv(s) && Legal(s, step) && id in s.jobs && s.jobs[id].status != Pending
    ensures id in Next(s, step).jobs && Next(s, step).jobs[id].status != Pending
  {
    hide NextJobs, Observed, TokensDistinct, Legal;
    StepKeepsInv(s, step);
    DomainGrows(s.jobs, step);
    var next := Next(s, step);
    assert LifeFits(s.jobs[id], s.life[id]) && LifeFits(next.jobs[id], next.life[id]);
    assert next.life[id] == s.life[id] + Observed(s.jobs, id, step);
  }

  /** Over every run with a forward clock, the expiry of a job that is still running at the end has not moved back. */
  lemma {:induction false} ExpiryNeverMovesBackOverRuns(s: State, steps: seq<Step>, t: int, id: string)
    requires Inv(s) && LegalRun(s, steps) && AllInOrder(s.jobs, t) && ForwardRun(t, steps)
    requires id in s.jobs && s.jobs[id].status == InProgress
    requires id in Run(s, steps).jobs && Run(s, steps).jobs[id].status == InProgress
    ensures s.jobs[id].expires.Some? && Run(s, steps).jobs[id].expires.Some?
    ensures s.jobs[id].expires.value <= Run(s, steps).jobs[id].expires.value
    decreases |steps|
  {
    hide NextJobs, Observed, AllInOrder, LastReading, ForwardFrom, Inv;
    RunningIsLeased(s, id);
    if steps != [] {
      assert Legal(s, steps[0]);
      var next := Next(s, steps[0]);
      assert next.jobs == NextJobs(s.jobs, steps[0]);
      StepKeepsInv(s, steps[0]);
      NeverPendingAgain(s, steps[0], id);
      if Terminal(next.jobs[id].status) {
        TerminalForever(next, steps[1..], id);
      }
      RunningIsLeased(next, id);
      DispatchIsNew(s, steps[0]);
      ExpiryNeverMovesBack(s.jobs, steps[0], t, id);
      OrderAfterStep(s, steps[0], t);
      ExpiryNeverMovesBackOverRuns(next, steps[1..], LastReading(steps[0]), id);
    }
  }

  lemma RunningIsLeased(s: State, id: string)
    requires Inv(s) && id in s.jobs && s.jobs[id].status == InProgress
    ensures s.jobs[id].issued.Some? && s.jobs[id].expires.Some? && s.life.Keys == s.jobs.Keys
  {
    hide TokensDistinct;
    assert LifeFits(s.jobs[id], s.life[id]);
  }

  lemma OrderAfterStep(s: State, step: Step, t: int)
    requires s.life.Keys == s.jobs.Keys && Legal(s, step) && AllInOrder(s.jobs, t) && ForwardFrom(t, step)
    ensures AllInOrder(Next(s, step).jobs, LastReading(step))
  {
    hide NextJobs, Observed, LeaseInOrder, LastReading, ForwardFrom;
    DispatchIsNew(s, step);
    var next := Next(s, step);
    forall id | id in next.jobs
      ensures LeaseInOrder(next.jobs[id], LastReading(step))
    {
      StepInOrder(s.jobs, step, t, id);
    }
  }
}
