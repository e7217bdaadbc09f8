/** The control plane's job operations as steps, and what every run of them keeps. */
module JobRuns {
  import opened Text
  import opened LogBound
  import opened JobSpec

  /** What happened to one job, in order. */
  datatype Event =
    | Handed(worker: string, token: string, at: int)
    | Finished(reporter: string, used: string, status: Status, at: int, before: int)
    | Stopped(at: int)
    | Lapsed(at: int, since: int)

  /** One service call; a call that reads the clock more than once carries each reading.
      Redaction of log lines and the random tokens are parameters. */
  datatype Step =
    | Dispatch(id: string, worker: string, command: string, target: Option<string>, requestedBy: string, now: int)
    | Fetch(worker: string, sweep: int, now: int, draw: string -> string)
    | RenewLease(worker: string, id: string, token: Option<string>, check: int, now: int, sweep: int)
    | Diagnostic(worker: string, id: string, token: Option<string>, now: int, sweep: int)
    | UpdateProgress(worker: string, id: string, token: Option<string>, sequence: int, progress: string, lines: seq<string>,
                     context: bool, check: int, now: int)
    | UpdateStatus(worker: string, id: string, token: Option<string>, status: Status, summary: Option<Summary>,
                   lines: seq<string>, clean: string -> string, check: int, now: int, end: int)
    | CancelJob(id: string, sweep: int, now: int, end: int)
    | Sweep(now: int)

  /** `tokens` holds every token ever drawn; `life` what happened to each job. */
  datatype State = State(jobs: Jobs, life: map<string, seq<Event>>, tokens: set<string>)

  const START := State(map[], map[], {})

  const MAX_SEQUENCE := 1_000_000_000

  function NewJob(worker: string, command: string, target: Option<string>, requestedBy: string, now: int): Job {
    Job(worker, command, target, requestedBy, Pending, None, None, None, None, 0, EMPTY_SUMMARY, [], now, None, None, now)
  }

  /** Owner and token as the service compares them: the token must be text. */
  predicate Owns(j: Job, worker: string, token: Option<string>) {
    j.owner == Some(worker) && token.Some? && OrEmpty(j.token) == token.value
  }

  predicate Unexpired(j: Job, now: int) {
    j.expires.Some? && now < j.expires.value
  }

  function CleanAll(lines: seq<string>, clean: string -> string): (r: seq<string>)
    ensures |r| == |lines|
  {
    if lines == [] then [] else [clean(lines[0])] + CleanAll(lines[1..], clean)
  }

  /** `update_job_status` accepts a report. */
  predicate ReportAccepted(j: Job, worker: string, token: Option<string>, status: Status, now: int) {
    Owns(j, worker, token) && j.status == InProgress && Unexpired(j, now) && (status == Succeeded || status == Failed)
  }

  function ReportOne(j: Job, status: Status, summary: Option<Summary>, lines: seq<string>, clean: string -> string, now: int, end: int): Job {
    j.(status := status, updated := now, finished := Some(end),
       summary := if summary.Some? then summary.value else j.summary,
       log := Bound(CleanAll(j.log + lines, clean)))
  }

  function CanceledLine(): string {
    "Job canceled by operator before terminal worker completion."
  }

  function CanceledRecovery(): string {
    "operator_canceled"
  }

  function CancelOne(j: Job, now: int, end: int): Job {
    j.(status := Canceled, updated := now, finished := if j.finished.Some? then j.finished else Some(end),
       summary := j.summary.(recovery := OrDefault(j.summary.recovery, CanceledRecovery()), error := OrDefault(j.summary.error, "job canceled")),
       log := if j.log == [] then [CanceledLine()] else j.log)
  }

  predicate Cancelable(j: Job) {
    j.status == Pending || j.status == InProgress
  }

  // One job under one step

  function LapseEvents(j: Job, now: int): seq<Event> {
    if Expired(j, now) then [Lapsed(now, j.expires.value)] else []
  }

  /** The job map after a step. A call that its checks refuse leaves it alone, apart from sweeping where the service sweeps; a
      report that raises after them is not a step. */
  function NextJobs(jobs: Jobs, step: Step): Jobs {
    hide NewJob, Owns, Unexpired, Holds, Reconcile, Claim, Renew, Progress, ReportAccepted, ReportOne, Cancelable, CancelOne;
    match step
    case Dispatch(id, worker, command, target, requestedBy, now) => jobs[id := NewJob(worker, command, target, requestedBy, now)]
    case Fetch(worker, sweep, now, draw) => Claim(Reconcile(jobs, sweep), worker, now, LEASE_SECONDS, draw)
    case RenewLease(worker, id, token, check, now, sweep) =>
      if !(id in jobs && Owns(jobs[id], worker, token) && jobs[id].status == InProgress && Unexpired(jobs[id], check)) then jobs
      else if Holds(jobs[id], worker, token, now) then Renew(jobs, id, worker, token, now, LEASE_SECONDS)
      else Reconcile(jobs, sweep)
    case Diagnostic(worker, id, token, now, sweep) =>
      if !(id in jobs && Owns(jobs[id], worker, token) && jobs[id].status == InProgress) then jobs
      else if Unexpired(jobs[id], now) then jobs[id := jobs[id].(updated := now)]
      else Reconcile(jobs, sweep)
    case UpdateProgress(worker, id, token, sequence, progress, lines, context, check, now) =>
      if !(id in jobs && Owns(jobs[id], worker, token) && Unexpired(jobs[id], check)) then jobs
      else if !(0 < sequence <= MAX_SEQUENCE) || jobs[id].status != InProgress then jobs
      else Progress(if context then jobs[id := jobs[id].(updated := check)] else jobs, id, worker, token, sequence, progress, lines, now)
    case UpdateStatus(worker, id, token, status, summary, lines, clean, check, now, end) =>
      if id in jobs && ReportAccepted(jobs[id], worker, token, status, check)
      then jobs[id := ReportOne(jobs[id], status, summary, lines, clean, now, end)] else jobs
    case CancelJob(id, sweep, now, end) =>
      var swept := Reconcile(jobs, sweep);
      if id in swept && Cancelable(swept[id]) then swept[id := CancelOne(swept[id], now, end)] else swept
    case Sweep(now) => Reconcile(jobs, now)
  }

  /** What the callers of a step observe about job `id`, which is `j` before the step. */
  function Observed(jobs: Jobs, id: string, step: Step): seq<Event>
    requires id in jobs
  {
    hide Holds, ReconcileOne, Claimable, Cancelable, LapseEvents;
    var j := jobs[id];
    match step
    case Dispatch(_, _, _, _, _, _) => []
    case Fetch(worker, sweep, now, draw) =>
      var j1 := ReconcileOne(j, sweep);
      LapseEvents(j, sweep) + LapseEvents(j1, now)
      + if Claimable(ReconcileOne(j1, now), worker) then [Handed(worker, draw(id), now)] else []
    case RenewLease(worker, rid, token, check, now, sweep) =>
      if rid in jobs && Owns(jobs[rid], worker, token) && jobs[rid].status == InProgress && Unexpired(jobs[rid], check)
         && !Holds(jobs[rid], worker, token, now)
      then LapseEvents(j, sweep) else []
    case Diagnostic(worker, rid, token, now, sweep) =>
      if rid in jobs && Owns(jobs[rid], worker, token) && jobs[rid].status == InProgress && !Unexpired(jobs[rid], now)
      then LapseEvents(j, sweep) else []
    case UpdateProgress(_, _, _, _, _, _, _, _, _) => []
    case UpdateStatus(worker, rid, token, status, _, _, _, check, _, _) =>
      if rid == id && ReportAccepted(j, worker, token, status, check)
      then [Finished(worker, token.value, status, check, j.expires.value)] else []
    case CancelJob(rid, sweep, now, _) =>
      LapseEvents(j, sweep) + if rid == id && Cancelable(ReconcileOne(j, sweep)) then [Stopped(now)] else []
    case Sweep(now) => LapseEvents(j, now)
  }

  function Drawn(jobs: Jobs, step: Step): set<string> {
    if step.Fetch? then set id | id in jobs :: step.draw(id) else {}
  }

  function Next(s: State, step: Step): (next: State)
    requires s.life.Keys == s.jobs.Keys
    ensures next.life.Keys == next.jobs.Keys && next.jobs == NextJobs(s.jobs, step)
  {
    hide NextJobs, Observed;
    var jobs := NextJobs(s.jobs, step);
    State(jobs,
          map id | id in jobs :: if id in s.jobs then s.life[id] + Observed(s.jobs, id, step) else [],
          s.tokens + Drawn(s.jobs, step))
  }

  /** Ids and tokens are random: new jobs have new ids, and a fetch draws new, distinct, non-empty tokens. */
  ghost predicate Legal(s: State, step: Step) {
    match step
    case Dispatch(id, _, _, _, _, _) => id !in s.jobs
    case Fetch(_, _, _, draw) =>
      && (forall id | id in s.jobs :: draw(id) !in s.tokens && draw(id) != "")
      && (forall a, b | a in s.jobs && b in s.jobs && a != b :: draw(a) != draw(b))
    case _ => true
  }

  /** The only lives a job can have had, given its status. */
  ghost predicate LifeFits(j: Job, life: seq<Event>) {
    match j.status
    case Pending => life == [] && j.attempts == 0 && j.owner.None? && j.token.None? && j.expires.None?
    case InProgress => |life| == 1 && HandedTo(j, life[0])
    case Succeeded => |life| == 2 && HandedTo(j, life[0]) && AcceptedAs(j, life[1])
    case Failed =>
      |life| == 2 && life[0].Handed? && life[0].worker == j.worker && j.attempts == 1
      && ((HandedTo(j, life[0]) && AcceptedAs(j, life[1])) || (life[1].Lapsed? && life[1].since <= life[1].at && j.owner.None? && j.token.None?))
    case Canceled =>
      || (life != [] && life[0].Stopped? && |life| == 1 && j.attempts == 0 && j.token.None?)
      || (|life| == 2 && HandedTo(j, life[0]) && life[1].Stopped?)
  }

  /** The claim went to the job's own worker, once, with the token the job still carries. */
  ghost predicate HandedTo(j: Job, e: Event) {
    && e.Handed? && e.worker == j.worker && j.owner == Some(j.worker) && j.token == Some(e.token) && e.token != ""
    && j.issued == Some(e.at) && j.expires.Some? && j.attempts == 1
  }

  /** The report came from that worker with that token, before expiry. */
  ghost predicate AcceptedAs(j: Job, e: Event) {
    e.Finished? && j.owner == Some(e.reporter) && j.token == Some(e.used) && e.status == j.status && e.at < e.before
  }

  ghost predicate TokensDistinct(s: State) {
    && (forall id | id in s.jobs && s.jobs[id].token.Some? :: s.jobs[id].token.value in s.tokens)
    && (forall a, b | a in s.jobs && b in s.jobs && a != b && s.jobs[a].token.Some? && s.jobs[b].token.Some? ::
          s.jobs[a].token.value != s.jobs[b].token.value)
  }

  ghost predicate Inv(s: State) {
    && s.life.Keys == s.jobs.Keys
    && (forall id | id in s.jobs :: LifeFits(s.jobs[id], s.life[id]))
    && TokensDistinct(s)
  }

  // One step keeps the invariant, job by job

  lemma LapseKeepsLife(j: Job, life: seq<Event>, now: int)
    requires LifeFits(j, life)
    ensures LifeFits(ReconcileOne(j, now), life + LapseEvents(j, now))
  {
    if !Expired(j, now) {
      assert life + [] == life;
    }
  }

  /** Steps that touch one record without ending it keep its lease identity. */
  predicate SameIdentity(a: Job, b: Job) {
    a.status == b.status && a.worker == b.worker && a.owner == b.owner && a.token == b.token && a.issued == b.issued
    && a.attempts == b.attempts && (a.expires.Some? <==> b.expires.Some?)
  }

  lemma IdentityKeepsLife(a: Job, b: Job, life: seq<Event>)
    requires LifeFits(a, life) && SameIdentity(a, b)
    ensures LifeFits(b, life)
  {
  }

  lemma FetchKeepsLife(j: Job, life: seq<Event>, worker: string, token: string, sweep: int, now: int)
    requires LifeFits(j, life) && token != ""
    ensures var j1 := ReconcileOne(j, sweep); var j2 := ReconcileOne(j1, now);
            var ended := life + LapseEvents(j, sweep) + LapseEvents(j1, now);
            if Claimable(j2, worker) then LifeFits(ClaimOne(j2, worker, token, now, LEASE_SECONDS), ended + [Handed(worker, token, now)])
            else LifeFits(j2, ended)
  {
    hide Interrupt;
    LapseKeepsLife(j, life, sweep);
    LapseKeepsLife(ReconcileOne(j, sweep), life + LapseEvents(j, sweep), now);
  }

  lemma ReportKeepsLife(j: Job, life: seq<Event>, worker: string, token: Option<string>, status: Status, summary: Option<Summary>,
                        lines: seq<string>, clean: string -> string, check: int, now: int, end: int)
    requires LifeFits(j, life) && ReportAccepted(j, worker, token, status, check)
    ensures LifeFits(ReportOne(j, status, summary, lines, clean, now, end),
                     life + [Finished(worker, token.value, status, check, j.expires.value)])
  {
    hide Bound, CleanAll;
  }

  lemma CancelKeepsLife(j: Job, life: seq<Event>, now: int, end: int)
    requires LifeFits(j, life) && Cancelable(j)
    ensures LifeFits(CancelOne(j, now, end), life + [Stopped(now)])
  {
  }

  lemma ProgressSameIdentity(jobs: Jobs, id: string, worker: string, token: Option<string>, sequence: int, progress: string,
                             lines: seq<string>, context: bool, check: int, now: int, k: string)
    requires id in jobs && k in jobs
    ensures SameIdentity(jobs[k], Progress(if context then jobs[id := jobs[id].(updated := check)] else jobs,
                                           id, worker, token, sequence, progress, lines, now)[k])
  {
    hide Bound;
  }

  ghost predicate StepFits(s: State, step: Step, id: string)
    requires id in s.jobs && s.life.Keys == s.jobs.Keys
  {
    id in NextJobs(s.jobs, step) && LifeFits(NextJobs(s.jobs, step)[id], s.life[id] + Observed(s.jobs, id, step))
  }

  lemma FetchFits(s: State, step: Step, id: string)
    requires Inv(s) && Legal(s, step) && id in s.jobs && step.Fetch?
    ensures StepFits(s, step, id)
  {
    hide LifeFits, ReconcileOne, ClaimOne, Claimable, LapseEvents, Owns, Unexpired, Holds, ReportOne, CancelOne, NewJob, Renew, Progress, TokensDistinct;
    var j, life := s.jobs[id], s.life[id];
    var token := step.draw(id);
    FetchKeepsLife(j, life, step.worker, token, step.sweep, step.now);
    var j1 := ReconcileOne(j, step.sweep);
    var j2 := ReconcileOne(j1, step.now);
    var a, b := LapseEvents(j, step.sweep), LapseEvents(j1, step.now);
    var handed := if Claimable(j2, step.worker) then [Handed(step.worker, token, step.now)] else [];
    assert Observed(s.jobs, id, step) == a + b + handed;
    assert life + (a + b + handed) == life + a + b + handed;
    assert life + a + b + [] == life + a + b;
    assert NextJobs(s.jobs, step)[id]
      == if Claimable(j2, step.worker) then ClaimOne(j2, step.worker, token, step.now, LEASE_SECONDS) else j2;
  }

  lemma RenewFits(s: State, step: Step, id: string)
    requires Inv(s) && id in s.jobs && step.RenewLease?
    ensures StepFits(s, step, id)
  {
    hide LifeFits, ReconcileOne, SameIdentity, RenewOne, LapseEvents, Owns, ReportOne, CancelOne, NewJob, Claim, Progress, TokensDistinct;
    var j, life := s.jobs[id], s.life[id];
    assert life + [] == life;
    LapseKeepsLife(j, life, step.sweep);
    RenewSameIdentity(j, step.now);
    if j.expires.Some? {
      IdentityKeepsLife(j, RenewOne(j, step.now, LEASE_SECONDS), life);
    }
  }

  lemma DiagnosticFits(s: State, step: Step, id: string)
    requires Inv(s) && id in s.jobs && step.Diagnostic?
    ensures StepFits(s, step, id)
  {
    hide LifeFits, ReconcileOne, SameIdentity, LapseEvents, Owns, Unexpired, Holds, ReportOne, CancelOne, NewJob, Claim, Renew, Progress, TokensDistinct;
    var j, life := s.jobs[id], s.life[id];
    assert life + [] == life;
    LapseKeepsLife(j, life, step.sweep);
    TouchSameIdentity(j, step.now);
    IdentityKeepsLife(j, j.(updated := step.now), life);
  }

  lemma ProgressFits(s: State, step: Step, id: string)
    requires Inv(s) && id in s.jobs && step.UpdateProgress?
    ensures StepFits(s, step, id)
  {
    hide LifeFits, SameIdentity, Progress, Interrupt, CancelOne, Claim;
    var life := s.life[id];
    assert life + [] == life;
    if step.id in s.jobs {
      var touched := if step.context then s.jobs[step.id := s.jobs[step.id].(updated := step.check)] else s.jobs;
      ProgressSameIdentity(s.jobs, step.id, step.worker, step.token, step.sequence, step.progress, step.lines, step.context,
                           step.check, step.now, id);
      IdentityKeepsLife(s.jobs[id], Progress(touched, step.id, step.worker, step.token, step.sequence, step.progress, step.lines,
                                             step.now)[id], life);
    }
  }

  lemma StatusFits(s: State, step: Step, id: string)
    requires Inv(s) && id in s.jobs && step.UpdateStatus?
    ensures StepFits(s, step, id)
  {
    hide LifeFits, ReportOne, ReportAccepted, Interrupt, CancelOne, Claim;
    var j, life := s.jobs[id], s.life[id];
    assert life + [] == life;
    if step.id == id && ReportAccepted(j, step.worker, step.token, step.status, step.check) {
      ReportKeepsLife(j, life, step.worker, step.token, step.status, step.summary, step.lines, step.clean, step.check, step.now, step.end);
    }
  }

  lemma CancelFits(s: State, step: Step, id: string)
    requires Inv(s) && id in s.jobs && step.CancelJob?
    ensures StepFits(s, step, id)
  {
    hide LifeFits, ReconcileOne, CancelOne, LapseEvents;
    var j, life := s.jobs[id], s.life[id];
    LapseKeepsLife(j, life, step.sweep);
    var life1 := life + LapseEvents(j, step.sweep);
    assert life1 + [] == life1 && LapseEvents(j, step.sweep) + [] == LapseEvents(j, step.sweep);
    assert life + (LapseEvents(j, step.sweep) + [Stopped(step.now)]) == life1 + [Stopped(step.now)];
    if step.id == id && Cancelable(ReconcileOne(j, step.sweep)) {
      CancelKeepsLife(ReconcileOne(j, step.sweep), life1, step.now, step.end);
    }
  }

  lemma StepKeepsLife(s: State, step: Step, id: string)
    requires Inv(s) && Legal(s, step) && id in s.jobs
    ensures StepFits(s, step, id)
  {
    hide LifeFits, NextJobs, Observed, StepFits;
    match step
    case Dispatch(_, _, _, _, _, _) => DispatchFits(s, step, id);
    case Fetch(_, _, _, _) => FetchFits(s, step, id);
    case RenewLease(_, _, _, _, _, _) => RenewFits(s, step, id);
    case Diagnostic(_, _, _, _, _) => DiagnosticFits(s, step, id);
    case UpdateProgress(_, _, _, _, _, _, _, _, _) => ProgressFits(s, step, id);
    case UpdateStatus(_, _, _, _, _, _, _, _, _, _) => StatusFits(s, step, id);
    case CancelJob(_, _, _, _) => CancelFits(s, step, id);
    case Sweep(_) => SweepFits(s, step, id);
  }

  lemma DispatchFits(s: State, step: Step, id: string)
    requires Inv(s) && Legal(s, step) && id in s.jobs && step.Dispatch?
    ensures StepFits(s, step, id)
  {
    hide LifeFits, ReconcileOne, Owns, Unexpired, Holds, ReportOne, CancelOne, NewJob, Claim, Renew, Progress, TokensDistinct;
    assert s.life[id] + [] == s.life[id];
  }

  lemma SweepFits(s: State, step: Step, id: string)
    requires Inv(s) && id in s.jobs && step.Sweep?
    ensures StepFits(s, step, id)
  {
    hide LifeFits, ReconcileOne, LapseEvents, Owns, Unexpired, Holds, ReportOne, CancelOne, NewJob, Claim, Renew, Progress, TokensDistinct;
    LapseKeepsLife(s.jobs[id], s.life[id], step.now);
  }

  lemma RenewSameIdentity(j: Job, now: int)
    ensures j.expires.Some? ==> SameIdentity(j, RenewOne(j, now, LEASE_SECONDS))
  {
  }

  lemma TouchSameIdentity(j: Job, now: int)
    ensures SameIdentity(j, j.(updated := now))
  {
  }

  lemma ReconcileToken(j: Job, now: int)
    ensures ReconcileOne(j, now).token.None? || ReconcileOne(j, now).token == j.token
  {
    hide OrDefault, InterruptionLine, ExpiredError, InterruptedRecovery;
  }

  /** A call other than a fetch leaves a job's token or clears it; a fetch may also set the one it drew. */
  lemma TokenOrigin(s: State, step: Step, id: string)
    requires id in s.jobs && Legal(s, step)
    ensures id in NextJobs(s.jobs, step)
    ensures var token := NextJobs(s.jobs, step)[id].token;
            token.None? || token == s.jobs[id].token || (step.Fetch? && token == Some(step.draw(id)))
  {
    hide ReconcileOne, Bound, CleanAll, OrDefault, CanceledLine, CanceledRecovery, NewJob, Holds, Unexpired, ReportAccepted, Cancelable, Claimable;
    var j := s.jobs[id];
    match step
    case Dispatch(_, _, _, _, _, _) =>
    case Fetch(_, sweep, now, _) =>
      ReconcileToken(j, sweep);
      ReconcileToken(ReconcileOne(j, sweep), now);
    case RenewLease(_, _, _, _, _, sweep) => ReconcileToken(j, sweep);
    case Diagnostic(_, _, _, _, sweep) => ReconcileToken(j, sweep);
    case UpdateProgress(_, _, _, _, _, _, _, _, _) =>
    case UpdateStatus(_, _, _, _, _, _, _, _, _, _) =>
    case CancelJob(_, sweep, _, _) => ReconcileToken(j, sweep);
    case Sweep(now) => ReconcileToken(j, now);
  }

  lemma StepKeepsTokens(s: State, step: Step)
    requires Inv(s) && Legal(s, step)
    ensures TokensDistinct(Next(s, step))
  {
    hide NextJobs, LifeFits, Observed, NewJob;
    var jobs := NextJobs(s.jobs, step);
    var tokens := Next(s, step).tokens;
    DomainGrows(s.jobs, step);
    forall id | id in jobs && jobs[id].token.Some?
      ensures jobs[id].token.value in tokens && id in s.jobs
      ensures jobs[id].token == s.jobs[id].token || (step.Fetch? && jobs[id].token == Some(step.draw(id)))
    {
      if id in s.jobs {
        TokenOrigin(s, step, id);
      }
    }
  }

  lemma DomainGrows(jobs: Jobs, step: Step)
    ensures forall id | id in jobs :: id in NextJobs(jobs, step)
    ensures forall id | id in NextJobs(jobs, step) && id !in jobs :: step.Dispatch? && step.id == id
    ensures step.Dispatch? && step.id !in jobs ==>
      NextJobs(jobs, step)[step.id] == NewJob(step.worker, step.command, step.target, step.requestedBy, step.now)
      && NextJobs(jobs, step)[step.id].token.None? && LifeFits(NextJobs(jobs, step)[step.id], [])
  {
    hide Bound, CleanAll, Interrupt, OrDefault, CanceledLine, CanceledRecovery;
  }

  lemma StepKeepsInv(s: State, step: Step)
    requires Inv(s) && Legal(s, step)
    ensures Inv(Next(s, step))
  {
    hide NextJobs, Observed, LifeFits, TokensDistinct, NewJob, Legal;
    DomainGrows(s.jobs, step);
    StepKeepsTokens(s, step);
    forall id | id in s.jobs
      ensures StepFits(s, step, id)
    {
      StepKeepsLife(s, step, id);
    }
    DispatchIsNew(s, step);
  }

  lemma DispatchIsNew(s: State, step: Step)
    requires Legal(s, step)
    ensures step.Dispatch? ==> step.id !in s.jobs
  {
  }

  // Runs

  ghost predicate LegalRun(s: State, steps: seq<Step>)
    requires s.life.Keys == s.jobs.Keys
    decreases |steps|
  {
    hide Legal, Next;
    steps != [] ==> Legal(s, steps[0]) && LegalRun(Next(s, steps[0]), steps[1..])
  }

  function Run(s: State, steps: seq<Step>): (end: State)
    requires s.life.Keys == s.jobs.Keys
    ensures end.life.Keys == end.jobs.Keys
    decreases |steps|
  {
    hide Next;
    if steps == [] then s else Run(Next(s, steps[0]), steps[1..])
  }

  lemma InvNamesAll(s: State)
    requires Inv(s)
    ensures s.life.Keys == s.jobs.Keys
  {
  }

  /** Over every run, every job has one of the lives of `LifeFits`, and no two jobs ever carry one token. */
  lemma {:induction false} RunKeepsInv(s: State, steps: seq<Step>)
    requires Inv(s) && LegalRun(s, steps)
    ensures Inv(Run(s, steps))
    decreases |steps|
  {
    hide Inv, NextJobs, Observed, Legal;
    InvNamesAll(s);
    if steps != [] {
      assert Legal(s, steps[0]);
      StepKeepsInv(s, steps[0]);
      RunKeepsInv(Next(s, steps[0]), steps[1..]);
    }
  }

  /** In every run all running jobs are leased, so the guarded repository behaves as the plain one. */
  lemma RunsStayLeased(steps: seq<Step>, id: string)
    requires LegalRun(START, steps) && id in Run(START, steps).jobs
    ensures Leased(Run(START, steps).jobs[id])
    ensures var j := Run(START, steps).jobs[id];
            j.status == InProgress ==>
              j.owner == Some(j.worker) && j.token.Some? && j.token.value != "" && j.issued.Some? && j.expires.Some?
  {
    hide NextJobs, Observed, Legal;
    RunKeepsInv(START, steps);
  }

  predicate IsHanded(e: Event) {
    e.Handed?
  }

  predicate IsTerminalEvent(e: Event) {
    e.Finished? || e.Stopped? || e.Lapsed?
  }

  function CountIf(p: Event -> bool, life: seq<Event>): nat {
    if life == [] then 0 else (if p(life[0]) then 1 else 0) + CountIf(p, life[1..])
  }

  /** Each job is handed out at most once and ends at most once; a report that was accepted came from the worker
      it was handed to, with that hand-out's token, before expiry, and nothing ended the job before it. */
  lemma EveryLife(steps: seq<Step>, id: string)
    requires LegalRun(START, steps) && id in Run(START, steps).jobs
    ensures var s := Run(START, steps); var life := s.life[id];
            && CountIf(IsHanded, life) <= 1 && CountIf(IsTerminalEvent, life) <= 1
            && (Terminal(s.jobs[id].status) <==> CountIf(IsTerminalEvent, life) == 1)
            && (s.jobs[id].status == InProgress ==> |life| == 1 && life[0].Handed?)
            && (forall i | 0 <= i < |life| && life[i].Finished? ::
                  i == 1 && life[0].Handed? && life[0].worker == life[1].reporter && life[0].token == life[1].used
                  && life[1].at < life[1].before && life[1].status == s.jobs[id].status)
  {
    hide NextJobs, Observed, Legal;
    RunKeepsInv(START, steps);
    CountTwo(IsHanded, Run(START, steps).life[id]);
    CountTwo(IsTerminalEvent, Run(START, steps).life[id]);
  }

  lemma CountTwo(p: Event -> bool, life: seq<Event>)
    ensures |life| == 0 ==> CountIf(p, life) == 0
    ensures |life| == 1 ==> CountIf(p, life) == if p(life[0]) then 1 else 0
    ensures |life| == 2 ==> CountIf(p, life) == (if p(life[0]) then 1 else 0) + if p(life[1]) then 1 else 0
  {
    if |life| == 2 {
      assert life[1..] == [life[1]] && life[1..][1..] == [];
    }
  }

  lemma TerminalUnmoved(j: Job, now: int)
    requires Terminal(j.status)
    ensures !Expired(j, now) && ReconcileOne(j, now) == j && !Cancelable(j) && LapseEvents(j, now) == []
    ensures forall worker, token :: !Holds(j, worker, token, now)
    ensures forall worker :: !Claimable(j, worker)
    ensures forall worker, token, status :: !ReportAccepted(j, worker, token, status, now)
  {
    hide Interrupt;
  }

  /** A finished job's record never changes again. */
  lemma TerminalStepFrozen(s: State, step: Step, id: string)
    requires s.life.Keys == s.jobs.Keys && Legal(s, step) && id in s.jobs && Terminal(s.jobs[id].status)
    ensures id in NextJobs(s.jobs, step) && NextJobs(s.jobs, step)[id] == s.jobs[id] && Observed(s.jobs, id, step) == []
  {
    hide ReconcileOne, RenewOne, ProgressOne, ClaimOne, ReportOne, CancelOne, NewJob, LapseEvents, Holds, Claimable, ReportAccepted, Cancelable;
    var j := s.jobs[id];
    match step
    case Dispatch(_, _, _, _, _, _) =>
    case Fetch(_, sweep, now, _) => TerminalUnmoved(j, sweep); TerminalUnmoved(j, now);
    case RenewLease(_, _, _, _, now, sweep) => TerminalUnmoved(j, sweep); TerminalUnmoved(j, now);
    case Diagnostic(_, _, _, _, sweep) => TerminalUnmoved(j, sweep);
    case UpdateProgress(_, _, _, _, _, _, _, _, now) => TerminalUnmoved(j, now);
    case UpdateStatus(_, _, _, _, _, _, _, check, _, _) => TerminalUnmoved(j, check);
    case CancelJob(_, sweep, _, _) => TerminalUnmoved(j, sweep);
    case Sweep(now) => TerminalUnmoved(j, now);
  }

  lemma {:induction false} TerminalForever(s: State, steps: seq<Step>, id: string)
    requires s.life.Keys == s.jobs.Keys && LegalRun(s, steps) && id in s.jobs && Terminal(s.jobs[id].status)
    ensures id in Run(s, steps).jobs && Run(s, steps).jobs[id] == s.jobs[id] && Run(s, steps).life[id] == s.life[id]
    decreases |steps|
  {
    hide NextJobs, Observed, Legal;
    if steps != [] {
      TerminalStepFrozen(s, steps[0], id);
      DomainGrows(s.jobs, steps[0]);
      var next := Next(s, steps[0]);
      assert next.jobs[id] == s.jobs[id];
      assert next.life[id] == s.life[id] + [];
      TerminalForever(next, steps[1..], id);
    }
  }
}
