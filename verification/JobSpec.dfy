/** One abstract job map and the lease operations that both job repositories implement. */
module JobSpec {
  import opened Text
  import opened LogBound

  datatype Status = Pending | InProgress | Succeeded | Failed | Canceled

  predicate Terminal(s: Status) {
    s.Succeeded? || s.Failed? || s.Canceled?
  }

  /** The parts of `result_summary` that the protocol reads or writes. */
  datatype Summary = Summary(sequence: int, progress: Option<string>, error: Option<string>, recovery: Option<string>)

  const EMPTY_SUMMARY := Summary(0, None, None, None)

  /** Times are microseconds; `submitted` orders the claims. */
  datatype Job = Job(worker: string, command: string, target: Option<string>, requestedBy: string, status: Status,
                     owner: Option<string>, token: Option<string>, issued: Option<int>, expires: Option<int>,
                     attempts: nat, summary: Summary, log: seq<string>,
                     submitted: int, started: Option<int>, finished: Option<int>, updated: int)

  type Jobs = map<string, Job>

  const SECOND := 1_000_000
  const LEASE_SECONDS := 300

  function InterruptionLine(): string {
    "Worker lease expired before terminal status was reported."
  }

  function ExpiredError(): string {
    "worker lease expired before the job reported a terminal result"
  }

  function InterruptedRecovery(): string {
    "worker_interrupted"
  }

  /** `_reconcile_expired_leases_locked`, one job. */
  predicate Expired(j: Job, now: int) {
    j.status == InProgress && j.expires.Some? && j.expires.value <= now
  }

  function OrDefault(value: Option<string>, default: string): Option<string> {
    if value.Some? then value else Some(default)
  }

  function Interrupt(j: Job, now: int): Job {
    j.(status := Failed, owner := None, token := None, issued := None, expires := None,
       summary := j.summary.(error := OrDefault(j.summary.error, ExpiredError()),
                             recovery := Some(InterruptedRecovery())),
       log := if InterruptionLine() in j.log then j.log else j.log + [InterruptionLine()],
       finished := Some(now), updated := now)
  }

  function ReconcileOne(j: Job, now: int): Job {
    if Expired(j, now) then Interrupt(j, now) else j
  }

  function Reconcile(jobs: Jobs, now: int): (r: Jobs)
    ensures r.Keys == jobs.Keys
  {
    hide ReconcileOne;
    map id | id in jobs :: ReconcileOne(jobs[id], now)
  }

  /** `value or ""` */
  function OrEmpty(value: Option<string>): string {
    if value.Some? then value.value else ""
  }

  /** The lease check made before an update. */
  predicate Holds(j: Job, worker: string, token: Option<string>, now: int) {
    && j.status == InProgress && j.owner == Some(worker) && OrEmpty(j.token) == OrEmpty(token)
    && j.expires.Some? && now < j.expires.value
  }

  function RenewOne(j: Job, now: int, seconds: int): Job {
    j.(expires := Some(now + seconds * SECOND), updated := now)
  }

  function ProgressOne(j: Job, sequence: int, progress: string, lines: seq<string>, now: int): Job {
    if sequence <= j.summary.sequence then j
    else j.(summary := j.summary.(sequence := sequence, progress := Some(progress)), log := Bound(j.log + lines), updated := now)
  }

  predicate Claimable(j: Job, worker: string) {
    j.worker == worker && j.status == Pending
  }

  function ClaimOne(j: Job, worker: string, token: string, now: int, seconds: int): Job {
    j.(status := InProgress, owner := Some(worker), token := Some(token), issued := Some(now),
       expires := Some(now + seconds * SECOND), attempts := j.attempts + 1, started := Some(now), updated := now)
  }

  function ClaimedFrom(j: Job, worker: string, token: string, now: int, seconds: int): Job {
    if Claimable(j, worker) then ClaimOne(j, worker, token, now, seconds) else j
  }

  /** `draw(id)` is the random token drawn for job `id` in this call. */
  function Claim(jobs: Jobs, worker: string, now: int, seconds: int, draw: string -> string): (r: Jobs)
    ensures r.Keys == jobs.Keys
  {
    hide ReconcileOne, ClaimedFrom;
    map id | id in jobs :: ClaimedFrom(ReconcileOne(jobs[id], now), worker, draw(id), now, seconds)
  }

  function Renew(jobs: Jobs, id: string, worker: string, token: Option<string>, now: int, seconds: int): (r: Jobs)
    ensures r.Keys == jobs.Keys
  {
    hide Holds, RenewOne;
    if id in jobs && Holds(jobs[id], worker, token, now) then jobs[id := RenewOne(jobs[id], now, seconds)] else jobs
  }

  function Progress(jobs: Jobs, id: string, worker: string, token: Option<string>, sequence: int, progress: string,
                    lines: seq<string>, now: int): (r: Jobs)
    ensures r.Keys == jobs.Keys
  {
    hide Holds, ProgressOne;
    if id in jobs && Holds(jobs[id], worker, token, now)
    then jobs[id := ProgressOne(jobs[id], sequence, progress, lines, now)] else jobs
  }

  /** The jobs a claim of this worker hands out. */
  ghost predicate HandsOut(jobs: Jobs, ids: seq<string>, worker: string, now: int) {
    hide ReconcileOne, Claimable;
    forall id :: id in ids <==> id in jobs && Claimable(ReconcileOne(jobs[id], now), worker)
  }

  /** Reconciling first and claiming then, job by job, is a claim. */
  lemma ClaimAfterReconcile(jobs: Jobs, swept: Jobs, claimed: Jobs, worker: string, now: int, seconds: int, draw: string -> string)
    requires swept == Reconcile(jobs, now) && claimed.Keys == swept.Keys
    requires forall id | id in swept :: claimed[id] == ClaimedFrom(swept[id], worker, draw(id), now, seconds)
    ensures claimed == Claim(jobs, worker, now, seconds, draw)
  {
    hide ReconcileOne, ClaimedFrom;
  }

  lemma HandsOutAfterReconcile(jobs: Jobs, swept: Jobs, ids: seq<string>, worker: string, now: int)
    requires swept == Reconcile(jobs, now) && forall id :: id in ids <==> id in swept && Claimable(swept[id], worker)
    ensures HandsOut(jobs, ids, worker, now)
  {
    hide ReconcileOne, Claimable;
  }

  // Guarded updates

  /** The `WHERE` clause of the guarded UPDATE: comparison with NULL is never true. */
  predicate Guard(j: Job, worker: string, token: Option<string>, now: int) {
    && j.status == InProgress && j.owner == Some(worker) && j.token.Some? && j.token == token
    && j.expires.Some? && now < j.expires.value
  }

  /** The guard disagrees with the check just made exactly when a missing token met an empty one. */
  lemma GuardDisagreesIff(j: Job, worker: string, token: Option<string>, now: int)
    requires Holds(j, worker, token, now)
    ensures !Guard(j, worker, token, now) <==> OrEmpty(j.token) == "" && (j.token.None? || token.None?)
  {
  }

  lemma GuardIsStricter(j: Job, worker: string, token: Option<string>, now: int)
    ensures Guard(j, worker, token, now) ==> Holds(j, worker, token, now)
  {
  }

  /** A running job that a claim started: the condition under which check and guard are the same. */
  predicate Leased(j: Job) {
    j.status == InProgress ==> j.owner.Some? && j.token.Some? && j.token.value != "" && j.issued.Some? && j.expires.Some?
  }

  lemma GuardAgreesWhenLeased(j: Job, worker: string, token: Option<string>, now: int)
    requires Leased(j)
    ensures Guard(j, worker, token, now) <==> Holds(j, worker, token, now)
  {
  }

  // What any one operation leaves behind

  lemma NotExpired(j: Job, worker: string, token: string, now: int, seconds: int)
    requires seconds > 0
    ensures !Expired(ReconcileOne(j, now), now) && !Expired(ClaimedFrom(ReconcileOne(j, now), worker, token, now, seconds), now)
  {
    hide InterruptionLine, ExpiredError, InterruptedRecovery, OrDefault;
  }

  /** After a reconcile or a claim at `now` no running job has expired. */
  lemma NothingExpired(jobs: Jobs, worker: string, now: int, seconds: int, draw: string -> string)
    requires seconds > 0
    ensures forall id | id in jobs :: !Expired(Reconcile(jobs, now)[id], now) && !Expired(Claim(jobs, worker, now, seconds, draw)[id], now)
  {
    hide ReconcileOne, ClaimedFrom, Expired;
    forall id | id in jobs
      ensures !Expired(Reconcile(jobs, now)[id], now) && !Expired(Claim(jobs, worker, now, seconds, draw)[id], now)
    {
      NotExpired(jobs[id], worker, draw(id), now, seconds);
    }
  }

  /** Reconciling adds its line without trimming: the log still fits exactly when the line was there or there was room. */
  lemma InterruptedLogFitsIff(j: Job, now: int)
    requires Fits(j.log)
    ensures Fits(Interrupt(j, now).log)
       <==> InterruptionLine() in j.log || (|j.log| < MAX_LINES && Chars(j.log) + |InterruptionLine()| <= MAX_CHARS)
  {
    hide InterruptionLine, ExpiredError, InterruptedRecovery;
    PrefixFits(j.log, [InterruptionLine()]);
    OneLine(InterruptionLine());
  }

  /** A log that is full, one-character lines up to the line limit, has no room for it. */
  lemma FullLogOverflows(j: Job, now: int)
    requires j.log == Repeated("x", MAX_LINES)
    ensures Fits(j.log) && |Interrupt(j, now).log| == MAX_LINES + 1 && !Fits(Interrupt(j, now).log)
  {
    hide ExpiredError, InterruptedRecovery, InterruptionLine;
    RepeatedFits("x", MAX_LINES);
    LineIsLonger();
  }

  function Repeated(line: string, n: nat): (lines: seq<string>)
    ensures |lines| == n && forall l | l in lines :: l == line
  {
    seq(n, _ => line)
  }

  lemma {:induction false} RepeatedFits(line: string, n: nat)
    ensures Chars(Repeated(line, n)) == n * |line|
  {
    if n > 0 {
      assert Repeated(line, n)[1..] == Repeated(line, n - 1);
      RepeatedFits(line, n - 1);
    }
  }

  lemma LineIsLonger()
    ensures InterruptionLine() != "x"
  {
  }

  lemma OneLine(line: string)
    ensures Chars([line]) == |line|
  {
    assert [line][1..] == [];
  }

  // Progress messages in any order

  datatype Delivery =
    | Report(sequence: int, progress: string, lines: seq<string>, now: int)
    | Renewal(now: int)

  function Deliver(j: Job, d: Delivery): Job {
    match d
    case Report(sequence, progress, lines, now) => ProgressOne(j, sequence, progress, lines, now)
    case Renewal(now) => RenewOne(j, now, LEASE_SECONDS)
  }

  /** Every delivery arrives while the lease it meets is still valid. */
  predicate LeaseStaysValid(j: Job, worker: string, token: string, deliveries: seq<Delivery>)
    decreases |deliveries|
  {
    deliveries != [] ==> Holds(j, worker, Some(token), deliveries[0].now) && LeaseStaysValid(Deliver(j, deliveries[0]), worker, token, deliveries[1..])
  }

  /** The same deliveries as repository calls. */
  function DeliverAll(jobs: Jobs, id: string, worker: string, token: string, deliveries: seq<Delivery>): Jobs
    decreases |deliveries|
  {
    if deliveries == [] then jobs
    else
      var next := match deliveries[0]
        case Report(sequence, progress, lines, now) => Progress(jobs, id, worker, Some(token), sequence, progress, lines, now)
        case Renewal(now) => Renew(jobs, id, worker, Some(token), now, LEASE_SECONDS);
      DeliverAll(next, id, worker, token, deliveries[1..])
  }

  /** Lines of the deliveries that were newer than all before them. */
  function AcceptedLines(sequence: int, deliveries: seq<Delivery>): seq<string>
    decreases |deliveries|
  {
    if deliveries == [] then []
    else if deliveries[0].Report? && deliveries[0].sequence > sequence
    then deliveries[0].lines + AcceptedLines(deliveries[0].sequence, deliveries[1..])
    else AcceptedLines(sequence, deliveries[1..])
  }

  ghost predicate Newest(start: Summary, end: Summary, deliveries: seq<Delivery>) {
    && start.sequence <= end.sequence
    && (forall i | 0 <= i < |deliveries| && deliveries[i].Report? :: deliveries[i].sequence <= end.sequence)
    && if start.sequence == end.sequence then start.progress == end.progress
       else exists i :: 0 <= i < |deliveries| && deliveries[i].Report? && deliveries[i].sequence == end.sequence
                        && end.progress == Some(deliveries[i].progress)
  }

  lemma NewestCons(start: Summary, mid: Summary, end: Summary, deliveries: seq<Delivery>)
    requires deliveries != [] && Newest(mid, end, deliveries[1..])
    requires var d := deliveries[0];
             if d.Report? && d.sequence > start.sequence then mid.sequence == d.sequence && mid.progress == Some(d.progress)
             else mid == start
    ensures Newest(start, end, deliveries)
  {
    var rest := deliveries[1..];
    forall i | 0 <= i < |deliveries| && deliveries[i].Report?
      ensures deliveries[i].sequence <= end.sequence
    {
      assert i > 0 ==> rest[i - 1] == deliveries[i];
    }
    if start.sequence != end.sequence && mid.sequence != end.sequence {
      var i :| 0 <= i < |rest| && rest[i].Report? && rest[i].sequence == end.sequence && end.progress == Some(rest[i].progress);
      assert deliveries[i + 1] == rest[i];
    }
  }

  /** Reordered, duplicated, interleaved with renewals: the job ends with the highest-numbered progress delivered,
      the lines of the accepted messages, and everything else of other jobs untouched. */
  lemma {:induction false} DeliveredProgressIsNewest(jobs: Jobs, id: string, worker: string, token: string, deliveries: seq<Delivery>)
    requires id in jobs && LeaseStaysValid(jobs[id], worker, token, deliveries) && Fits(jobs[id].log)
    ensures var r := DeliverAll(jobs, id, worker, token, deliveries);
            && r.Keys == jobs.Keys && (forall k | k in jobs && k != id :: r[k] == jobs[k])
            && Newest(jobs[id].summary, r[id].summary, deliveries)
            && r[id].log == Bound(jobs[id].log + AcceptedLines(jobs[id].summary.sequence, deliveries))
    decreases |deliveries|
  {
    if deliveries == [] {
      assert jobs[id].log + [] == jobs[id].log;
    } else {
      var d := deliveries[0];
      var next := jobs[id := Deliver(jobs[id], d)];
      var j := jobs[id];
      assert d.Report? && d.sequence > j.summary.sequence ==> Fits(next[id].log) by {
        if d.Report? {
          BoundIsLongest(j.log + d.lines);
        }
      }
      assert DeliverAll(jobs, id, worker, token, deliveries) == DeliverAll(next, id, worker, token, deliveries[1..]);
      DeliveredProgressIsNewest(next, id, worker, token, deliveries[1..]);
      var end := DeliverAll(next, id, worker, token, deliveries[1..])[id];
      NewestCons(j.summary, next[id].summary, end.summary, deliveries);
      if d.Report? && d.sequence > j.summary.sequence {
        var later := AcceptedLines(d.sequence, deliveries[1..]);
        BoundComposes(j.log + d.lines, later);
        assert j.log + d.lines + later == j.log + (d.lines + later);
      }
    }
  }
}
