/** Enrollments and credentials of workers, held in memory. */
module WorkerAuth {
  import opened Text
  import opened Decimal

  newtype byte = x: int | 0 <= x < 256

  type Secret = seq<byte>

  /** Digests of different secrets differ. */
  datatype Digest = Digest(secret: Secret)

  type Labels = map<string, string>

  /** Worker and version. */
  type Key = (string, string)

  datatype Credential = Credential(worker: string, version: string, secret: Digest, active: bool, revokedAt: Option<int>)

  datatype Enrollment = Enrollment(worker: string, secret: Digest, name: string, host: string, labels: Labels, expires: int, used: bool)

  datatype Attempt = Attempt(id: string, credential: Digest, worker: string, version: string, labels: Labels)

  datatype State = State(credentials: map<Key, Credential>, enrollments: map<Digest, Enrollment>, attempts: map<Digest, Attempt>)

  const EMPTY := State(map[], map[], map[])

  /** What an enrollment call returns. */
  datatype Grant = Grant(worker: string, version: string, name: string, host: string, labels: Labels)

  datatype Step =
    | Enroll(name: string, host: string, labels: Labels, secret: Secret, worker: string, minutes: int, replacePending: bool, now: int)
    | Complete(secret: Secret, version: string, labels: Labels, now: int)
    | CompleteV2(secret: Secret, attempt: string, credential: Secret, labels: Labels, now: int)
    | Rotate(worker: string, secret: Secret, now: int)
    | Revoke(worker: string, which: Option<string>, now: int)
    | RevokeAll(worker: string, now: int)
    | DeleteWorker(worker: string)

  const MINUTE := 60

  function RenderInt(n: int): string {
    if n < 0 then "-" + Render(-n) else Render(n)
  }

  /** `str(int(version) + 1)`, None where `int` or `str` raises. */
  function NextVersion(version: string): Option<string> {
    match ParseInt(version)
    case Some(n) => if |Render(if n < -1 then -n - 1 else n + 1)| <= MAX_DIGITS then Some(RenderInt(n + 1)) else None
    case None => None
  }

  predicate AttemptChar(c: char) {
    'A' <= c <= 'Z' || 'a' <= c <= 'z' || '0' <= c <= '9' || c in {'.', '_', ':', '-'}
  }

  predicate AttemptId(id: string) {
    12 <= |id| <= 128 && forall i | 0 <= i < |id| :: AttemptChar(id[i])
  }

  predicate LongEnough(secret: Secret) {
    |secret| >= 32
  }

  function OrLabels(labels: Labels, default: Labels): Labels {
    if labels != map[] then labels else default
  }

  // Credentials

  predicate ActiveAt(credentials: map<Key, Credential>, worker: string, version: string) {
    (worker, version) in credentials && credentials[(worker, version)].active
  }

  ghost predicate AnyActive(credentials: map<Key, Credential>, worker: string) {
    exists version :: ActiveAt(credentials, worker, version)
  }

  /** Records sit under their own key, and no worker has two active credentials. */
  ghost predicate OneActive(credentials: map<Key, Credential>) {
    && (forall k | k in credentials :: credentials[k].worker == k.0 && credentials[k].version == k.1)
    && (forall w, v, u | ActiveAt(credentials, w, v) && ActiveAt(credentials, w, u) :: v == u)
  }

  /** By the invariant there is at most one to choose from. */
  ghost function CurrentVersion(credentials: map<Key, Credential>, worker: string): (version: string)
    requires AnyActive(credentials, worker)
    ensures ActiveAt(credentials, worker, version)
  {
    var version :| ActiveAt(credentials, worker, version); version
  }

  function Revoked(c: Credential, now: int): Credential {
    c.(active := false, revokedAt := Some(now))
  }

  /** The current credential, if any, is revoked. */
  ghost function RevokeCurrent(credentials: map<Key, Credential>, worker: string, now: int): map<Key, Credential> {
    if AnyActive(credentials, worker)
    then var k := (worker, CurrentVersion(credentials, worker)); credentials[k := Revoked(credentials[k], now)]
    else credentials
  }

  /** Finding the current credential does not raise: its version, if there is one, is a number. */
  ghost predicate Readable(credentials: map<Key, Credential>, worker: string) {
    AnyActive(credentials, worker) ==> ParseInt(CurrentVersion(credentials, worker)).Some?
  }

  /** The version of the credential that follows; None when the current version is no number, or one too long to count up. */
  ghost function Following(credentials: map<Key, Credential>, worker: string, first: string): Option<string> {
    if AnyActive(credentials, worker) then NextVersion(CurrentVersion(credentials, worker)) else Some(first)
  }

  /** The current credential makes way for a new one, unless finding it raises. */
  ghost function Replaced(credentials: map<Key, Credential>, worker: string, first: string, secret: Digest, now: int): map<Key, Credential> {
    match Following(credentials, worker, first)
    case Some(version) => RevokeCurrent(credentials, worker, now)[(worker, version) := Credential(worker, version, secret, true, None)]
    case None => credentials
  }

  // Calls

  /** The enrollments that survive a new one that replaces pending ones. */
  function KeptPending(enrollments: map<Digest, Enrollment>, worker: string): map<Digest, Enrollment> {
    map d | d in enrollments && !(enrollments[d].worker == worker && !enrollments[d].used) :: enrollments[d]
  }

  predicate Enrollable(s: State, d: Digest, now: int) {
    d in s.enrollments && !s.enrollments[d].used && s.enrollments[d].expires >= now
  }

  /** The enrollment can be used, and the version that follows can be counted. */
  ghost predicate Completable(s: State, d: Digest, version: string, now: int) {
    Enrollable(s, d, now) && Following(s.credentials, s.enrollments[d].worker, version).Some?
  }

  predicate V2Request(secret: Secret, attempt: string, credential: Secret) {
    LongEnough(secret) && AttemptId(attempt) && LongEnough(credential)
  }

  /** The answer to a v2 completion, None when it raises. */
  ghost function AnswerV2(s: State, step: Step): Option<Grant>
    requires step.CompleteV2?
  {
    var d := Digest(step.secret);
    if !V2Request(step.secret, step.attempt, step.credential) then None
    else if d in s.attempts then
      var a := s.attempts[d];
      if a.id != step.attempt || a.credential != Digest(step.credential) || d !in s.enrollments then None
      else Some(Grant(a.worker, a.version, s.enrollments[d].name, s.enrollments[d].host, a.labels))
    else if !Enrollable(s, d, step.now) then None
    else
      var e := s.enrollments[d];
      match Following(s.credentials, e.worker, "1")
      case Some(version) => Some(Grant(e.worker, version, e.name, e.host, OrLabels(step.labels, e.labels)))
      case None => None
  }

  ghost function CompletedV2(s: State, step: Step): State
    requires step.CompleteV2?
  {
    var d := Digest(step.secret);
    if AnswerV2(s, step).None? || d in s.attempts then s
    else
      var e := s.enrollments[d];
      var version := AnswerV2(s, step).value.version;
      State(Replaced(s.credentials, e.worker, "1", Digest(step.credential), step.now), s.enrollments[d := e.(used := true)],
            s.attempts[d := Attempt(step.attempt, Digest(step.credential), e.worker, version, OrLabels(step.labels, e.labels))])
  }

  function DroppedDigests(enrollments: map<Digest, Enrollment>, worker: string): set<Digest> {
    set d | d in enrollments && enrollments[d].worker == worker
  }

  /** The state after a call; one that raises changes nothing. */
  ghost function Next(s: State, step: Step): State {
    match step
    case Enroll(name, host, labels, secret, worker, minutes, replacePending, now) =>
      if minutes <= 0 || !LongEnough(secret) then s
      else
        var kept := if replacePending then KeptPending(s.enrollments, worker) else s.enrollments;
        s.(enrollments := kept[Digest(secret) := Enrollment(worker, Digest(secret), name, host, labels, now + minutes * MINUTE, false)])
    case Complete(secret, version, labels, now) =>
      var d := Digest(secret);
      if !Completable(s, d, version, now) then s
      else
        var e := s.enrollments[d];
        s.(credentials := Replaced(s.credentials, e.worker, version, d, now), enrollments := s.enrollments[d := e.(used := true)])
    case CompleteV2(_, _, _, _, _) => CompletedV2(s, step)
    case Rotate(worker, secret, now) =>
      if LongEnough(secret) then s.(credentials := Replaced(s.credentials, worker, "1", Digest(secret), now)) else s
    case Revoke(worker, which, now) =>
      if which.None? || which.value == "" then
        if !Readable(s.credentials, worker) then s else s.(credentials := RevokeCurrent(s.credentials, worker, now))
      else if (worker, which.value) in s.credentials
      then s.(credentials := s.credentials[(worker, which.value) := Revoked(s.credentials[(worker, which.value)], now)])
      else s
    case RevokeAll(worker, now) =>
      s.(credentials := map k | k in s.credentials ::
           if k.0 == worker && s.credentials[k].active then Revoked(s.credentials[k], now) else s.credentials[k])
    case DeleteWorker(worker) =>
      var dropped := DroppedDigests(s.enrollments, worker);
      State(map k | k in s.credentials && k.0 != worker :: s.credentials[k], s.enrollments - dropped, s.attempts - dropped)
  }

  // Over all runs

  lemma RevokeCurrentLeavesNone(credentials: map<Key, Credential>, worker: string, now: int)
    requires OneActive(credentials)
    ensures OneActive(RevokeCurrent(credentials, worker, now)) && !AnyActive(RevokeCurrent(credentials, worker, now), worker)
    ensures forall w, v | w != worker :: ActiveAt(RevokeCurrent(credentials, worker, now), w, v) <==> ActiveAt(credentials, w, v)
  {
    var r := RevokeCurrent(credentials, worker, now);
    forall w, v | ActiveAt(r, w, v)
      ensures ActiveAt(credentials, w, v) && w != worker
    {
      assert ActiveAt(credentials, w, v);
    }
  }

  lemma ReplacedKeepsOne(credentials: map<Key, Credential>, worker: string, first: string, secret: Digest, now: int)
    requires OneActive(credentials)
    ensures OneActive(Replaced(credentials, worker, first, secret, now))
    ensures Following(credentials, worker, first).Some? ==>
      ActiveAt(Replaced(credentials, worker, first, secret, now), worker, Following(credentials, worker, first).value)
  {
    hide RevokeCurrent, Following;
    RevokeCurrentLeavesNone(credentials, worker, now);
    if Following(credentials, worker, first).Some? {
      var mid, r := RevokeCurrent(credentials, worker, now), Replaced(credentials, worker, first, secret, now);
      var version := Following(credentials, worker, first).value;
      forall w, v | ActiveAt(r, w, v) && (w, v) != (worker, version)
        ensures w != worker && ActiveAt(mid, w, v)
      {
        assert r[(w, v)] == mid[(w, v)];
        assert ActiveAt(mid, w, v);
      }
    }
  }

  /** No call gives a worker a second active credential. */
  lemma StepKeepsOne(s: State, step: Step)
    requires OneActive(s.credentials)
    ensures OneActive(Next(s, step).credentials)
  {
    hide Replaced, RevokeCurrent, Following, OneActive;
    match step
    case Enroll(_, _, _, _, _, _, _, _) =>
    case Complete(secret, version, _, now) =>
      if Enrollable(s, Digest(secret), now) {
        ReplacedKeepsOne(s.credentials, s.enrollments[Digest(secret)].worker, version, Digest(secret), now);
      }
    case CompleteV2(secret, _, credential, _, now) =>
      if Enrollable(s, Digest(secret), now) {
        ReplacedKeepsOne(s.credentials, s.enrollments[Digest(secret)].worker, "1", Digest(credential), now);
      }
    case Rotate(worker, secret, now) => ReplacedKeepsOne(s.credentials, worker, "1", Digest(secret), now);
    case Revoke(worker, which, now) =>
      if which.None? || which.value == "" {
        RevokeCurrentLeavesNone(s.credentials, worker, now);
      } else {
        FewerActive(s.credentials, Next(s, step).credentials);
      }
    case RevokeAll(worker, now) => FewerActive(s.credentials, Next(s, step).credentials);
    case DeleteWorker(worker) => FewerActive(s.credentials, Next(s, step).credentials);
  }

  lemma FewerActive(before: map<Key, Credential>, after: map<Key, Credential>)
    requires OneActive(before)
    requires forall k | k in after :: k in before && after[k].worker == before[k].worker && after[k].version == before[k].version
    requires forall k | k in after && after[k].active :: k in before && before[k].active
    ensures OneActive(after)
  {
    forall w, v | ActiveAt(after, w, v)
      ensures ActiveAt(before, w, v)
    {
    }
  }

  ghost function Run(s: State, steps: seq<Step>): State
    decreases |steps|
  {
    if steps == [] then s else Run(Next(s, steps[0]), steps[1..])
  }

  lemma {:induction false} RunKeepsOne(s: State, steps: seq<Step>)
    requires OneActive(s.credentials)
    ensures OneActive(Run(s, steps).credentials)
    decreases |steps|
  {
    hide Next, OneActive;
    if steps != [] {
      StepKeepsOne(s, steps[0]);
      RunKeepsOne(Next(s, steps[0]), steps[1..]);
    }
  }

  /** In every run, whatever version texts are supplied, each worker has at most one active credential. */
  lemma AtMostOneActive(steps: seq<Step>, worker: string, v: string, u: string)
    requires ActiveAt(Run(EMPTY, steps).credentials, worker, v) && ActiveAt(Run(EMPTY, steps).credentials, worker, u)
    ensures v == u
  {
    hide Next, Run;
    RunKeepsOne(EMPTY, steps);
  }

  // Retrying a v2 enrollment

  /** A call that enrolls the secret again, or deletes the worker it was enrolled for. */
  predicate Touches(step: Step, d: Digest, worker: string) {
    (step.Enroll? && Digest(step.secret) == d) || (step.DeleteWorker? && step.worker == worker)
  }

  /** The enrollment is used up and bound to the attempt. */
  predicate Bound(s: State, d: Digest, e: Enrollment, a: Attempt) {
    d in s.enrollments && s.enrollments[d] == e && e.used && d in s.attempts && s.attempts[d] == a
  }

  lemma StepKeepsBinding(s: State, step: Step, d: Digest, e: Enrollment, a: Attempt)
    requires Bound(s, d, e, a) && !Touches(step, d, e.worker)
    ensures Bound(Next(s, step), d, e, a)
  {
    hide Replaced, RevokeCurrent, Following, V2Request;
  }

  lemma {:induction false} RunKeepsBinding(s: State, steps: seq<Step>, d: Digest, e: Enrollment, a: Attempt)
    requires Bound(s, d, e, a)
    requires forall i | 0 <= i < |steps| :: !Touches(steps[i], d, e.worker)
    ensures Bound(Run(s, steps), d, e, a)
    decreases |steps|
  {
    hide Next, Bound;
    if steps != [] {
      StepKeepsBinding(s, steps[0], d, e, a);
      RunKeepsBinding(Next(s, steps[0]), steps[1..], d, e, a);
    }
  }

  /** What any completion gets from a bound enrollment: the same grant for the same attempt, nothing for another. */
  lemma BoundAnswers(s: State, retry: Step, e: Enrollment, a: Attempt)
    requires retry.CompleteV2? && Bound(s, Digest(retry.secret), e, a)
    ensures Next(s, retry) == s
    ensures AnswerV2(s, retry)
         == if V2Request(retry.secret, retry.attempt, retry.credential) && a.id == retry.attempt && a.credential == Digest(retry.credential)
            then Some(Grant(a.worker, a.version, e.name, e.host, a.labels)) else None
  {
    hide V2Request;
  }

  /** The first completion binds the enrollment. */
  lemma FirstBinds(s: State, first: Step) returns (e: Enrollment, a: Attempt)
    requires first.CompleteV2? && AnswerV2(s, first).Some? && Digest(first.secret) !in s.attempts
    ensures Bound(Next(s, first), Digest(first.secret), e, a) && a.id == first.attempt && a.credential == Digest(first.credential)
    ensures AnswerV2(s, first) == Some(Grant(a.worker, a.version, e.name, e.host, a.labels)) && e.worker == a.worker
    ensures V2Request(first.secret, first.attempt, first.credential)
  {
    hide Replaced, Following, V2Request;
    var d := Digest(first.secret);
    e := s.enrollments[d].(used := true);
    a := Attempt(first.attempt, Digest(first.credential), e.worker, AnswerV2(s, first).value.version, OrLabels(first.labels, e.labels));
  }

  /** After a completion and any run that neither enrolls the secret again nor deletes the worker: the same attempt gets
      the same grant and changes nothing; any other attempt on the secret is refused. */
  lemma RetryIsStable(s: State, first: Step, steps: seq<Step>, retry: Step)
    requires first.CompleteV2? && AnswerV2(s, first).Some? && Digest(first.secret) !in s.attempts
    requires forall i | 0 <= i < |steps| :: !Touches(steps[i], Digest(first.secret), AnswerV2(s, first).value.worker)
    requires retry.CompleteV2? && retry.secret == first.secret
    ensures var end := Run(Next(s, first), steps);
            && Next(end, retry) == end
            && AnswerV2(end, retry)
               == if retry.attempt == first.attempt && retry.credential == first.credential then AnswerV2(s, first) else None
  {
    hide Next, AnswerV2, V2Request, Bound;
    var e, a := FirstBinds(s, first);
    RunKeepsBinding(Next(s, first), steps, Digest(first.secret), e, a);
    BoundAnswers(Run(Next(s, first), steps), retry, e, a);
  }

  /** Enrolling a completed secret again does not free it: other attempts stay refused, and the old attempt still gets the
      old worker, version and labels, under the new enrollment's names. */
  lemma EnrolledAgain(s: State, again: Step, retry: Step)
    requires again.Enroll? && retry.CompleteV2? && again.secret == retry.secret
    requires Digest(again.secret) in s.attempts && again.minutes > 0 && V2Request(retry.secret, retry.attempt, retry.credential)
    ensures var a := s.attempts[Digest(again.secret)];
            AnswerV2(Next(s, again), retry)
            == if a.id == retry.attempt && a.credential == Digest(retry.credential)
               then Some(Grant(a.worker, a.version, again.name, again.host, a.labels)) else None
    ensures Next(Next(s, again), retry) == Next(s, again)
  {
    hide AttemptId;
  }

  /** Deleting a worker frees a completed secret exactly when the secret is enrolled for that worker at the time. */
  lemma DeletionFreesIff(s: State, worker: string, d: Digest)
    requires d in s.attempts
    ensures d !in Next(s, DeleteWorker(worker)).attempts <==> d in s.enrollments && s.enrollments[d].worker == worker
  {
  }

  /** A secret enrolled for one worker and completed, then enrolled for another. */
  function EnrolledTwice(secret: Secret, attempt: string, credential: Secret, v: string, w: string, now: int): seq<Step> {
    [Enroll("n", "h", map[], secret, v, 5, false, now), CompleteV2(secret, attempt, credential, map[], now),
     Enroll("n", "h", map[], secret, w, 5, false, now), DeleteWorker(v)]
  }

  lemma FirstStep(s: State, steps: seq<Step>)
    requires steps != []
    ensures Run(s, steps) == Run(Next(s, steps[0]), steps[1..])
  {
    hide Next;
  }

  lemma EnrollAlone(s: State, step: Step)
    requires step.Enroll? && step.minutes > 0 && LongEnough(step.secret) && !step.replacePending
    ensures Next(s, step).attempts == s.attempts && Next(s, step).credentials == s.credentials
    ensures Next(s, step).enrollments == s.enrollments[Digest(step.secret) :=
      Enrollment(step.worker, Digest(step.secret), step.name, step.host, step.labels, step.now + step.minutes * MINUTE, false)]
  {
  }

  lemma CompleteAlone(s: State, step: Step)
    requires step.CompleteV2? && V2Request(step.secret, step.attempt, step.credential) && s.credentials == map[]
    requires Digest(step.secret) !in s.attempts && Enrollable(s, Digest(step.secret), step.now)
    ensures var a := Next(s, step).attempts;
            Digest(step.secret) in a && a[Digest(step.secret)].worker == s.enrollments[Digest(step.secret)].worker
  {
    hide V2Request;
    assert !AnyActive(s.credentials, s.enrollments[Digest(step.secret)].worker);
  }

  /** After it the first worker is deleted, and the secret stays bound to that worker's attempt. */
  lemma DeletedWorkerStaysBound(secret: Secret, attempt: string, credential: Secret, v: string, w: string, now: int)
    requires V2Request(secret, attempt, credential) && v != w
    ensures var end := Run(EMPTY, EnrolledTwice(secret, attempt, credential, v, w, now));
            Digest(secret) in end.attempts && end.attempts[Digest(secret)].worker == v
  {
    hide Next, AttemptId;
    var steps, d := EnrolledTwice(secret, attempt, credential, v, w, now), Digest(secret);
    EnrollAlone(EMPTY, steps[0]);
    var s1 := Next(EMPTY, steps[0]);
    CompleteAlone(s1, steps[1]);
    var s2 := Next(s1, steps[1]);
    EnrollAlone(s2, steps[2]);
    var s3 := Next(s2, steps[2]);
    DeletionFreesIff(s3, v, d);
    DeletionKeeps(s3, v, d);
    FourSteps(EMPTY, steps);
  }

  lemma DeletionKeeps(s: State, worker: string, d: Digest)
    requires d in s.attempts && d in Next(s, DeleteWorker(worker)).attempts
    ensures Next(s, DeleteWorker(worker)).attempts[d] == s.attempts[d]
  {
  }

  lemma FourSteps(s: State, steps: seq<Step>)
    requires |steps| == 4
    ensures Run(s, steps) == Next(Next(Next(Next(s, steps[0]), steps[1]), steps[2]), steps[3])
  {
    hide Next, Run;
    var s1 := Next(s, steps[0]);
    var s2 := Next(s1, steps[1]);
    var s3 := Next(s2, steps[2]);
    FirstStep(s, steps);
    FirstStep(s1, steps[1..]);
    FirstStep(s2, steps[1..][1..]);
    FirstStep(s3, steps[1..][1..][1..]);
    NoSteps(Next(s3, steps[3]));
    assert steps[1..][1..][1..][1..] == [];
  }

  lemma NoSteps(s: State)
    ensures Run(s, []) == s
  {
  }

  lemma OnlyActive(credentials: map<Key, Credential>, active: set<Key>, worker: string)
    requires OneActive(credentials) && active != {}
    requires active == set k | k in credentials && k.0 == worker && credentials[k].active
    ensures AnyActive(credentials, worker) && active == {(worker, CurrentVersion(credentials, worker))}
  {
    var some :| some in active;
    assert some == (worker, some.1) && ActiveAt(credentials, worker, some.1);
    forall k | k in active
      ensures k == (worker, CurrentVersion(credentials, worker))
    {
      assert k == (worker, k.1) && ActiveAt(credentials, worker, k.1);
    }
  }

  lemma UnreadableHasNoNext(credentials: map<Key, Credential>, worker: string, first: string)
    ensures !Readable(credentials, worker) ==> Following(credentials, worker, first).None?
  {
    hide ParseInt;
  }

  lemma ReplacedWhenRaised(credentials: map<Key, Credential>, worker: string, first: string, secret: Digest, now: int)
    ensures Following(credentials, worker, first).None? ==> Replaced(credentials, worker, first, secret, now) == credentials
  {
  }

  lemma KeyedByWorker(credentials: map<Key, Credential>)
    requires OneActive(credentials)
    ensures forall k | k in credentials :: credentials[k].worker == k.0 && credentials[k].version == k.1
  {
  }

  lemma AllRevoked(before: map<Key, Credential>, selected: set<Key>, worker: string, now: int)
    requires selected == set k | k in before && k.0 == worker && before[k].active
    ensures var after := map k | k in before :: if k in selected then Revoked(before[k], now) else before[k];
            after == (map k | k in before :: if k.0 == worker && before[k].active then Revoked(before[k], now) else before[k])
            && !AnyActive(after, worker)
  {
    hide Revoked;
    var after := map k | k in before :: if k in selected then Revoked(before[k], now) else before[k];
    forall version
      ensures !ActiveAt(after, worker, version)
    {
      var k := (worker, version);
      RevokedIsInactive(if k in before then before[k] else Credential("", "", Digest([]), false, None), now);
    }
  }

  lemma RevokedIsInactive(c: Credential, now: int)
    ensures !Revoked(c, now).active
  {
  }

  // The calls

  datatype Answer<T> = Raised | Returned(value: T)

  class WorkerAuthState {
    var credentials: map<Key, Credential>
    var enrollments: map<Digest, Enrollment>
    var attempts: map<Digest, Attempt>

    ghost predicate Valid()
      reads this
    {
      OneActive(credentials)
    }

    ghost function View(): State
      reads this
    {
      State(credentials, enrollments, attempts)
    }

    constructor ()
      ensures Valid() && View() == EMPTY
    {
      credentials, enrollments, attempts := map[], map[], map[];
    }

    /** `_current`: the active credential of the highest version; raises when a version is no number. */
    method Current(worker: string) returns (r: Answer<Option<Credential>>)
      requires Valid()
      ensures r.Raised? <==> !Readable(credentials, worker)
      ensures r.Returned? ==> (r.value.Some? <==> AnyActive(credentials, worker))
      ensures r.Returned? && r.value.Some? ==>
        var version := CurrentVersion(credentials, worker);
        && (worker, version) in credentials && r.value.value == credentials[(worker, version)]
        && r.value.value.worker == worker && r.value.value.version == version
    {
      hide ParseInt, RenderInt;
      var active := set k | k in credentials && k.0 == worker && credentials[k].active;
      if active == {} {
        forall version
          ensures !ActiveAt(credentials, worker, version)
        {
          assert (worker, version) !in active;
        }
        return Returned(None);
      }
      OnlyActive(credentials, active, worker);
      if exists k | k in active :: ParseInt(k.1).None? {
        return Raised;
      }
      ghost var only :| only in active;
      assert forall k | k in active :: k == only;
      var key :| key in active && forall k | k in active :: ParseInt(k.1).value <= ParseInt(key.1).value;
      return Returned(Some(credentials[key]));
    }

    method RevokeOne(c: Credential, now: int)
      modifies this`credentials
      ensures credentials == old(credentials)[(c.worker, c.version) := Revoked(c, now)]
    {
      credentials := credentials[(c.worker, c.version) := c.(active := false, revokedAt := Some(now))];
    }

    /** The current credential makes way for the next version, or the first. */
    method Issue(worker: string, first: string, secret: Digest, now: int) returns (version: Option<string>)
      requires Valid()
      modifies this`credentials
      ensures Valid() && version == Following(old(credentials), worker, first)
      ensures credentials == Replaced(old(credentials), worker, first, secret, now)
    {
      hide OneActive, NextVersion;
      ReplacedKeepsOne(credentials, worker, first, secret, now);
      UnreadableHasNoNext(credentials, worker, first);
      var current := Current(worker);
      if current.Raised? {
        return None;
      }
      version := Some(first);
      if current.value.Some? {
        version := NextVersion(current.value.value.version);
        if version.None? {
          return;
        }
        RevokeOne(current.value.value, now);
      }
      credentials := credentials[(worker, version.value) := Credential(worker, version.value, secret, true, None)];
    }

    method CreateEnrollment(name: string, host: string, labels: Labels, secret: Secret, worker: string, minutes: int,
                            replacePending: bool, now: int) returns (raised: bool)
      requires Valid()
      modifies this`enrollments
      ensures raised <==> minutes <= 0 || !LongEnough(secret)
      ensures Valid() && View() == Next(old(View()), Enroll(name, host, labels, secret, worker, minutes, replacePending, now))
    {
      hide OneActive;
      raised := minutes <= 0 || !LongEnough(secret);
      if raised {
        return;
      }
      var e := Enrollment(worker, Digest(secret), name, host, labels, now + minutes * MINUTE, false);
      if replacePending {
        RemovePending(worker);
      }
      enrollments := enrollments[e.secret := e];
    }

    method RemovePending(worker: string)
      modifies this`enrollments
      ensures enrollments == KeptPending(old(enrollments), worker)
    {
      var todo := enrollments.Keys;
      ghost var all := enrollments;
      while todo != {}
        invariant todo <= all.Keys
        invariant enrollments == map d | d in all && (d in todo || !(all[d].worker == worker && !all[d].used)) :: all[d]
        decreases |todo|
      {
        var d :| d in todo;
        if enrollments[d].worker == worker && !enrollments[d].used {
          enrollments := enrollments - {d};
        }
        todo := todo - {d};
      }
    }

    method Complete(secret: Secret, version: string, labels: Labels, now: int) returns (r: Answer<Grant>)
      requires Valid()
      modifies this`credentials, this`enrollments
      ensures Valid() && View() == Next(old(View()), Step.Complete(secret, version, labels, now))
      ensures r.Returned? <==> Completable(old(View()), Digest(secret), version, now)
      ensures r.Returned? ==> var e := old(enrollments)[Digest(secret)];
        r.value == Grant(e.worker, Following(old(credentials), e.worker, version).value, e.name, e.host, OrLabels(labels, e.labels))
    {
      hide OneActive, Replaced, Following;
      var d := Digest(secret);
      if d !in enrollments || enrollments[d].used || enrollments[d].expires < now {
        return Raised;
      }
      var e := enrollments[d];
      ReplacedWhenRaised(credentials, e.worker, version, d, now);
      var issued := Issue(e.worker, version, d, now);
      if issued.None? {
        return Raised;
      }
      enrollments := enrollments[d := e.(used := true)];
      return Returned(Grant(e.worker, issued.value, e.name, e.host, OrLabels(labels, e.labels)));
    }

    method CompleteV2(secret: Secret, attempt: string, credential: Secret, labels: Labels, now: int) returns (r: Answer<Grant>)
      requires Valid()
      modifies this`credentials, this`enrollments, this`attempts
      ensures Valid() && View() == Next(old(View()), Step.CompleteV2(secret, attempt, credential, labels, now))
      ensures r == match AnswerV2(old(View()), Step.CompleteV2(secret, attempt, credential, labels, now))
                   case Some(grant) => Returned(grant)
                   case None => Raised
    {
      hide OneActive, Replaced, Following, V2Request;
      if !V2Request(secret, attempt, credential) {
        return Raised;
      }
      var d := Digest(secret);
      if d in attempts {
        var existing := attempts[d];
        if existing.id != attempt || existing.credential != Digest(credential) || d !in enrollments {
          return Raised;
        }
        return Returned(Grant(existing.worker, existing.version, enrollments[d].name, enrollments[d].host, existing.labels));
      }
      if d !in enrollments || enrollments[d].used || enrollments[d].expires < now {
        return Raised;
      }
      var e := enrollments[d];
      ReplacedWhenRaised(credentials, e.worker, "1", Digest(credential), now);
      var issued := Issue(e.worker, "1", Digest(credential), now);
      if issued.None? {
        return Raised;
      }
      var version := issued.value;
      enrollments := enrollments[d := e.(used := true)];
      attempts := attempts[d := Attempt(attempt, Digest(credential), e.worker, version, OrLabels(labels, e.labels))];
      return Returned(Grant(e.worker, version, e.name, e.host, OrLabels(labels, e.labels)));
    }

    method Rotate(worker: string, secret: Secret, now: int) returns (r: Answer<string>)
      requires Valid()
      modifies this`credentials
      ensures Valid() && View() == Next(old(View()), Step.Rotate(worker, secret, now))
      ensures r == if LongEnough(secret) && Following(old(credentials), worker, "1").Some?
                   then Returned(Following(old(credentials), worker, "1").value) else Raised
    {
      hide OneActive, Replaced, Following;
      if !LongEnough(secret) {
        return Raised;
      }
      var version := Issue(worker, "1", Digest(secret), now);
      return if version.Some? then Returned(version.value) else Raised;
    }

    method Revoke(worker: string, which: Option<string>, now: int) returns (raised: bool)
      requires Valid()
      modifies this`credentials
      ensures Valid() && View() == Next(old(View()), Step.Revoke(worker, which, now))
      ensures raised <==> if which.Some? && which.value != "" then (worker, which.value) !in old(credentials)
                          else !AnyActive(old(credentials), worker) || !Readable(old(credentials), worker)
    {
      hide OneActive, NextVersion;
      StepKeepsOne(View(), Step.Revoke(worker, which, now));
      var c: Option<Credential>;
      if which.Some? && which.value != "" {
        KeyedByWorker(credentials);
        c := if (worker, which.value) in credentials then Some(credentials[(worker, which.value)]) else None;
      } else {
        var current := Current(worker);
        if current.Raised? {
          return true;
        }
        c := current.value;
      }
      raised := c.None?;
      if !raised {
        RevokeOne(c.value, now);
      }
    }

    method RevokeAll(worker: string, now: int) returns (count: nat)
      requires Valid()
      modifies this`credentials
      ensures Valid() && View() == Next(old(View()), Step.RevokeAll(worker, now))
      ensures !AnyActive(credentials, worker) && count == |set k | k in old(credentials) && k.0 == worker && old(credentials)[k].active|
    {
      hide OneActive, Revoked;
      StepKeepsOne(View(), Step.RevokeAll(worker, now));
      ghost var before := credentials;
      var selected := set k | k in credentials && k.0 == worker && credentials[k].active;
      count := |selected|;
      RevokeSelected(selected, now);
      AllRevoked(before, selected, worker, now);
      assert credentials == map k | k in before :: if k.0 == worker && before[k].active then Revoked(before[k], now) else before[k];
    }

    method RevokeSelected(selected: set<Key>, now: int)
      requires selected <= credentials.Keys
      modifies this`credentials
      ensures credentials.Keys == old(credentials).Keys
      ensures forall k | k in credentials :: credentials[k] == if k in selected then Revoked(old(credentials)[k], now) else old(credentials)[k]
    {
      var todo := selected;
      ghost var before := credentials;
      while todo != {}
        invariant todo <= selected && credentials.Keys == before.Keys
        invariant forall k | k in before ::
          credentials[k] == if k in selected && k !in todo then Revoked(before[k], now) else before[k]
        decreases |todo|
      {
        var k :| k in todo;
        credentials := credentials[k := credentials[k].(active := false, revokedAt := Some(now))];
        todo := todo - {k};
      }
    }

    method DeleteWorker(worker: string)
      requires Valid()
      modifies this`credentials, this`enrollments, this`attempts
      ensures Valid() && View() == Next(old(View()), Step.DeleteWorker(worker))
    {
      StepKeepsOne(View(), Step.DeleteWorker(worker));
      credentials := map k | k in credentials && k.0 != worker :: credentials[k];
      var dropped := set d | d in enrollments && enrollments[d].worker == worker;
      enrollments, attempts := enrollments - dropped, attempts - dropped;
    }
  }
}
