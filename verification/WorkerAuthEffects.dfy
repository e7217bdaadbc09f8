/** What enrolling, completing, rotating and revoking do to a worker's credentials, and that an enrollment is used once. */
module WorkerAuthEffects {
  import opened Text
  import opened Decimal
  import opened WorkerAuth

  /** The worker's one active credential is this version, or none is. */
  ghost predicate OnlyActive(credentials: map<Key, Credential>, worker: string, version: Option<string>) {
    forall v :: ActiveAt(credentials, worker, v) <==> version == Some(v)
  }

  ghost predicate OtherWorkersSame(before: map<Key, Credential>, after: map<Key, Credential>, worker: string) {
    forall k: Key | k.0 != worker :: (k in after <==> k in before) && (k in before ==> after[k] == before[k])
  }

  /** An active record is revoked at `now`; an inactive one is as it was. */
  predicate RevokedFrom(before: Credential, after: Credential, now: int) {
    after.worker == before.worker && after.version == before.version && after.secret == before.secret && !after.active
    && after.revokedAt == if before.active then Some(now) else before.revokedAt
  }

  /** The worker's other records stay, revoked. */
  ghost predicate OthersRevoked(before: map<Key, Credential>, after: map<Key, Credential>, worker: string, version: string, now: int) {
    forall v | v != version :: ((worker, v) in after <==> (worker, v) in before)
      && ((worker, v) in before ==> RevokedFrom(before[(worker, v)], after[(worker, v)], now))
  }

  /** The version after one that is a number: the next number. */
  ghost predicate VersionFollows(before: map<Key, Credential>, worker: string, first: string, version: string) {
    && (forall v :: ActiveAt(before, worker, v) ==> ParseInt(v).Some? && ParseInt(version) == Some(ParseInt(v).value + 1))
    && ((forall v :: !ActiveAt(before, worker, v)) ==> version == first)
  }

  /** There is a next version exactly when this one is a number and the next number can be written and read. */
  lemma NextVersionIff(version: string)
    ensures NextVersion(version).Some? <==>
      ParseInt(version).Some? && ParseInt(RenderInt(ParseInt(version).value + 1)) == Some(ParseInt(version).value + 1)
    ensures NextVersion(version).Some? ==> ParseInt(NextVersion(version).value) == Some(ParseInt(version).value + 1)
  {
    hide ParseInt, Render;
    if ParseInt(version).Some? {
      var next := ParseInt(version).value + 1;
      if next < 0 {
        ParseIntNegative(-next);
      } else {
        ParseIntRender(next);
      }
    }
  }

  lemma FollowingFollows(credentials: map<Key, Credential>, worker: string, first: string)
    requires OneActive(credentials) && Following(credentials, worker, first).Some?
    ensures VersionFollows(credentials, worker, first, Following(credentials, worker, first).value)
  {
    hide ParseInt, NextVersion;
    var version := Following(credentials, worker, first).value;
    forall v | ActiveAt(credentials, worker, v)
      ensures ParseInt(v).Some? && ParseInt(version) == Some(ParseInt(v).value + 1)
    {
      assert v == CurrentVersion(credentials, worker);
      NextVersionIff(v);
    }
  }

  /** A new credential is the worker's only active one, under the version that follows, with the digest of the new secret;
      the one before it is revoked. */
  ghost predicate Issued(before: map<Key, Credential>, after: map<Key, Credential>, worker: string, first: string, version: string,
                         secret: Secret, now: int) {
    && OnlyActive(after, worker, Some(version)) && VersionFollows(before, worker, first, version)
    && after[(worker, version)].secret == Digest(secret) && after[(worker, version)].revokedAt.None?
    && OthersRevoked(before, after, worker, version, now) && OtherWorkersSame(before, after, worker)
  }

  lemma ReplacedIssues(credentials: map<Key, Credential>, worker: string, first: string, secret: Secret, now: int)
    requires OneActive(credentials) && Following(credentials, worker, first).Some?
    ensures Issued(credentials, Replaced(credentials, worker, first, Digest(secret), now), worker, first,
                   Following(credentials, worker, first).value, secret, now)
  {
    hide Following, VersionFollows;
    FollowingFollows(credentials, worker, first);
    ReplacedKeepsOne(credentials, worker, first, Digest(secret), now);
    var version := Following(credentials, worker, first).value;
    var after := Replaced(credentials, worker, first, Digest(secret), now);
    assert ActiveAt(after, worker, version);
    forall v | v != version
      ensures ((worker, v) in after <==> (worker, v) in credentials)
      ensures (worker, v) in credentials ==> RevokedFrom(credentials[(worker, v)], after[(worker, v)], now)
    {
      if ActiveAt(credentials, worker, v) {
        assert v == CurrentVersion(credentials, worker);
      }
    }
  }

  // Rotation and completion

  lemma RotateEffect(s: State, worker: string, secret: Secret, now: int)
    requires OneActive(s.credentials)
    ensures var after := Next(s, Rotate(worker, secret, now));
            && after.enrollments == s.enrollments && after.attempts == s.attempts
            && (|secret| < 32 || Following(s.credentials, worker, "1").None? ==> after == s)
            && (|secret| >= 32 && Following(s.credentials, worker, "1").Some? ==>
                  Issued(s.credentials, after.credentials, worker, "1", Following(s.credentials, worker, "1").value, secret, now))
  {
    hide Following, Issued, OneActive;
    ReplacedWhenRaised(s.credentials, worker, "1", Digest(secret), now);
    if Following(s.credentials, worker, "1").Some? {
      ReplacedIssues(s.credentials, worker, "1", secret, now);
    }
  }

  /** The enrollment can be used: it is there, was not used before, and has not run out. */
  predicate Open(s: State, d: Digest, now: int) {
    d in s.enrollments && !s.enrollments[d].used && now <= s.enrollments[d].expires
  }

  /** That enrollment is used up; it and all others are otherwise as they were. */
  ghost predicate UsedUp(before: State, after: State, d: Digest)
    requires d in before.enrollments
  {
    && after.enrollments.Keys == before.enrollments.Keys && after.enrollments[d].used
    && after.enrollments[d].(used := before.enrollments[d].used) == before.enrollments[d]
    && forall other | other in before.enrollments && other != d :: after.enrollments[other] == before.enrollments[other]
  }

  /** Completing works exactly on an open enrollment whose version can be counted: it issues the credential, with the
      enrollment's own secret, and uses the enrollment up. */
  lemma CompleteEffect(s: State, secret: Secret, version: string, labels: Labels, now: int)
    requires OneActive(s.credentials)
    ensures var after := Next(s, Complete(secret, version, labels, now)); var d := Digest(secret);
            && after.attempts == s.attempts
            && if Open(s, d, now) && Following(s.credentials, s.enrollments[d].worker, version).Some? then
                 var worker := s.enrollments[d].worker;
                 && Issued(s.credentials, after.credentials, worker, version, Following(s.credentials, worker, version).value, secret, now)
                 && UsedUp(s, after, d)
               else after == s
  {
    hide Following, Issued, OneActive, Replaced;
    var d := Digest(secret);
    if Open(s, d, now) {
      var worker := s.enrollments[d].worker;
      if Following(s.credentials, worker, version).Some? {
        ReplacedIssues(s.credentials, worker, version, secret, now);
      }
    }
  }

  /** 12 to 128 letters, digits and `.`, `_`, `:`, `-`. */
  predicate AttemptAllowed(attempt: string) {
    |attempt| >= 12 && |attempt| <= 128
    && forall i | 0 <= i < |attempt| ::
         attempt[i] in "._:-" || 'a' <= attempt[i] <= 'z' || 'A' <= attempt[i] <= 'Z' || '0' <= attempt[i] <= '9'
  }

  lemma AttemptIff(attempt: string)
    ensures AttemptId(attempt) <==> AttemptAllowed(attempt)
  {
    forall i | 0 <= i < |attempt|
      ensures attempt[i] in "._:-" <==> attempt[i] in {'.', '_', ':', '-'}
    {
      assert "._:-" == ['.', '_', ':', '-'];
    }
  }

  /** A first v2 completion issues the credential with the worker's own new secret, uses the enrollment up, and remembers the
      attempt; a repeated or refused one changes nothing. */
  lemma CompleteV2Effect(s: State, secret: Secret, attempt: string, credential: Secret, labels: Labels, now: int)
    requires OneActive(s.credentials)
    ensures var after := Next(s, CompleteV2(secret, attempt, credential, labels, now)); var d := Digest(secret);
            if |secret| >= 32 && |credential| >= 32 && AttemptAllowed(attempt) && d !in s.attempts && Open(s, d, now)
               && Following(s.credentials, s.enrollments[d].worker, "1").Some? then
              var worker := s.enrollments[d].worker; var version := Following(s.credentials, worker, "1").value;
              && Issued(s.credentials, after.credentials, worker, "1", version, credential, now) && UsedUp(s, after, d)
              && after.attempts.Keys == s.attempts.Keys + {d} && (forall other | other in s.attempts :: after.attempts[other] == s.attempts[other])
              && after.attempts[d].id == attempt && after.attempts[d].credential == Digest(credential)
              && after.attempts[d].worker == worker && after.attempts[d].version == version
              && after.attempts[d].labels == if labels == map[] then s.enrollments[d].labels else labels
            else after == s
  {
    hide Following, Issued, OneActive, Replaced, AttemptId, AttemptAllowed;
    AttemptIff(attempt);
    var d := Digest(secret);
    if Open(s, d, now) {
      var worker := s.enrollments[d].worker;
      if Following(s.credentials, worker, "1").Some? {
        ReplacedIssues(s.credentials, worker, "1", credential, now);
      }
    }
  }

  // Enrollment

  predicate Dropped(e: Enrollment, step: Step)
    requires step.Enroll?
  {
    step.replacePending && e.worker == step.worker && !e.used
  }

  /** A new enrollment is open until its minutes are over; with `replacePending` the worker's other open ones are dropped. */
  lemma EnrollEffect(s: State, step: Step)
    requires step.Enroll?
    ensures var after := Next(s, step); var d := Digest(step.secret);
            && after.credentials == s.credentials && after.attempts == s.attempts
            && if step.minutes > 0 && |step.secret| >= 32 then
                 && (forall now :: Open(after, d, now) <==> now <= step.now + 60 * step.minutes)
                 && d in after.enrollments && after.enrollments[d].worker == step.worker && after.enrollments[d].name == step.name
                 && after.enrollments[d].host == step.host && after.enrollments[d].labels == step.labels
                 && forall other | other != d ::
                      && (other in after.enrollments <==> other in s.enrollments && !Dropped(s.enrollments[other], step))
                      && (other in after.enrollments ==> after.enrollments[other] == s.enrollments[other])
               else after == s
  {
  }

  // An enrollment is used once

  predicate Spent(s: State, d: Digest) {
    d in s.enrollments ==> s.enrollments[d].used
  }

  lemma StepKeepsSpent(s: State, step: Step, d: Digest)
    requires Spent(s, d) && !(step.Enroll? && Digest(step.secret) == d)
    ensures Spent(Next(s, step), d) && (d !in s.attempts ==> d !in Next(s, step).attempts)
  {
    hide Replaced, RevokeCurrent, Following, V2Request;
  }

  lemma {:induction false} RunKeepsSpent(s: State, steps: seq<Step>, d: Digest)
    requires Spent(s, d) && forall i | 0 <= i < |steps| :: !(steps[i].Enroll? && Digest(steps[i].secret) == d)
    ensures Spent(Run(s, steps), d) && (d !in s.attempts ==> d !in Run(s, steps).attempts)
    decreases |steps|
  {
    hide Next, Spent;
    if steps != [] {
      StepKeepsSpent(s, steps[0], d);
      RunKeepsSpent(Next(s, steps[0]), steps[1..], d);
    }
  }

  lemma SpentRefuses(s: State, again: Step)
    requires (again.Complete? || (again.CompleteV2? && Digest(again.secret) !in s.attempts)) && Spent(s, Digest(again.secret))
    ensures Next(s, again) == s
    ensures again.Complete? ==> !Completable(s, Digest(again.secret), again.version, again.now)
    ensures again.CompleteV2? ==> AnswerV2(s, again).None?
  {
    hide V2Request, Following;
  }

  lemma FirstSpends(s: State, first: Step)
    requires first.Complete? ==> Completable(s, Digest(first.secret), first.version, first.now)
    requires first.CompleteV2? ==> AnswerV2(s, first).Some? && Digest(first.secret) !in s.attempts
    requires first.Complete? || first.CompleteV2?
    ensures Spent(Next(s, first), Digest(first.secret))
    ensures first.Complete? ==> Next(s, first).attempts == s.attempts
  {
    hide Replaced, Following, V2Request;
  }

  /** After a completion and any run that does not enroll the secret again, completing with it is refused and changes nothing:
      in the old way always, in the new way when the first was in the old way and no attempt was remembered. */
  lemma EnrollmentIsUsedOnce(s: State, first: Step, steps: seq<Step>, again: Step)
    requires first.Complete? || first.CompleteV2?
    requires first.Complete? ==> Completable(s, Digest(first.secret), first.version, first.now)
    requires first.CompleteV2? ==> AnswerV2(s, first).Some? && Digest(first.secret) !in s.attempts
    requires forall i | 0 <= i < |steps| :: !(steps[i].Enroll? && Digest(steps[i].secret) == Digest(first.secret))
    requires again.Complete? || (again.CompleteV2? && first.Complete? && Digest(first.secret) !in s.attempts)
    requires again.secret == first.secret
    ensures var end := Run(Next(s, first), steps);
            && Next(end, again) == end
            && (again.Complete? ==> !Completable(end, Digest(again.secret), again.version, again.now))
            && (again.CompleteV2? ==> AnswerV2(end, again).None?)
  {
    hide Next, Spent, Completable, AnswerV2, Run;
    FirstSpends(s, first);
    RunKeepsSpent(Next(s, first), steps, Digest(first.secret));
    SpentRefuses(Run(Next(s, first), steps), again);
  }

  // Revoking

  /** Without a version the current credential is revoked; with one, that record, whatever it was. */
  lemma RevokeEffect(s: State, worker: string, which: Option<string>, now: int)
    requires OneActive(s.credentials)
    ensures var after := Next(s, Revoke(worker, which, now));
            && after.enrollments == s.enrollments && after.attempts == s.attempts && after.credentials.Keys == s.credentials.Keys
            && OtherWorkersSame(s.credentials, after.credentials, worker)
            && if which.Some? && which.value != "" then
                 forall v | (worker, v) in s.credentials ::
                   if v == which.value then after.credentials[(worker, v)] == s.credentials[(worker, v)].(active := false, revokedAt := Some(now))
                   else after.credentials[(worker, v)] == s.credentials[(worker, v)]
               else if Readable(s.credentials, worker) then
                 forall v | (worker, v) in s.credentials :: RevokedFrom(s.credentials[(worker, v)], after.credentials[(worker, v)], now)
               else after == s
  {
    hide Readable;
    if which.None? || which.value == "" {
      forall v | (worker, v) in s.credentials && s.credentials[(worker, v)].active
        ensures AnyActive(s.credentials, worker) && v == CurrentVersion(s.credentials, worker)
      {
        assert ActiveAt(s.credentials, worker, v);
      }
    }
  }

  /** Every credential of the worker is revoked, none of another. */
  lemma RevokeAllEffect(s: State, worker: string, now: int)
    requires OneActive(s.credentials)
    ensures var after := Next(s, RevokeAll(worker, now));
            && after.enrollments == s.enrollments && after.attempts == s.attempts && after.credentials.Keys == s.credentials.Keys
            && OtherWorkersSame(s.credentials, after.credentials, worker)
            && forall v | (worker, v) in s.credentials :: RevokedFrom(s.credentials[(worker, v)], after.credentials[(worker, v)], now)
  {
  }

  /** Nothing of the worker's credentials and enrollments is left, nor attempts on its enrollments; all else stays. */
  lemma DeleteEffect(s: State, worker: string)
    ensures var after := Next(s, DeleteWorker(worker));
            && OtherWorkersSame(s.credentials, after.credentials, worker) && (forall v :: (worker, v) !in after.credentials)
            && (forall d :: d in after.enrollments <==> d in s.enrollments && s.enrollments[d].worker != worker)
            && (forall d | d in after.enrollments :: after.enrollments[d] == s.enrollments[d])
            && (forall d :: d in after.attempts <==> d in s.attempts && !(d in s.enrollments && s.enrollments[d].worker == worker))
            && (forall d | d in after.attempts :: after.attempts[d] == s.attempts[d])
  {
  }
}
