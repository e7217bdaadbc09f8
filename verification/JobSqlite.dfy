/** The SQLite job repository: rows with text times, read first and then changed by guarded UPDATEs. */
module JobSqlite {
  import opened Text
  import opened LogBound
  import opened Moments
  import opened IsoText
  import opened JobSpec
  import opened Ordering

  datatype Row = Row(worker: string, command: string, target: Option<string>, requestedBy: string, status: Status,
                     owner: Option<string>, token: Option<string>, issued: Option<string>, expires: Option<string>,
                     attempts: nat, summary: Summary, log: seq<string>,
                     submitted: string, started: Option<string>, finished: Option<string>, updated: string)

  /** A text that `isoformat()` wrote. */
  predicate Stamp(text: string) {
    FromIso(text).Some? && Iso(FromIso(text).value) == text
  }

  predicate MaybeStamp(text: Option<string>) {
    text.Some? ==> Stamp(text.value)
  }

  predicate WellFormed(r: Row) {
    MaybeStamp(r.issued) && MaybeStamp(r.expires) && Stamp(r.submitted) && MaybeStamp(r.started) && MaybeStamp(r.finished) && Stamp(r.updated)
  }

  function Time(text: string): Moment
    requires Stamp(text)
  {
    FromIso(text).value
  }

  function MaybeTime(text: Option<string>): Option<int>
    requires MaybeStamp(text)
  {
    if text.Some? then Some(Time(text.value)) else None
  }

  /** The job a row stands for. */
  function Decode(r: Row): Job
    requires WellFormed(r)
  {
    Job(r.worker, r.command, r.target, r.requestedBy, r.status, r.owner, r.token, MaybeTime(r.issued), MaybeTime(r.expires),
        r.attempts, r.summary, r.log, Time(r.submitted), MaybeTime(r.started), MaybeTime(r.finished), Time(r.updated))
  }

  predicate MaybeInRange(t: Option<int>) {
    t.Some? ==> InRange(t.value)
  }

  /** Every time of the job is one a `datetime` can hold. */
  predicate Representable(j: Job) {
    MaybeInRange(j.issued) && MaybeInRange(j.expires) && InRange(j.submitted) && MaybeInRange(j.started) && MaybeInRange(j.finished)
    && InRange(j.updated)
  }

  function MaybeIso(t: Option<int>): Option<string>
    requires MaybeInRange(t)
  {
    if t.Some? then Some(Iso(t.value)) else None
  }

  /** The row `save` writes for a job. */
  function Encode(j: Job): Row
    requires Representable(j)
  {
    hide Iso;
    Row(j.worker, j.command, j.target, j.requestedBy, j.status, j.owner, j.token, MaybeIso(j.issued), MaybeIso(j.expires),
        j.attempts, j.summary, j.log, Iso(j.submitted), MaybeIso(j.started), MaybeIso(j.finished), Iso(j.updated))
  }

  lemma MaybeIsoStamps(t: Option<int>)
    requires MaybeInRange(t)
    ensures MaybeStamp(MaybeIso(t)) && MaybeTime(MaybeIso(t)) == t
  {
    hide Stamp, Time, Iso;
    if t.Some? {
      IsoStamps(t.value);
    }
  }

  lemma EncodeDecodes(j: Job)
    requires Representable(j)
    ensures WellFormed(Encode(j)) && Decode(Encode(j)) == j
  {
    hide Stamp, Time, Iso, MaybeStamp, MaybeTime, MaybeIso;
    IsoStamps(j.submitted);
    IsoStamps(j.updated);
    MaybeIsoStamps(j.issued);
    MaybeIsoStamps(j.expires);
    MaybeIsoStamps(j.started);
    MaybeIsoStamps(j.finished);
  }

  lemma IsoStamps(t: Moment)
    ensures Stamp(Iso(t)) && Time(Iso(t)) == t
  {
    hide FromIso, Iso;
    IsoRoundTrip(t);
  }

  lemma StampOrder(a: string, b: string)
    requires Stamp(a) && Stamp(b)
    ensures Less(a, b) <==> Time(a) < Time(b)
  {
    hide FromIso, Iso, Less;
    IsoOrder(Time(a), Time(b));
  }

  /** The `WHERE` clause as SQLite evaluates it, comparing times as text. */
  predicate RowGuard(r: Row, worker: string, token: Option<string>, now: string) {
    && r.status == InProgress && r.owner == Some(worker) && r.token.Some? && r.token == token
    && r.expires.Some? && Less(now, r.expires.value)
  }

  /** Text comparison in the guard decides exactly as the comparison of times. */
  lemma RowGuardIsGuard(r: Row, worker: string, token: Option<string>, now: Moment)
    requires WellFormed(r)
    ensures RowGuard(r, worker, token, Iso(now)) <==> Guard(Decode(r), worker, token, now)
  {
    hide Stamp, Time, Iso, Less;
    IsoStamps(now);
    if r.expires.Some? {
      StampOrder(Iso(now), r.expires.value);
    }
  }

  // What the guarded statements do to the abstract map

  function GuardedRenew(jobs: Jobs, id: string, worker: string, token: Option<string>, now: int, seconds: int): Jobs {
    if id in jobs && Guard(jobs[id], worker, token, now) then jobs[id := RenewOne(jobs[id], now, seconds)] else jobs
  }

  /** A report that is not newer is answered before the UPDATE, with the row as it is. */
  function GuardedProgress(jobs: Jobs, id: string, worker: string, token: Option<string>, sequence: int, progress: string,
                           lines: seq<string>, now: int): Jobs {
    if id in jobs && Guard(jobs[id], worker, token, now)
    then jobs[id := ProgressOne(jobs[id], sequence, progress, lines, now)] else jobs
  }

  predicate ProgressAnswered(j: Job, worker: string, token: Option<string>, sequence: int, now: int) {
    Holds(j, worker, token, now) && (sequence <= j.summary.sequence || Guard(j, worker, token, now))
  }

  /** Both repositories do the same to a map of leased jobs, and answer the same. */
  lemma RepositoriesAgree(jobs: Jobs, id: string, worker: string, token: Option<string>, sequence: int, progress: string,
                          lines: seq<string>, now: int, seconds: int)
    requires id in jobs ==> Leased(jobs[id])
    ensures GuardedRenew(jobs, id, worker, token, now, seconds) == Renew(jobs, id, worker, token, now, seconds)
    ensures GuardedProgress(jobs, id, worker, token, sequence, progress, lines, now)
         == Progress(jobs, id, worker, token, sequence, progress, lines, now)
    ensures id in jobs ==> (Guard(jobs[id], worker, token, now) <==> Holds(jobs[id], worker, token, now))
    ensures id in jobs ==> (ProgressAnswered(jobs[id], worker, token, sequence, now) <==> Holds(jobs[id], worker, token, now))
  {
    hide Guard, Holds, Leased;
    if id in jobs {
      GuardAgreesWhenLeased(jobs[id], worker, token, now);
    }
  }

  /** The two repositories answer a renewal differently exactly when a missing token meets an empty one, and a progress report
      exactly when it is new besides. */
  lemma RepositoriesDifferIff(j: Job, worker: string, token: Option<string>, sequence: int, now: int)
    ensures (Holds(j, worker, token, now) <==> Guard(j, worker, token, now))
       <==> !(Holds(j, worker, token, now) && OrEmpty(j.token) == "" && (j.token.None? || token.None?))
    ensures (Holds(j, worker, token, now) <==> ProgressAnswered(j, worker, token, sequence, now))
       <==> !(Holds(j, worker, token, now) && OrEmpty(j.token) == "" && (j.token.None? || token.None?) && j.summary.sequence < sequence)
  {
    hide Holds, Guard, OrEmpty;
    if Holds(j, worker, token, now) {
      GuardDisagreesIff(j, worker, token, now);
    } else {
      GuardIsStricter(j, worker, token, now);
    }
  }

  datatype Answer = Raised | Refused | Saved(job: Job)

  class SQLiteJobRepository {
    var rows: map<string, Row>

    ghost predicate Valid()
      reads this
    {
      forall id | id in rows :: WellFormed(rows[id])
    }

    ghost function Contents(): Jobs
      reads this
      requires Valid()
    {
      map id | id in rows :: Decode(rows[id])
    }

    constructor ()
      ensures Valid() && Contents() == map[]
    {
      rows := map[];
    }

    /** INSERT OR REPLACE: the saved job is the one under its id, and no other row changes. */
    method Save(id: string, j: Job)
      requires Valid() && Representable(j)
      modifies this
      ensures Valid() && Contents() == old(Contents())[id := j]
    {
      hide WellFormed, Decode, Encode, Representable;
      EncodeDecodes(j);
      rows := rows[id := Encode(j)];
    }

    /** UPDATE ... WHERE id, status, owner, token and expiry still match. */
    method UpdateGuarded(id: string, worker: string, token: Option<string>, now: string, row: Row) returns (count: nat)
      modifies this
      ensures id in old(rows) && RowGuard(old(rows)[id], worker, token, now) ==> count == 1 && rows == old(rows)[id := row]
      ensures !(id in old(rows) && RowGuard(old(rows)[id], worker, token, now)) ==> count == 0 && rows == old(rows)
    {
      count := 0;
      if id in rows && RowGuard(rows[id], worker, token, now) {
        rows := rows[id := row];
        count := 1;
      }
    }

    /** UPDATE ... WHERE id and status still match. */
    method UpdateInStatus(id: string, status: Status, row: Row) returns (count: nat)
      modifies this
      ensures id in old(rows) && old(rows)[id].status == status ==> count == 1 && rows == old(rows)[id := row]
      ensures !(id in old(rows) && old(rows)[id].status == status) ==> count == 0 && rows == old(rows)
    {
      count := 0;
      if id in rows && rows[id].status == status {
        rows := rows[id := row];
        count := 1;
      }
    }

    /** One selected row of the reconcile loop. */
    method ReconcileRow(id: string, row: Row, now: Moment) returns (count: nat)
      requires Valid() && id in rows && rows[id] == row && row.status == InProgress && row.expires.Some?
      modifies this
      ensures Valid() && id in rows && rows == old(rows)[id := rows[id]]
      ensures Reconciled(row, rows[id], now) && count == if ExpiredRow(row, now) then 1 else 0
    {
      hide Stamp, Time, WellFormed, Decode, Expired, Interrupt, InterruptedRow;
      RowExpired(row, now);
      if Time(row.expires.value) > now {
        return 0;
      }
      RowInterrupted(row, now);
      count := UpdateInStatus(id, InProgress, InterruptedRow(row, now));
    }

    /** The reconcile loop over the selected rows, in whatever order the query returned them. */
    method ReconcileRows(ids: seq<string>, now: Moment) returns (reconciled: nat)
      requires Valid() && NoDuplicates(ids)
      requires forall id | id in ids :: id in rows && rows[id].status == InProgress && rows[id].expires.Some?
      modifies this
      ensures Valid() && ReconciledOnly(old(rows), rows, ids, now)
      ensures reconciled == |ExpiredAmong(old(rows), ids, now)|
    {
      hide WellFormed, Reconciled, ExpiredRow, ExpiredAmong, ReconciledOnly;
      reconciled := 0;
      var selected := rows;
      NoneReconciled(selected, now);
      for i := 0 to |ids|
        invariant Valid() && ReconciledOnly(selected, rows, ids[..i], now)
        invariant reconciled == |ExpiredAmong(selected, ids[..i], now)|
      {
        ghost var mid := rows;
        StillSelected(selected, rows, ids, i, now);
        var count := ReconcileRow(ids[i], selected[ids[i]], now);
        OneMoreReconciled(selected, mid, rows, ids, i, now);
        reconciled := reconciled + count;
      }
      assert ids[..|ids|] == ids;
    }

    method ReconcileLocked(now: Moment) returns (reconciled: nat)
      requires Valid()
      modifies this
      ensures Valid() && Contents() == Reconcile(old(Contents()), now)
      ensures reconciled == |ExpiredRows(old(rows), now)|
    {
      hide Decode, ReconcileOne, WellFormed, ExpiredRow, ReconciledOnly;
      ghost var before := rows;
      var running := SelectRunning();
      reconciled := ReconcileRows(running, now);
      AllReconciled(before, rows, running, now);
    }

    /** SELECT the running rows that have an expiry, in any order. */
    method SelectRunning() returns (ids: seq<string>)
      ensures NoDuplicates(ids) && forall id :: id in ids <==> id in rows && rows[id].status == InProgress && rows[id].expires.Some?
    {
      ids := [];
      var todo := set id | id in rows && rows[id].status == InProgress && rows[id].expires.Some?;
      ghost var all := todo;
      while todo != {}
        invariant todo <= all && NoDuplicates(ids) && forall id :: id in ids <==> id in all && id !in todo
        decreases |todo|
      {
        var id :| id in todo;
        ids, todo := ids + [id], todo - {id};
      }
    }

    /** SELECT the worker's pending jobs ORDER BY submitted_at; rows of equal text come in any order. */
    method SelectPending(worker: string) returns (ids: seq<string>)
      requires Valid()
      ensures NoDuplicates(ids) && forall id :: id in ids <==> id in rows && rows[id].worker == worker && rows[id].status == Pending
      ensures forall i, j | 0 <= i < j < |ids| :: !Less(rows[ids[j]].submitted, rows[ids[i]].submitted)
    {
      hide WellFormed, Less;
      ids := [];
      var todo := set id | id in rows && rows[id].worker == worker && rows[id].status == Pending;
      ghost var all := todo;
      while todo != {}
        invariant todo <= all && all <= rows.Keys && forall id :: id in ids <==> id in all && id !in todo
        invariant NoDuplicates(ids)
        invariant forall i, k | 0 <= i < |ids| && k in todo :: !Less(rows[k].submitted, rows[ids[i]].submitted)
        invariant forall i, j | 0 <= i < j < |ids| :: !Less(rows[ids[j]].submitted, rows[ids[i]].submitted)
        decreases |todo|
      {
        EarliestExists(rows, todo);
        var id :| id in todo && forall k | k in todo :: !Less(rows[k].submitted, rows[id].submitted);
        ids, todo := ids + [id], todo - {id};
      }
    }

    /** A lease that would end after year 9999 raises, and the transaction is rolled back. */
    method RenewLease(id: string, worker: string, token: Option<string>, seconds: int, now: Moment) returns (r: Answer)
      requires Valid()
      modifies this
      ensures Valid() && (r.Raised? ==> Contents() == old(Contents()))
      ensures r.Raised? <==>
        seconds <= 0 || (id in old(rows) && RenewHeld(old(Contents())[id], worker, token, now) && !InRange(now + seconds * SECOND))
      ensures !r.Raised? ==> Contents() == GuardedRenew(old(Contents()), id, worker, token, now, seconds)
      ensures !r.Raised? ==>
        r == if id in old(rows) && Guard(old(Contents())[id], worker, token, now) then Saved(Contents()[id]) else Refused
    {
      hide WellFormed, Decode, Guard, RowGuard, RenewOne, RenewCheck, RenewHeld, RenewedRow, Iso;
      if seconds <= 0 {
        return Raised;
      }
      if id !in rows {
        return Refused;
      }
      var row := rows[id];
      RowGuardIsGuard(row, worker, token, now);
      CheckBeforeGuard(row, worker, token, now);
      if !RenewCheck(row, worker, token, now) {
        return Refused;
      }
      if !InRange(now + seconds * SECOND) {
        return Raised;
      }
      RowRenewed(row, now, seconds);
      var count := UpdateGuarded(id, worker, token, Iso(now), RenewedRow(row, now, seconds));
      if count != 1 {
        return Refused;
      }
      return Saved(Decode(rows[id]));
    }

    method UpdateProgress(id: string, worker: string, token: Option<string>, sequence: int, progress: string, lines: seq<string>,
                          now: Moment) returns (r: Answer)
      requires Valid()
      modifies this
      ensures Valid() && Contents() == GuardedProgress(old(Contents()), id, worker, token, sequence, progress, lines, now)
      ensures r == if id in rows && ProgressAnswered(old(Contents())[id], worker, token, sequence, now) then Saved(Contents()[id]) else Refused
    {
      hide WellFormed, Decode, Guard, RowGuard, Holds, ProgressCheck, ProgressedRow, Bound, Iso;
      if id !in rows {
        return Refused;
      }
      var row := rows[id];
      RowGuardIsGuard(row, worker, token, now);
      CheckBeforeGuard(row, worker, token, now);
      if !ProgressCheck(row, worker, token, now) {
        return Refused;
      }
      RowProgressed(row, sequence, progress, lines, now);
      if sequence <= row.summary.sequence {
        return Saved(Decode(row));
      }
      var log := Trim(row.log + lines);
      var count := UpdateGuarded(id, worker, token, Iso(now), ProgressedRow(row, sequence, progress, log, now));
      if count != 1 {
        return Refused;
      }
      return Saved(Decode(rows[id]));
    }

    /** One selected row of the claim loop; the job handed back is built from the row as it was read. */
    method ClaimRow(id: string, row: Row, worker: string, token: string, now: Moment, seconds: int)
      returns (claimed: bool, job: Job)
      requires Valid() && InRange(now + seconds * SECOND) && WellFormed(row)
      modifies this
      ensures Valid() && claimed == (id in old(rows) && old(rows)[id].status == Pending)
      ensures rows == if claimed then old(rows)[id := ClaimedRow(row, worker, token, now, seconds)] else old(rows)
      ensures job == ClaimOne(Decode(row), worker, token, now, seconds)
    {
      hide WellFormed, Decode, ClaimedRow;
      RowClaimed(row, worker, token, now, seconds);
      var count := UpdateInStatus(id, Pending, ClaimedRow(row, worker, token, now, seconds));
      claimed := count == 1;
      job := Decode(row).(status := InProgress, owner := Some(worker), token := Some(token), issued := Some(now),
                          expires := Some(now + seconds * SECOND), attempts := Decode(row).attempts + 1, started := Some(now), updated := now);
    }

    method ClaimRows(ids: seq<string>, worker: string, seconds: int, now: Moment, draw: string -> string)
      returns (claimed: seq<Job>)
      requires Valid() && NoDuplicates(ids) && InRange(now + seconds * SECOND)
      requires forall id | id in ids :: id in rows && rows[id].status == Pending
      modifies this
      ensures Valid() && ClaimedOnly(old(rows), rows, ids, worker, now, seconds, draw)
      ensures |claimed| == |ids|
      ensures forall k | 0 <= k < |ids| :: claimed[k] == ClaimOne(Decode(old(rows)[ids[k]]), worker, draw(ids[k]), now, seconds)
    {
      hide WellFormed, Decode, ClaimedRow, ClaimedOnly, ClaimOne;
      claimed := [];
      var selected := rows;
      NoneClaimed(selected, worker, now, seconds, draw);
      for i := 0 to |ids|
        invariant Valid() && ClaimedOnly(selected, rows, ids[..i], worker, now, seconds, draw)
        invariant |claimed| == i
        invariant forall k | 0 <= k < i :: claimed[k] == ClaimOne(Decode(selected[ids[k]]), worker, draw(ids[k]), now, seconds)
      {
        ghost var mid := rows;
        StillPending(selected, rows, ids, i, worker, now, seconds, draw);
        var updated, job := ClaimRow(ids[i], selected[ids[i]], worker, draw(ids[i]), now, seconds);
        OneMoreClaimed(selected, mid, rows, ids, i, worker, now, seconds, draw);
        if !updated {
          continue;
        }
        claimed := claimed + [job];
      }
      assert ids[..|ids|] == ids;
    }

    method ClaimPending(worker: string, seconds: int, now: Moment, draw: string -> string)
      returns (raised: bool, claimed: seq<Job>, ghost ids: seq<string>)
      requires Valid()
      modifies this
      // A lease that would end after year 9999 raises, and the reconciling before it is rolled back.
      ensures Valid() && (raised <==> seconds <= 0 || !InRange(now + seconds * SECOND))
      ensures raised ==> Contents() == old(Contents()) && claimed == []
      ensures !raised ==> Contents() == Claim(old(Contents()), worker, now, seconds, draw)
      // Each claimed job once, as saved, in order of submission.
      ensures !raised ==> Lists(claimed, ids, Contents())
      ensures !raised ==> forall i, j | 0 <= i < j < |claimed| :: claimed[i].submitted <= claimed[j].submitted
      ensures !raised ==> HandsOut(old(Contents()), ids, worker, now)
    {
      hide WellFormed, Decode, ReconcileOne, Reconcile, Claim, HandsOut, ClaimedFrom, Claimable, ClaimOne, ClaimedOnly, Less;
      raised, claimed, ids := seconds <= 0, [], [];
      if raised {
        return;
      }
      var start := rows;
      var _ := ReconcileLocked(now);
      ghost var swept, sweptJobs := rows, Contents();
      var pending := SelectPending(worker);
      if !InRange(now + seconds * SECOND) {
        rows, raised := start, true;
        return;
      }
      ids := pending;
      claimed := ClaimRows(pending, worker, seconds, now, draw);
      AllClaimed(swept, rows, ids, worker, now, seconds, draw);
      ClaimAfterReconcile(old(Contents()), sweptJobs, Contents(), worker, now, seconds, draw);
      HandsOutAfterReconcile(old(Contents()), sweptJobs, ids, worker, now);
      forall k | 0 <= k < |ids|
        ensures claimed[k].submitted == Decode(swept[ids[k]]).submitted
      {
        ClaimKeepsSubmitted(Decode(swept[ids[k]]), worker, draw(ids[k]), now, seconds);
      }
      PendingInOrder(swept, ids);
    }
  }

  function ClaimedRow(r: Row, worker: string, token: string, now: Moment, seconds: int): Row
    requires InRange(now + seconds * SECOND)
  {
    r.(status := InProgress, owner := Some(worker), token := Some(token), issued := Some(Iso(now)),
       expires := Some(Iso(now + seconds * SECOND)), attempts := r.attempts + 1, started := Some(Iso(now)), updated := Iso(now))
  }

  lemma RowClaimed(r: Row, worker: string, token: string, now: Moment, seconds: int)
    requires WellFormed(r) && InRange(now + seconds * SECOND)
    ensures var c := ClaimedRow(r, worker, token, now, seconds);
            WellFormed(c) && Decode(c) == ClaimOne(Decode(r), worker, token, now, seconds)
  {
    hide Stamp, Time, Iso;
    IsoStamps(now);
    IsoStamps(now + seconds * SECOND);
  }

  ghost predicate ClaimedOnly(before: map<string, Row>, after: map<string, Row>, done: seq<string>, worker: string, now: Moment,
                              seconds: int, draw: string -> string)
    requires InRange(now + seconds * SECOND)
  {
    hide ClaimedRow;
    && before.Keys == after.Keys
    && (forall id | id in before && id !in done :: after[id] == before[id])
    && (forall id | id in before && id in done :: after[id] == ClaimedRow(before[id], worker, draw(id), now, seconds))
  }

  lemma NoneClaimed(rows: map<string, Row>, worker: string, now: Moment, seconds: int, draw: string -> string)
    requires InRange(now + seconds * SECOND)
    ensures ClaimedOnly(rows, rows, [], worker, now, seconds, draw)
  {
    hide ClaimedRow;
  }

  lemma StillPending(before: map<string, Row>, after: map<string, Row>, ids: seq<string>, i: nat, worker: string, now: Moment,
                     seconds: int, draw: string -> string)
    requires InRange(now + seconds * SECOND) && i < |ids| && NoDuplicates(ids) && ids[i] in before
    requires ClaimedOnly(before, after, ids[..i], worker, now, seconds, draw)
    ensures ids[i] in after && after[ids[i]] == before[ids[i]]
  {
    hide ClaimedRow;
    assert ids[i] !in ids[..i];
  }

  lemma OneMoreClaimed(before: map<string, Row>, mid: map<string, Row>, after: map<string, Row>, ids: seq<string>, i: nat,
                       worker: string, now: Moment, seconds: int, draw: string -> string)
    requires InRange(now + seconds * SECOND) && i < |ids| && NoDuplicates(ids) && ids[i] in before
    requires ClaimedOnly(before, mid, ids[..i], worker, now, seconds, draw)
    requires after == mid[ids[i] := ClaimedRow(before[ids[i]], worker, draw(ids[i]), now, seconds)]
    ensures ClaimedOnly(before, after, ids[..i + 1], worker, now, seconds, draw)
  {
    hide ClaimedRow;
    assert ids[i] !in ids[..i] && ids[..i + 1] == ids[..i] + [ids[i]];
  }

  lemma AllClaimed(swept: map<string, Row>, after: map<string, Row>, ids: seq<string>, worker: string, now: Moment, seconds: int,
                   draw: string -> string)
    requires InRange(now + seconds * SECOND) && forall id | id in swept :: WellFormed(swept[id])
    requires forall id :: id in ids <==> id in swept && swept[id].worker == worker && swept[id].status == Pending
    requires ClaimedOnly(swept, after, ids, worker, now, seconds, draw)
    ensures swept.Keys == after.Keys
    ensures forall id | id in swept :: WellFormed(after[id])
    ensures forall id | id in swept :: Decode(after[id]) == ClaimedFrom(Decode(swept[id]), worker, draw(id), now, seconds)
    ensures forall id | id in swept :: id in ids <==> Claimable(Decode(swept[id]), worker)
    ensures forall id | id in ids :: Decode(after[id]) == ClaimOne(Decode(swept[id]), worker, draw(id), now, seconds)
  {
    hide WellFormed, Decode, ClaimOne, ClaimedRow;
    forall id | id in swept
      ensures WellFormed(after[id]) && Decode(after[id]) == ClaimedFrom(Decode(swept[id]), worker, draw(id), now, seconds)
      ensures id in ids <==> Claimable(Decode(swept[id]), worker)
      ensures id in ids ==> Decode(after[id]) == ClaimOne(Decode(swept[id]), worker, draw(id), now, seconds)
    {
      RowClaimed(swept[id], worker, draw(id), now, seconds);
      DecodeFields(swept[id]);
    }
  }

  lemma ClaimKeepsSubmitted(j: Job, worker: string, token: string, now: int, seconds: int)
    ensures ClaimOne(j, worker, token, now, seconds).submitted == j.submitted
  {
  }

  lemma DecodeFields(r: Row)
    requires WellFormed(r)
    ensures Decode(r).worker == r.worker && Decode(r).status == r.status && Decode(r).submitted == Time(r.submitted)
  {
    hide Stamp, Time;
  }

  /** ORDER BY on the text is order by time. */
  lemma PendingInOrder(rows: map<string, Row>, ids: seq<string>)
    requires forall id | id in ids :: id in rows && WellFormed(rows[id])
    requires forall i, j | 0 <= i < j < |ids| :: !Less(rows[ids[j]].submitted, rows[ids[i]].submitted)
    ensures forall i, j | 0 <= i < j < |ids| :: Decode(rows[ids[i]]).submitted <= Decode(rows[ids[j]]).submitted
  {
    hide Stamp, Time, Less, Decode;
    forall i, j | 0 <= i < j < |ids|
      ensures Decode(rows[ids[i]]).submitted <= Decode(rows[ids[j]]).submitted
    {
      DecodeFields(rows[ids[i]]);
      DecodeFields(rows[ids[j]]);
      StampOrder(rows[ids[j]].submitted, rows[ids[i]].submitted);
    }
  }

  /** The check `renew_lease` makes on the row it read: tokens compared as they are. */
  predicate RenewCheck(r: Row, worker: string, token: Option<string>, now: Moment)
    requires WellFormed(r)
  {
    r.status == InProgress && r.owner == Some(worker) && r.token == token && r.expires.Some? && now < Time(r.expires.value)
  }

  /** The same check on the job the row stands for. */
  predicate RenewHeld(j: Job, worker: string, token: Option<string>, now: int) {
    j.status == InProgress && j.owner == Some(worker) && j.token == token && j.expires.Some? && now < j.expires.value
  }

  /** The check `update_progress` makes: a missing token counts as an empty one. */
  predicate ProgressCheck(r: Row, worker: string, token: Option<string>, now: Moment)
    requires WellFormed(r)
  {
    r.status == InProgress && r.owner == Some(worker) && OrEmpty(r.token) == OrEmpty(token) && r.expires.Some? && now < Time(r.expires.value)
  }

  lemma CheckBeforeGuard(r: Row, worker: string, token: Option<string>, now: Moment)
    requires WellFormed(r)
    ensures Guard(Decode(r), worker, token, now) ==> RenewCheck(r, worker, token, now)
    ensures RenewCheck(r, worker, token, now) <==> RenewHeld(Decode(r), worker, token, now)
    ensures ProgressCheck(r, worker, token, now) <==> Holds(Decode(r), worker, token, now)
    ensures Guard(Decode(r), worker, token, now) ==> Holds(Decode(r), worker, token, now)
  {
    hide Stamp, Time;
  }

  function RenewedRow(r: Row, now: Moment, seconds: int): Row
    requires InRange(now + seconds * SECOND)
  {
    r.(expires := Some(Iso(now + seconds * SECOND)), updated := Iso(now))
  }

  lemma RowRenewed(r: Row, now: Moment, seconds: int)
    requires WellFormed(r) && InRange(now + seconds * SECOND)
    ensures WellFormed(RenewedRow(r, now, seconds)) && Decode(RenewedRow(r, now, seconds)) == RenewOne(Decode(r), now, seconds)
  {
    hide Stamp, Time, Iso;
    IsoStamps(now);
    IsoStamps(now + seconds * SECOND);
  }

  function ProgressedRow(r: Row, sequence: int, progress: string, log: seq<string>, now: Moment): Row {
    r.(summary := r.summary.(sequence := sequence, progress := Some(progress)), log := log, updated := Iso(now))
  }

  lemma RowProgressed(r: Row, sequence: int, progress: string, lines: seq<string>, now: Moment)
    requires WellFormed(r)
    ensures Decode(r).summary == r.summary && WellFormed(ProgressedRow(r, sequence, progress, Bound(r.log + lines), now))
    ensures sequence > r.summary.sequence ==>
      Decode(ProgressedRow(r, sequence, progress, Bound(r.log + lines), now)) == ProgressOne(Decode(r), sequence, progress, lines, now)
  {
    hide Stamp, Time, Iso, Bound;
    IsoStamps(now);
  }

  predicate ExpiredRow(r: Row, now: int) {
    hide WellFormed, Decode, Expired;
    WellFormed(r) && Expired(Decode(r), now)
  }

  predicate Reconciled(before: Row, after: Row, now: int) {
    hide WellFormed, Decode, ReconcileOne;
    WellFormed(before) && WellFormed(after) && Decode(after) == ReconcileOne(Decode(before), now)
  }

  ghost function ExpiredRows(rows: map<string, Row>, now: int): set<string> {
    hide ExpiredRow;
    set id | id in rows && ExpiredRow(rows[id], now)
  }

  ghost function ExpiredAmong(rows: map<string, Row>, ids: seq<string>, now: int): set<string> {
    hide ExpiredRow;
    set id | id in ids && id in rows && ExpiredRow(rows[id], now)
  }

  ghost predicate ReconciledOnly(before: map<string, Row>, after: map<string, Row>, done: seq<string>, now: int) {
    hide Reconciled;
    && before.Keys == after.Keys
    && (forall id | id in before && id !in done :: after[id] == before[id])
    && (forall id | id in before && id in done :: Reconciled(before[id], after[id], now))
  }

  ghost predicate ReconciledAll(before: map<string, Row>, after: map<string, Row>, now: int) {
    hide Reconciled;
    before.Keys == after.Keys && forall id | id in before :: Reconciled(before[id], after[id], now)
  }

  lemma NoneReconciled(rows: map<string, Row>, now: int)
    ensures ReconciledOnly(rows, rows, [], now) && ExpiredAmong(rows, [], now) == {}
  {
  }

  lemma StillSelected(before: map<string, Row>, after: map<string, Row>, ids: seq<string>, i: nat, now: int)
    requires i < |ids| && NoDuplicates(ids) && ReconciledOnly(before, after, ids[..i], now) && ids[i] in before
    ensures ids[i] in after && after[ids[i]] == before[ids[i]]
  {
    hide Reconciled;
    assert ids[i] !in ids[..i];
  }

  lemma OneMoreReconciled(before: map<string, Row>, mid: map<string, Row>, after: map<string, Row>, ids: seq<string>, i: nat, now: int)
    requires i < |ids| && NoDuplicates(ids) && ReconciledOnly(before, mid, ids[..i], now) && ids[i] in before
    requires ids[i] in after && after == mid[ids[i] := after[ids[i]]] && Reconciled(before[ids[i]], after[ids[i]], now)
    ensures ReconciledOnly(before, after, ids[..i + 1], now)
    ensures |ExpiredAmong(before, ids[..i + 1], now)| == |ExpiredAmong(before, ids[..i], now)| + if ExpiredRow(before[ids[i]], now) then 1 else 0
  {
    hide Reconciled, ExpiredRow;
    assert ids[i] !in ids[..i] && ids[..i + 1] == ids[..i] + [ids[i]];
    assert ExpiredAmong(before, ids[..i + 1], now)
      == ExpiredAmong(before, ids[..i], now) + if ExpiredRow(before[ids[i]], now) then {ids[i]} else {};
  }

  /** Rows outside the selection have not expired, so the loop reconciled the whole table. */
  lemma AllReconciled(before: map<string, Row>, after: map<string, Row>, running: seq<string>, now: int)
    requires ReconciledOnly(before, after, running, now) && forall id | id in before :: WellFormed(before[id])
    requires forall id :: id in running <==> id in before && before[id].status == InProgress && before[id].expires.Some?
    ensures ReconciledAll(before, after, now) && ExpiredAmong(before, running, now) == ExpiredRows(before, now)
  {
    hide WellFormed, Decode, Expired, Interrupt;
    forall id | id in before
      ensures Reconciled(before[id], after[id], now) && (ExpiredRow(before[id], now) ==> id in running)
    {
      RowExpired(before[id], now);
    }
  }

  /** The columns written when a lease has expired. */
  function InterruptedRow(row: Row, now: Moment): Row {
    row.(status := Failed, owner := None, token := None, issued := None, expires := None,
         summary := row.summary.(error := OrDefault(row.summary.error, ExpiredError()), recovery := Some(InterruptedRecovery())),
         log := if InterruptionLine() in row.log then row.log else row.log + [InterruptionLine()],
         finished := Some(Iso(now)), updated := Iso(now))
  }

  lemma RowInterrupted(row: Row, now: Moment)
    requires WellFormed(row)
    ensures WellFormed(InterruptedRow(row, now)) && Decode(InterruptedRow(row, now)) == Interrupt(Decode(row), now)
  {
    hide Stamp, Time, Iso, InterruptionLine, ExpiredError, InterruptedRecovery;
    IsoStamps(now);
  }

  lemma RowExpired(row: Row, now: int)
    requires WellFormed(row)
    ensures row.expires.Some? ==> Stamp(row.expires.value)
    ensures Expired(Decode(row), now) <==> row.status == InProgress && row.expires.Some? && Time(row.expires.value) <= now
  {
    hide Stamp, Time;
  }

  lemma {:induction false} EarliestExists(rows: map<string, Row>, ids: set<string>)
    requires ids != {} && forall id | id in ids :: id in rows && WellFormed(rows[id])
    ensures exists id :: id in ids && forall k | k in ids :: !Less(rows[k].submitted, rows[id].submitted)
    decreases |ids|
  {
    hide Less, Stamp, Time;
    var x :| x in ids;
    var rest := ids - {x};
    forall a, b | a in ids && b in ids
      ensures Less(rows[a].submitted, rows[b].submitted) <==> Time(rows[a].submitted) < Time(rows[b].submitted)
    {
      StampOrder(rows[a].submitted, rows[b].submitted);
    }
    if rest == {} {
      assert ids == {x};
    } else {
      EarliestExists(rows, rest);
      var y :| y in rest && forall k | k in rest :: !Less(rows[k].submitted, rows[y].submitted);
      var first := if Time(rows[x].submitted) < Time(rows[y].submitted) then x else y;
      assert forall k | k in ids :: k == x || k in rest;
      assert forall k | k in ids :: !Less(rows[k].submitted, rows[first].submitted);
    }
  }
}
