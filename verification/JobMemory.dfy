/** The in-memory job repository: records held in an insertion-ordered dictionary and updated in place. */
module JobMemory {
  import opened Text
  import opened LogBound
  import opened JobSpec
  import opened Moments
  import opened Ordering

  class JobRecord {
    const id: string
    const worker: string
    const command: string
    const target: Option<string>
    const requestedBy: string
    const submitted: int
    var status: Status
    var owner: Option<string>
    var token: Option<string>
    var issued: Option<int>
    var expires: Option<int>
    var attempts: nat
    var summary: Summary
    var log: seq<string>
    var started: Option<int>
    var finished: Option<int>
    var updated: int

    constructor (id: string, j: Job)
      ensures Value() == j && this.id == id
    {
      this.id, worker, command, target, requestedBy, submitted := id, j.worker, j.command, j.target, j.requestedBy, j.submitted;
      status, owner, token, issued, expires := j.status, j.owner, j.token, j.issued, j.expires;
      attempts, summary, log, started, finished, updated := j.attempts, j.summary, j.log, j.started, j.finished, j.updated;
    }

    ghost function Value(): Job
      reads this
    {
      Job(worker, command, target, requestedBy, status, owner, token, issued, expires, attempts, summary, log,
          submitted, started, finished, updated)
    }

    /** The condition the repository checks before renewing or updating progress. */
    method CheckLease(worker: string, token: Option<string>, now: int) returns (held: bool)
      ensures held <==> Holds(Value(), worker, token, now)
    {
      held := status == InProgress && owner == Some(worker) && OrEmpty(this.token) == OrEmpty(token) && expires.Some? && now < expires.value;
    }

    method HasExpired(now: int) returns (expired: bool)
      ensures expired <==> Expired(Value(), now)
    {
      expired := status == InProgress && expires.Some? && expires.value <= now;
    }

    method InterruptAt(now: int)
      modifies this
      ensures Value() == Interrupt(old(Value()), now)
    {
      hide InterruptionLine, ExpiredError, InterruptedRecovery;
      summary := summary.(error := OrDefault(summary.error, ExpiredError()),
                          recovery := Some(InterruptedRecovery()));
      status := Failed;
      owner := None;
      token := None;
      issued := None;
      expires := None;
      if InterruptionLine() !in log {
        log := log + [InterruptionLine()];
      }
      finished := Some(now);
      updated := now;
    }

    method IsClaimable(worker: string) returns (claimable: bool)
      ensures claimable <==> Claimable(Value(), worker)
    {
      claimable := this.worker == worker && status == Pending;
    }

    method ClaimAt(worker: string, token: string, now: int, seconds: int)
      modifies this
      ensures Value() == ClaimOne(old(Value()), worker, token, now, seconds)
    {
      status := InProgress;
      owner := Some(worker);
      this.token := Some(token);
      issued := Some(now);
      expires := Some(now + seconds * SECOND);
      attempts := attempts + 1;
      started := Some(now);
      updated := now;
    }

    method RenewAt(now: int, seconds: int)
      modifies this
      ensures Value() == RenewOne(old(Value()), now, seconds)
    {
      expires := Some(now + seconds * SECOND);
      updated := now;
    }

    method ProgressAt(sequence: int, progress: string, lines: seq<string>, now: int)
      modifies this
      ensures Value() == ProgressOne(old(Value()), sequence, progress, lines, now)
    {
      if sequence <= summary.sequence {
        return;
      }
      summary := summary.(progress := Some(progress), sequence := sequence);
      log := Trim(log + lines);
      updated := now;
    }
  }

  /** ValueError, None, or the record. */
  datatype Outcome = Raised | Refused | Done(record: JobRecord)

  class InMemoryJobRepository {
    var items: map<string, JobRecord>
    /** Insertion order of the dictionary. */
    var order: seq<string>

    ghost predicate Valid()
      reads this, items.Values
    {
      && NoDuplicates(order) && (forall id :: id in order <==> id in items)
      && (forall id | id in items :: items[id].id == id)
    }

    ghost function Contents(): Jobs
      reads this, items.Values
    {
      map id | id in items :: items[id].Value()
    }

    constructor ()
      ensures Valid() && Contents() == map[]
    {
      items, order := map[], [];
    }

    /** `save` of a new record keeps its place at the end of the dictionary, of a known id its old place. */
    method Save(record: JobRecord)
      requires Valid()
      modifies this
      ensures Valid() && Contents() == old(Contents())[record.id := record.Value()]
      ensures items == old(items)[record.id := record]
    {
      hide JobRecord.Value;
      if record.id !in items {
        order := order + [record.id];
      }
      items := items[record.id := record];
    }

    /** One turn of the reconcile loop. */
    method ReconcileItem(id: string, now: int) returns (interrupted: bool)
      requires Valid() && id in items
      modifies items.Values
      ensures Valid() && items == old(items) && order == old(order)
      ensures Contents() == old(Contents())[id := ReconcileOne(old(Contents())[id], now)]
      ensures interrupted <==> Expired(old(Contents())[id], now)
    {
      hide Interrupt, Expired, JobRecord.Value;
      var job := items[id];
      interrupted := job.HasExpired(now);
      if interrupted {
        job.InterruptAt(now);
      }
    }

    method ReconcileLocked(now: int) returns (reconciled: nat)
      requires Valid()
      modifies items.Values
      ensures Valid() && items == old(items) && order == old(order)
      ensures Contents() == Reconcile(old(Contents()), now)
      ensures reconciled == |ExpiredIds(old(Contents()), now)|
    {
      hide ReconcileOne, ReconcileEach, Reconcile, Expired, ExpiredIds, CountExpired, NoDuplicates, JobRecord.Value;
      reconciled := 0;
      ghost var before := Contents();
      NoneReconciled(before, now);
      for i := 0 to |order|
        invariant Valid() && items == old(items) && order == old(order)
        invariant Contents() == ReconcileEach(before, order[..i], now)
        invariant reconciled == CountExpired(before, order[..i], now)
      {
        OneMoreReconciled(before, order, i, now);
        var interrupted := ReconcileItem(order[i], now);
        if interrupted {
          reconciled := reconciled + 1;
        }
      }
      assert order[..|order|] == order;
      EachIsAll(before, order, now);
    }

    /** A lease that would end after year 9999 raises before anything changes. */
    method RenewLease(id: string, worker: string, token: Option<string>, seconds: int, now: int) returns (r: Outcome)
      requires Valid()
      modifies items.Values
      ensures Valid() && items == old(items) && order == old(order)
      ensures r.Raised? <==>
        seconds <= 0 || (id in items && Holds(old(Contents())[id], worker, token, now) && !InRange(now + seconds * SECOND))
      ensures r.Raised? ==> Contents() == old(Contents())
      ensures !r.Raised? ==> Contents() == Renew(old(Contents()), id, worker, token, now, seconds)
      ensures !r.Raised? ==>
        r == if id in items && Holds(old(Contents())[id], worker, token, now) then Done(items[id]) else Refused
    {
      hide RenewOne, Holds, JobRecord.Value;
      if seconds <= 0 {
        return Raised;
      }
      if id !in items {
        return Refused;
      }
      var job := items[id];
      var held := job.CheckLease(worker, token, now);
      if !held {
        return Refused;
      }
      if !InRange(now + seconds * SECOND) {
        return Raised;
      }
      job.RenewAt(now, seconds);
      return Done(job);
    }

    method UpdateProgress(id: string, worker: string, token: Option<string>, sequence: int, progress: string,
                          lines: seq<string>, now: int) returns (r: Outcome)
      requires Valid()
      modifies items.Values
      ensures Valid() && items == old(items) && order == old(order)
      ensures Contents() == Progress(old(Contents()), id, worker, token, sequence, progress, lines, now)
      ensures r == if id in items && Holds(old(Contents())[id], worker, token, now) then Done(items[id]) else Refused
    {
      hide ProgressOne, Holds, JobRecord.Value;
      if id !in items {
        return Refused;
      }
      var job := items[id];
      var held := job.CheckLease(worker, token, now);
      if !held {
        return Refused;
      }
      job.ProgressAt(sequence, progress, lines, now);
      return Done(job);
    }

    /** One turn of the claim loop. */
    method ClaimItem(id: string, worker: string, token: string, now: int, seconds: int) returns (claimable: bool)
      requires Valid() && id in items
      modifies items.Values
      ensures Valid() && items == old(items) && order == old(order)
      ensures Contents() == old(Contents())[id := ClaimedFrom(old(Contents())[id], worker, token, now, seconds)]
      ensures claimable <==> Claimable(old(Contents())[id], worker)
    {
      hide ClaimOne, Claimable, JobRecord.Value;
      var job := items[id];
      claimable := job.IsClaimable(worker);
      if claimable {
        job.ClaimAt(worker, token, now, seconds);
      }
    }

    method ClaimPending(worker: string, seconds: int, now: int, draw: string -> string)
      returns (raised: bool, claimed: seq<JobRecord>, ghost ids: seq<string>)
      requires Valid()
      modifies items.Values
      ensures Valid() && items == old(items) && order == old(order)
      // A lease that would end after year 9999 raises once the expired leases are reconciled.
      ensures raised <==> seconds <= 0 || !InRange(now + seconds * SECOND)
      ensures raised ==> claimed == [] && Contents() == if seconds <= 0 then old(Contents()) else Reconcile(old(Contents()), now)
      ensures !raised ==> Contents() == Claim(old(Contents()), worker, now, seconds, draw)
      // Each claimed job once, in order of submission.
      ensures !raised ==> Lists(claimed, ids, items)
      ensures !raised ==> forall i, j | 0 <= i < j < |claimed| :: claimed[i].submitted <= claimed[j].submitted
      ensures !raised ==> HandsOut(old(Contents()), ids, worker, now)
    {
      hide ClaimedFrom, Claimable, ReconcileOne, Reconcile, Claim, HandsOut, ClaimEach, ClaimableIds, JobRecord.Value;
      raised, claimed, ids := seconds <= 0, [], [];
      if raised {
        return;
      }
      ghost var before := Contents();
      var _ := ReconcileLocked(now);
      ghost var swept := Contents();
      if !InRange(now + seconds * SECOND) {
        raised := true;
        return;
      }
      var records := items;
      var key := (id: string) => if id in records then records[id].submitted else 0;
      var sorted := Sort(order, key);
      SortSorts(order, key);
      SortKeepsDistinct(order, key);
      claimed, ids := ClaimLoop(sorted, worker, seconds, now, draw);
      ClaimIsAll(before, swept, sorted, worker, now, seconds, draw);
      ClaimableIdsSorted(swept, sorted, worker, key);
      HandsOutAfterReconcile(before, swept, ids, worker, now);
      assert forall k | 0 <= k < |ids| :: claimed[k].submitted == key(ids[k]);
    }

    method ClaimLoop(sorted: seq<string>, worker: string, seconds: int, now: int, draw: string -> string)
      returns (claimed: seq<JobRecord>, ghost ids: seq<string>)
      requires Valid() && NoDuplicates(sorted) && forall id | id in sorted :: id in items
      modifies items.Values
      ensures Valid() && items == old(items) && order == old(order)
      ensures Contents() == ClaimEach(old(Contents()), sorted, worker, now, seconds, draw)
      ensures ids == ClaimableIds(old(Contents()), sorted, worker)
      ensures |claimed| == |ids| && forall k | 0 <= k < |ids| :: ids[k] in items && claimed[k] == items[ids[k]]
    {
      hide ClaimedFrom, Claimable, ClaimEach, ClaimableIds, NoDuplicates, JobRecord.Value;
      claimed, ids := [], [];
      ghost var swept := Contents();
      NoneClaimed(swept, worker, now, seconds, draw);
      for i := 0 to |sorted|
        invariant Valid() && items == old(items) && order == old(order)
        invariant Contents() == ClaimEach(swept, sorted[..i], worker, now, seconds, draw)
        invariant ids == ClaimableIds(swept, sorted[..i], worker)
        invariant |claimed| == |ids| && forall k | 0 <= k < |ids| :: ids[k] in items && claimed[k] == items[ids[k]]
      {
        OneMoreClaimed(swept, sorted, i, worker, now, seconds, draw);
        var claimable := ClaimItem(sorted[i], worker, draw(sorted[i]), now, seconds);
        if claimable {
          claimed := claimed + [items[sorted[i]]];
          ids := ids + [sorted[i]];
        }
      }
      assert sorted[..|sorted|] == sorted;
    }
  }

  // The loops, on the abstract map

  ghost function ExpiredIds(jobs: Jobs, now: int): set<string> {
    set id | id in jobs && Expired(jobs[id], now)
  }

  ghost function ExpiredAmong(jobs: Jobs, ids: seq<string>, now: int): set<string> {
    set id | id in ids && id in jobs && Expired(jobs[id], now)
  }

  ghost function ReconcileAt(jobs: Jobs, id: string, now: int): (r: Jobs)
    ensures r.Keys == jobs.Keys
  {
    hide ReconcileOne;
    if id in jobs then jobs[id := ReconcileOne(jobs[id], now)] else jobs
  }

  ghost function ReconcileEach(jobs: Jobs, ids: seq<string>, now: int): (r: Jobs)
    ensures r.Keys == jobs.Keys
  {
    hide ReconcileAt;
    if ids == [] then jobs else ReconcileAt(ReconcileEach(jobs, ids[..|ids| - 1], now), ids[|ids| - 1], now)
  }

  predicate ExpiredAt(jobs: Jobs, id: string, now: int) {
    hide Expired;
    id in jobs && Expired(jobs[id], now)
  }

  ghost function CountExpired(jobs: Jobs, ids: seq<string>, now: int): nat {
    if ids == [] then 0 else CountExpired(jobs, ids[..|ids| - 1], now) + if ExpiredAt(jobs, ids[|ids| - 1], now) then 1 else 0
  }

  lemma {:induction false} EachAt(jobs: Jobs, ids: seq<string>, now: int, id: string)
    requires (forall x | x in ids :: x in jobs) && id in jobs && NoDuplicates(ids)
    ensures ReconcileEach(jobs, ids, now)[id] == if id in ids then ReconcileOne(jobs[id], now) else jobs[id]
  {
    hide ReconcileOne;
    if ids != [] {
      var n := |ids| - 1;
      EachAt(jobs, ids[..n], now, id);
      assert ids == ids[..n] + [ids[n]];
      assert ids[n] !in ids[..n];
    }
  }

  lemma NoneReconciled(jobs: Jobs, now: int)
    ensures ReconcileEach(jobs, [], now) == jobs && CountExpired(jobs, [], now) == 0
  {
  }

  lemma OneMoreReconciled(jobs: Jobs, ids: seq<string>, i: nat, now: int)
    requires (forall x | x in ids :: x in jobs) && i < |ids| && NoDuplicates(ids)
    ensures SameAt(ReconcileEach(jobs, ids[..i], now), jobs, ids[i])
    ensures ReconcileEach(jobs, ids[..i + 1], now) == ReconcileAt(ReconcileEach(jobs, ids[..i], now), ids[i], now)
    ensures CountExpired(jobs, ids[..i + 1], now) == CountExpired(jobs, ids[..i], now) + if ExpiredAt(jobs, ids[i], now) then 1 else 0
  {
    hide ReconcileOne, ReconcileAt, ExpiredAt;
    EachAt(jobs, ids[..i], now, ids[i]);
    assert ids[i] !in ids[..i];
    assert ids[..i + 1][..i] == ids[..i];
  }

  predicate SameAt(a: Jobs, b: Jobs, id: string) {
    id in a && id in b && a[id] == b[id]
  }

  lemma EachIsAll(jobs: Jobs, ids: seq<string>, now: int)
    requires NoDuplicates(ids) && forall id :: id in ids <==> id in jobs
    ensures ReconcileEach(jobs, ids, now) == Reconcile(jobs, now)
    ensures CountExpired(jobs, ids, now) == |ExpiredIds(jobs, now)|
  {
    hide ReconcileOne, Expired;
    forall id | id in jobs
      ensures ReconcileEach(jobs, ids, now)[id] == ReconcileOne(jobs[id], now)
    {
      EachAt(jobs, ids, now, id);
    }
    CountIsCardinality(jobs, ids, now);
    assert ExpiredIds(jobs, now) == ExpiredAmong(jobs, ids, now);
  }

  lemma {:induction false} CountIsCardinality(jobs: Jobs, ids: seq<string>, now: int)
    requires NoDuplicates(ids) && forall id | id in ids :: id in jobs
    ensures CountExpired(jobs, ids, now) == |ExpiredAmong(jobs, ids, now)|
  {
    hide Expired;
    if ids == [] {
      assert ExpiredAmong(jobs, ids, now) == {};
    } else {
      var n := |ids| - 1;
      CountIsCardinality(jobs, ids[..n], now);
      OneMoreExpired(jobs, ids, n, now);
    }
  }

  lemma OneMoreExpired(jobs: Jobs, ids: seq<string>, n: nat, now: int)
    requires n == |ids| - 1 && NoDuplicates(ids)
    ensures var last := if ids[n] in jobs && Expired(jobs[ids[n]], now) then {ids[n]} else {};
            ExpiredAmong(jobs, ids, now) == ExpiredAmong(jobs, ids[..n], now) + last
    ensures ids[n] !in ExpiredAmong(jobs, ids[..n], now)
  {
    hide Expired;
    assert ids[n] !in ids[..n];
    forall id
      ensures id in ids <==> id in ids[..n] || id == ids[n]
    {
      assert ids == ids[..n] + [ids[n]];
    }
  }

  ghost function ClaimedAt(jobs: Jobs, id: string, worker: string, now: int, seconds: int, draw: string -> string): (r: Jobs)
    ensures r.Keys == jobs.Keys
  {
    hide ClaimedFrom;
    if id in jobs then jobs[id := ClaimedFrom(jobs[id], worker, draw(id), now, seconds)] else jobs
  }

  ghost function ClaimEach(jobs: Jobs, ids: seq<string>, worker: string, now: int, seconds: int, draw: string -> string): (r: Jobs)
    ensures r.Keys == jobs.Keys
  {
    hide ClaimedAt;
    if ids == [] then jobs
    else ClaimedAt(ClaimEach(jobs, ids[..|ids| - 1], worker, now, seconds, draw), ids[|ids| - 1], worker, now, seconds, draw)
  }

  predicate ClaimableAt(jobs: Jobs, id: string, worker: string) {
    hide Claimable;
    id in jobs && Claimable(jobs[id], worker)
  }

  lemma {:induction false} ClaimAt(jobs: Jobs, ids: seq<string>, worker: string, now: int, seconds: int, draw: string -> string, id: string)
    requires (forall x | x in ids :: x in jobs) && id in jobs && NoDuplicates(ids)
    ensures ClaimEach(jobs, ids, worker, now, seconds, draw)[id]
      == if id in ids then ClaimedFrom(jobs[id], worker, draw(id), now, seconds) else jobs[id]
  {
    hide ClaimedFrom;
    if ids != [] {
      var n := |ids| - 1;
      ClaimAt(jobs, ids[..n], worker, now, seconds, draw, id);
      assert ids == ids[..n] + [ids[n]] && ids[n] !in ids[..n];
    }
  }

  lemma NoneClaimed(jobs: Jobs, worker: string, now: int, seconds: int, draw: string -> string)
    ensures ClaimEach(jobs, [], worker, now, seconds, draw) == jobs && ClaimableIds(jobs, [], worker) == []
  {
  }

  lemma OneMoreClaimed(jobs: Jobs, ids: seq<string>, i: nat, worker: string, now: int, seconds: int, draw: string -> string)
    requires (forall x | x in ids :: x in jobs) && i < |ids| && NoDuplicates(ids)
    ensures SameAt(ClaimEach(jobs, ids[..i], worker, now, seconds, draw), jobs, ids[i])
    ensures ClaimEach(jobs, ids[..i + 1], worker, now, seconds, draw)
      == ClaimedAt(ClaimEach(jobs, ids[..i], worker, now, seconds, draw), ids[i], worker, now, seconds, draw)
    ensures ClaimableIds(jobs, ids[..i + 1], worker)
      == ClaimableIds(jobs, ids[..i], worker) + if ClaimableAt(jobs, ids[i], worker) then [ids[i]] else []
  {
    hide ClaimedFrom, ClaimedAt, ClaimableAt;
    ClaimAt(jobs, ids[..i], worker, now, seconds, draw, ids[i]);
    assert ids[i] !in ids[..i];
    assert ids[..i + 1][..i] == ids[..i];
  }

  lemma ClaimIsAll(before: Jobs, swept: Jobs, ids: seq<string>, worker: string, now: int, seconds: int, draw: string -> string)
    requires swept == Reconcile(before, now) && NoDuplicates(ids) && forall id :: id in ids <==> id in swept
    ensures ClaimEach(swept, ids, worker, now, seconds, draw) == Claim(before, worker, now, seconds, draw)
  {
    hide ClaimedFrom, ReconcileOne;
    forall id | id in before
      ensures ClaimEach(swept, ids, worker, now, seconds, draw)[id] == Claim(before, worker, now, seconds, draw)[id]
    {
      ClaimAt(swept, ids, worker, now, seconds, draw, id);
    }
  }

  ghost function ClaimableIds(jobs: Jobs, ids: seq<string>, worker: string): seq<string> {
    hide ClaimableAt;
    if ids == [] then []
    else ClaimableIds(jobs, ids[..|ids| - 1], worker) + if ClaimableAt(jobs, ids[|ids| - 1], worker) then [ids[|ids| - 1]] else []
  }

  lemma {:induction false} ClaimableIdsHas(jobs: Jobs, ids: seq<string>, worker: string, id: string)
    requires forall x | x in ids :: x in jobs
    ensures id in ClaimableIds(jobs, ids, worker) <==> id in ids && Claimable(jobs[id], worker)
  {
    hide Claimable;
    if ids != [] {
      var n := |ids| - 1;
      ClaimableIdsHas(jobs, ids[..n], worker, id);
      assert ids == ids[..n] + [ids[n]];
    }
  }

  lemma {:induction false} ClaimableIdsInOrder(jobs: Jobs, ids: seq<string>, worker: string, key: string -> int)
    requires (forall id | id in ids :: id in jobs) && NoDuplicates(ids) && SortedBy(ids, key)
    ensures NoDuplicates(ClaimableIds(jobs, ids, worker)) && SortedBy(ClaimableIds(jobs, ids, worker), key)
  {
    hide ClaimableAt;
    if ids != [] {
      hide NoDuplicates, SortedBy;
      var n := |ids| - 1;
      var r := ClaimableIds(jobs, ids[..n], worker);
      PrefixKeepsOrder(ids, n, key);
      ClaimableIdsInOrder(jobs, ids[..n], worker, key);
      forall id | id in r
        ensures id in ids[..n]
      {
        ClaimableIdsHas(jobs, ids[..n], worker, id);
      }
      AppendKeepsOrder(r, ids[n], key);
      assert r + [] == r;
    }
  }

  lemma ClaimableIdsSorted(jobs: Jobs, ids: seq<string>, worker: string, key: string -> int)
    requires (forall id | id in ids :: id in jobs) && NoDuplicates(ids) && SortedBy(ids, key)
    ensures NoDuplicates(ClaimableIds(jobs, ids, worker)) && SortedBy(ClaimableIds(jobs, ids, worker), key)
    ensures forall id :: id in ClaimableIds(jobs, ids, worker) <==> id in ids && Claimable(jobs[id], worker)
  {
    hide Claimable, NoDuplicates, SortedBy;
    ClaimableIdsInOrder(jobs, ids, worker, key);
    forall id
      ensures id in ClaimableIds(jobs, ids, worker) <==> id in ids && Claimable(jobs[id], worker)
    {
      ClaimableIdsHas(jobs, ids, worker, id);
    }
  }
}
