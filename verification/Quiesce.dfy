/** Scaling workloads to zero around a job and putting them back, whatever fails on the way. */
module Quiesce {
  import opened Text

  datatype Kind = Deployment | StatefulSet

  /** Name and kind identify a workload in its namespace. */
  datatype Workload = Workload(kind: Kind, name: string)

  /** What is remembered of a workload that was scaled down. */
  datatype Item = Item(workload: Workload, replicas: nat)

  type Replicas = map<Workload, Option<nat>>

  /** A missing replica count stands for one. */
  function Effective(replicas: Option<nat>): nat {
    if replicas.Some? then replicas.value else 1
  }

  datatype Probe = No | Yes | Raises

  datatype Job = CreateFails | Polled(success: bool, canceled: bool, code: int) | PollRaises

  datatype Result = Result(success: bool, canceled: bool, code: int)

  const CANCELED := Result(false, true, 130)
  const FAILED := Result(false, false, 1)

  ghost predicate Distinct(changed: seq<Item>) {
    forall i, j | 0 <= i < j < |changed| :: changed[i].workload != changed[j].workload
  }

  function Workloads(changed: seq<Item>): (w: set<Workload>)
    ensures forall x :: x in w <==> exists i :: 0 <= i < |changed| && changed[i].workload == x
  {
    if changed == [] then {} else Workloads(changed[..|changed| - 1]) + {changed[|changed| - 1].workload}
  }

  /** The changed workloads are at zero and their old counts remembered; all others are as they were. */
  ghost predicate ScaledDown(before: Replicas, now: Replicas, changed: seq<Item>) {
    && before.Keys == now.Keys && Distinct(changed)
    && (forall i | 0 <= i < |changed| :: changed[i].workload in before && changed[i].replicas == Effective(before[changed[i].workload])
          && now[changed[i].workload] == Some(0))
    && (forall w | w in before && w !in Workloads(changed) :: now[w] == before[w])
  }

  /** Every workload is back at its count, one where it had none, except those named, which stayed at zero. */
  ghost predicate PutBack(before: Replicas, now: Replicas, stuck: set<Workload>) {
    && before.Keys == now.Keys
    && forall w | w in before ::
         if w in stuck then now[w] == Some(0) else now[w] == before[w] || (before[w].None? && now[w] == Some(1))
  }

  /** A listing names workloads of the cluster, each once. */
  predicate Listed(matching: seq<Workload>, replicas: Replicas) {
    && (forall i | 0 <= i < |matching| :: matching[i] in replicas)
    && EachOnce(matching)
  }

  predicate EachOnce(matching: seq<Workload>) {
    forall i, j | 0 <= i < j < |matching| :: matching[i] != matching[j]
  }

  /** A workload as the inventory lists it, with the claims it mounts. */
  datatype Found = Found(name: string, claims: set<string>)

  function MatchingOf(kind: Kind, items: seq<Found>, selected: set<string>): seq<Workload> {
    if items == [] then []
    else (if Mounts(items[0], selected) then [Workload(kind, items[0].name)] else []) + MatchingOf(kind, items[1..], selected)
  }

  /** `_matching_workloads`: deployments, then stateful sets. */
  function Matching(deployments: seq<Found>, statefulSets: seq<Found>, selected: set<string>): seq<Workload> {
    MatchingOf(Deployment, deployments, selected) + MatchingOf(StatefulSet, statefulSets, selected)
  }

  predicate DistinctNames(items: seq<Found>) {
    forall i, j | 0 <= i < j < |items| :: items[i].name != items[j].name
  }

  predicate Mounts(f: Found, selected: set<string>) {
    f.claims * selected != {}
  }

  predicate MountedBy(items: seq<Found>, selected: set<string>, name: string) {
    exists f | f in items :: f.name == name && Mounts(f, selected)
  }

  lemma {:induction false} MatchingOfHas(kind: Kind, items: seq<Found>, selected: set<string>, w: Workload)
    ensures w in MatchingOf(kind, items, selected) <==> w.kind == kind && MountedBy(items, selected, w.name)
  {
    hide Mounts;
    if items != [] {
      var rest := items[1..];
      MatchingOfHas(kind, rest, selected, w);
      assert forall f :: f in items <==> f == items[0] || f in rest;
    }
  }

  lemma {:induction false} MatchingOfDistinct(kind: Kind, items: seq<Found>, selected: set<string>)
    requires DistinctNames(items)
    ensures EachOnce(MatchingOf(kind, items, selected))
  {
    if items != [] {
      var rest := items[1..];
      MatchingOfDistinct(kind, rest, selected);
      var first, t := Workload(kind, items[0].name), MatchingOf(kind, rest, selected);
      MatchingOfHas(kind, rest, selected, first);
      assert first !in t;
    }
  }

  lemma MatchingHas(deployments: seq<Found>, statefulSets: seq<Found>, selected: set<string>, w: Workload)
    ensures w in Matching(deployments, statefulSets, selected)
            <==> MountedBy(if w.kind.Deployment? then deployments else statefulSets, selected, w.name)
  {
    hide MatchingOf, MountedBy;
    MatchingOfHas(Deployment, deployments, selected, w);
    MatchingOfHas(StatefulSet, statefulSets, selected, w);
  }

  lemma MatchingDistinct(deployments: seq<Found>, statefulSets: seq<Found>, selected: set<string>)
    requires DistinctNames(deployments) && DistinctNames(statefulSets)
    ensures EachOnce(Matching(deployments, statefulSets, selected))
  {
    hide MatchingOf, MountedBy, DistinctNames;
    MatchingOfDistinct(Deployment, deployments, selected);
    MatchingOfDistinct(StatefulSet, statefulSets, selected);
    var a, b := MatchingOf(Deployment, deployments, selected), MatchingOf(StatefulSet, statefulSets, selected);
    forall i: nat, j: nat | i < |a| && j < |b|
      ensures a[i] != b[j]
    {
      assert a[i] in a && b[j] in b;
      MatchingOfHas(Deployment, deployments, selected, a[i]);
      MatchingOfHas(StatefulSet, statefulSets, selected, b[j]);
    }
  }

  lemma MatchingOnceEach(deployments: seq<Found>, statefulSets: seq<Found>, selected: set<string>, replicas: Replicas)
    requires DistinctNames(deployments) && DistinctNames(statefulSets)
    requires forall f | f in deployments :: Workload(Deployment, f.name) in replicas
    requires forall f | f in statefulSets :: Workload(StatefulSet, f.name) in replicas
    ensures Listed(Matching(deployments, statefulSets, selected), replicas)
  {
    hide MatchingOf, Matching, Mounts, DistinctNames;
    var m := Matching(deployments, statefulSets, selected);
    forall i | 0 <= i < |m|
      ensures m[i] in replicas
    {
      assert m[i] in m;
      MatchingHas(deployments, statefulSets, selected, m[i]);
    }
    MatchingDistinct(deployments, statefulSets, selected);
  }

  /** What matches is exactly what mounts a selected claim, each workload once. */
  lemma MatchingIsListed(deployments: seq<Found>, statefulSets: seq<Found>, selected: set<string>, replicas: Replicas)
    requires DistinctNames(deployments) && DistinctNames(statefulSets)
    requires forall f | f in deployments :: Workload(Deployment, f.name) in replicas
    requires forall f | f in statefulSets :: Workload(StatefulSet, f.name) in replicas
    ensures Listed(Matching(deployments, statefulSets, selected), replicas)
    ensures forall w :: w in Matching(deployments, statefulSets, selected)
                    <==> MountedBy(if w.kind.Deployment? then deployments else statefulSets, selected, w.name)
  {
    hide Matching, MountedBy, DistinctNames, Listed;
    MatchingOnceEach(deployments, statefulSets, selected, replicas);
    forall w: Workload
      ensures w in Matching(deployments, statefulSets, selected)
          <==> MountedBy(if w.kind.Deployment? then deployments else statefulSets, selected, w.name)
    {
      MatchingHas(deployments, statefulSets, selected, w);
    }
  }

  ghost predicate NoneFails(fails: nat -> bool, from: nat, to: nat) {
    forall n | from <= n < to :: !fails(n)
  }

  lemma OneMoreCall(fails: nat -> bool, from: nat, n: nat)
    requires from <= n
    ensures NoneFails(fails, from, n + 1) <==> NoneFails(fails, from, n) && !fails(n)
    ensures NoneFails(fails, from, from)
  {
  }

  lemma MoreCalls(fails: nat -> bool, from: nat, mid: nat, to: nat)
    requires from <= mid <= to
    ensures NoneFails(fails, from, to) <==> NoneFails(fails, from, mid) && NoneFails(fails, mid, to)
  {
  }

  class KubernetesRuntimeAdapter {
    /** The cluster's replica counts. */
    var replicas: Replicas
    /** How many patches have been sent; patch number n raises, changing nothing, when `fails(n)`. */
    var patches: nat
    const fails: nat -> bool

    constructor (replicas: Replicas, fails: nat -> bool)
      ensures this.replicas == replicas && this.fails == fails && patches == 0
    {
      this.replicas, this.fails, patches := replicas, fails, 0;
    }

    method Patch(w: Workload, count: nat) returns (raised: bool)
      requires w in replicas
      modifies this
      ensures raised == fails(old(patches)) && patches == old(patches) + 1
      ensures replicas == if raised then old(replicas) else old(replicas)[w := Some(count)]
    {
      raised := fails(patches);
      patches := patches + 1;
      if !raised {
        replicas := replicas[w := Some(count)];
      }
    }

    /** `_resume`: latest first, going on after a failure. */
    method Resume(changed: seq<Item>, ghost before: Replicas) returns (errors: seq<Workload>, ghost stuck: set<Workload>)
      requires ScaledDown(before, replicas, changed)
      modifies this
      ensures PutBack(before, replicas, stuck) && patches == old(patches) + |changed|
      ensures forall w :: w in stuck <==> w in errors
      ensures errors == [] <==> NoneFails(fails, old(patches), patches)
    {
      hide Effective, Resuming, ScaledDown, PutBack, NoneFails;
      errors, stuck := [], {};
      ghost var start := patches;
      OneMoreCall(fails, start, start);
      var i := |changed|;
      AllDown(before, replicas, changed);
      while i > 0
        invariant 0 <= i <= |changed| && patches == start + (|changed| - i)
        invariant Resuming(before, replicas, changed, i, stuck)
        invariant forall w :: w in stuck <==> w in errors
        invariant errors == [] <==> NoneFails(fails, start, patches)
      {
        i := i - 1;
        ghost var mid := replicas;
        Known(before, replicas, changed, i + 1, stuck);
        OneMoreCall(fails, start, patches);
        var raised := Patch(changed[i].workload, changed[i].replicas);
        OneBack(before, mid, replicas, changed, i, stuck, raised);
        if raised {
          errors := errors + [changed[i].workload];
          stuck := stuck + {changed[i].workload};
        }
      }
      AllBack(before, replicas, changed, stuck);
    }

    /** `_quiesce` over the matching workloads, None when their listing raises: any failure puts back what was changed. */
    method Quiesce(matching: Option<seq<Workload>>)
      returns (changed: Option<seq<Item>>, ghost stuck: set<Workload>, ghost resumedFrom: nat)
      requires matching.Some? ==> Listed(matching.value, replicas)
      modifies this
      ensures changed.Some? ==> ScaledDown(old(replicas), replicas, changed.value) && stuck == {} && matching.Some?
      ensures changed.Some? ==> |changed.value| == |matching.value| && forall i | 0 <= i < |matching.value| :: changed.value[i].workload == matching.value[i]
      ensures changed.None? ==> PutBack(old(replicas), replicas, stuck)
      ensures changed.None? && NoneFails(fails, resumedFrom, patches) ==> stuck == {}
      ensures changed.Some? <==> matching.Some? && NoneFails(fails, old(patches), patches)
      ensures old(patches) <= resumedFrom <= patches
      ensures changed.Some? ==> patches == old(patches) + |matching.value|
      ensures changed.None? && matching.Some? ==> !NoneFails(fails, old(patches), old(patches) + |matching.value|)
    {
      hide Effective, ScaledDown, PutBack, Workloads, NoneFails;
      stuck, resumedFrom := {}, patches;
      OneMoreCall(fails, patches, patches);
      ghost var before, start := replicas, patches;
      if matching.None? {
        NothingChanged(before);
        return None, stuck, resumedFrom;
      }
      var items: seq<Item> := [];
      NothingChanged(before);
      for i := 0 to |matching.value|
        invariant ScaledDown(before, replicas, items) && |items| == i
        invariant forall k | 0 <= k < i :: items[k].workload == matching.value[k]
        invariant patches == start + i && NoneFails(fails, start, patches)
      {
        var w := matching.value[i];
        StillUp(before, replicas, items, w);
        var item := Item(w, Effective(replicas[w]));
        ghost var mid := replicas;
        OneMoreCall(fails, start, patches);
        var raised := Patch(w, 0);
        if raised {
          resumedFrom := patches;
          MoreCalls(fails, start, patches, start + |matching.value|);
          var _, left := Resume(items, before);
          MoreCalls(fails, start, resumedFrom, patches);
          return None, left, resumedFrom;
        }
        OneDown(before, mid, items, item);
        items := items + [item];
      }
      return Some(items), stuck, patches;
    }

    /** `run_runtime_job`: `first` and `second` are the cancel checks before and after quiescing; scope, manifest and listing
        may raise; `job` is what creating and polling the job came to, its own cancel checks included. */
    method RunRuntimeJob(first: Probe, scoped: bool, manifest: bool, matching: Option<seq<Workload>>, second: Probe, job: Job)
      returns (r: Result, ghost stuck: set<Workload>, ghost resumedFrom: nat)
      requires matching.Some? ==> Listed(matching.value, replicas)
      modifies this
      // Every count is what it was, except where putting it back failed: there it is zero.
      ensures PutBack(old(replicas), replicas, stuck)
      ensures NoneFails(fails, resumedFrom, patches) ==> stuck == {}
      // Success means that the job succeeded and no patch failed, so that nothing is left at zero.
      ensures r.success <==> first.No? && scoped && manifest && matching.Some? && second.No? && job.Polled? && job.success
                             && NoneFails(fails, old(patches), patches)
      ensures r.success ==> stuck == {}
      // A failure never carries the code of a success, and is called canceled exactly when the cancel check that was reached
      // last, before, after quiescing or while polling, said so.
      ensures !r.success && (job.Polled? ==> (job.success <==> job.code == 0)) ==> r.code != 0
      ensures r.canceled <==>
        || first.Yes?
        || (&& first.No? && scoped && manifest && matching.Some? && NoneFails(fails, old(patches), old(patches) + |matching.value|)
            && (second.Yes? || (second.No? && job.Polled? && job.canceled)))
      ensures r.canceled && (job.Polled? && job.canceled ==> job.code == 130) ==> r.code == 130
    {
      hide ScaledDown, PutBack, NoneFails, Listed;
      stuck, resumedFrom := {}, patches;
      NothingChanged(replicas);
      if first.Yes? {
        return CANCELED, stuck, resumedFrom;
      }
      if first.Raises? || !scoped || !manifest {
        return FAILED, stuck, resumedFrom;
      }
      ghost var before, start := replicas, patches;
      var changed;
      changed, stuck, resumedFrom := Quiesce(matching);
      if changed.None? {
        return FAILED, stuck, resumedFrom;
      }
      var raised := false;
      r := FAILED;
      if second.Yes? {
        r := CANCELED;
      } else if second.Raises? || job.CreateFails? || job.PollRaises? {
        raised := true;
      } else {
        r := Result(job.success, job.canceled, job.code);
      }
      resumedFrom := patches;
      var errors;
      errors, stuck := Resume(changed.value, before);
      MoreCalls(fails, start, resumedFrom, patches);
      if raised {
        return FAILED, stuck, resumedFrom;
      }
      if errors != [] {
        r := r.(success := false, code := if r.code == 0 then 1 else r.code);
      }
    }
  }

  /** Items from `i` on have been tried: back, or stuck at zero; the others are still down. */
  ghost predicate Resuming(before: Replicas, now: Replicas, changed: seq<Item>, i: nat, stuck: set<Workload>) {
    && i <= |changed| && before.Keys == now.Keys && Distinct(changed)
    && (forall k | 0 <= k < |changed| :: changed[k].workload in before && changed[k].replicas == Effective(before[changed[k].workload]))
    && (forall k | 0 <= k < i :: now[changed[k].workload] == Some(0) && changed[k].workload !in stuck)
    && (forall k | i <= k < |changed| ::
          now[changed[k].workload] == Some(if changed[k].workload in stuck then 0 else changed[k].replicas))
    && (forall w | w in before && w !in Workloads(changed) :: now[w] == before[w])
    && (forall w | w in stuck :: w in Workloads(changed))
  }

  lemma AllDown(before: Replicas, now: Replicas, changed: seq<Item>)
    requires ScaledDown(before, now, changed)
    ensures Resuming(before, now, changed, |changed|, {})
  {
  }

  lemma Known(before: Replicas, now: Replicas, changed: seq<Item>, i: nat, stuck: set<Workload>)
    requires Resuming(before, now, changed, i, stuck) && i > 0
    ensures changed[i - 1].workload in now
  {
  }

  lemma OneBack(before: Replicas, mid: Replicas, now: Replicas, changed: seq<Item>, i: nat, stuck: set<Workload>, raised: bool)
    requires i < |changed| && Resuming(before, mid, changed, i + 1, stuck)
    requires now == if raised then mid else mid[changed[i].workload := Some(changed[i].replicas)]
    ensures Resuming(before, now, changed, i, if raised then stuck + {changed[i].workload} else stuck)
  {
    hide Effective, Workloads;
    assert changed[i].workload in Workloads(changed);
  }

  lemma AllBack(before: Replicas, now: Replicas, changed: seq<Item>, stuck: set<Workload>)
    requires Resuming(before, now, changed, 0, stuck)
    ensures PutBack(before, now, stuck)
  {
  }

  lemma NothingChanged(before: Replicas)
    ensures ScaledDown(before, before, []) && PutBack(before, before, {})
  {
  }

  lemma StillUp(before: Replicas, now: Replicas, changed: seq<Item>, w: Workload)
    requires ScaledDown(before, now, changed) && w in before && forall i | 0 <= i < |changed| :: changed[i].workload != w
    ensures w in now && now[w] == before[w] && w !in Workloads(changed)
  {
  }

  lemma OneDown(before: Replicas, mid: Replicas, changed: seq<Item>, item: Item)
    requires ScaledDown(before, mid, changed) && item.workload in before && item.workload !in Workloads(changed)
    requires item.replicas == Effective(before[item.workload])
    ensures ScaledDown(before, mid[item.workload := Some(0)], changed + [item])
  {
    hide Effective, Workloads;
    var next := changed + [item];
    WorkloadsNext(changed, item);
    forall i | 0 <= i < |changed|
      ensures next[i] == changed[i] && next[i].workload != item.workload
    {
    }
  }

  lemma WorkloadsNext(changed: seq<Item>, item: Item)
    ensures Workloads(changed + [item]) == Workloads(changed) + {item.workload}
    ensures forall i | 0 <= i < |changed| :: changed[i].workload in Workloads(changed)
  {
    assert (changed + [item])[..|changed|] == changed;
  }
}
