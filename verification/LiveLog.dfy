/** A session's bounded event log, and the bounded queue of one subscriber. */
module LiveLog {
  import opened LiveEvents

  datatype LiveChange = LiveChange(id: nat, change: Change)

  /** What a subscriber's queue holds. */
  datatype Item = Changed(event: LiveChange) | Resync

  /** Everything a session ever published: ids count from one. */
  ghost predicate History(h: seq<LiveChange>) {
    forall i | 0 <= i < |h| :: h[i].id == i + 1
  }

  function ChangesOf(h: seq<LiveChange>): (c: seq<Change>)
    ensures |c| == |h| && forall i | 0 <= i < |h| :: c[i] == h[i].change
  {
    seq(|h|, i requires 0 <= i < |h| => h[i].change)
  }

  /** A deque of bounded length after appending. */
  function Kept(h: seq<LiveChange>, max: nat): (k: seq<LiveChange>)
    ensures |k| == if |h| <= max then |h| else max
  {
    if |h| <= max then h else h[|h| - max..]
  }

  /** Keeping the last ones after every append keeps the last ones of all. */
  lemma KeptStep(h: seq<LiveChange>, max: nat, e: LiveChange)
    requires max > 0
    ensures Kept(Kept(h, max) + [e], max) == Kept(h + [e], max)
  {
  }

  datatype Replay = Gap | Events(events: seq<LiveChange>)

  function Later(events: seq<LiveChange>, after: nat): seq<LiveChange> {
    if events == [] then []
    else Later(events[..|events| - 1], after) + if events[|events| - 1].id > after then [events[|events| - 1]] else []
  }

  /** `replay` on the retained events, once the cursor is read. */
  function ReplayOf(events: seq<LiveChange>, nextId: nat, after: nat): Replay {
    var oldest := if events != [] then events[0].id else nextId;
    if after < oldest - 1 then Gap else Events(Later(events, after))
  }

  lemma {:induction false} LaterOfRun(h: seq<LiveChange>, lo: nat, hi: nat, after: nat)
    requires History(h) && lo <= hi <= |h|
    ensures Later(h[lo..hi], after) == h[if after <= lo then lo else if after <= hi then after else hi..hi]
    decreases hi - lo
  {
    hide History;
    if lo < hi {
      LastId(h, hi - 1);
      assert h[lo..hi][..hi - lo - 1] == h[lo..hi - 1];
      LaterOfRun(h, lo, hi - 1, after);
    }
  }

  lemma LastId(h: seq<LiveChange>, i: nat)
    requires History(h) && i < |h|
    ensures h[i].id == i + 1
  {
  }

  /** Replay from a cursor of this session: all later events in order, or resync exactly when the next one was evicted. */
  lemma ReplayIsExact(h: seq<LiveChange>, max: nat, after: nat)
    requires History(h) && max > 0 && after <= |h|
    ensures var kept := Kept(h, max);
            ReplayOf(kept, |h| + 1, after) == if after < |h| && h[after] !in kept then Gap else Events(h[after..])
  {
    hide History, Later;
    var kept := Kept(h, max);
    var lo := |h| - |kept|;
    assert kept == h[lo..|h|];
    LaterOfRun(h, lo, |h|, after);
    if after < |h| {
      StillKept(h, lo, after);
    }
    if kept != [] {
      LastId(h, lo);
    }
  }

  lemma StillKept(h: seq<LiveChange>, lo: nat, i: nat)
    requires History(h) && lo <= |h| && i < |h|
    ensures h[i] in h[lo..] <==> lo <= i
  {
    if lo <= i {
      assert h[lo..][i - lo] == h[i];
    } else {
      forall k | 0 <= k < |h[lo..]|
        ensures h[lo..][k] != h[i]
      {
        assert h[lo..][k].id == lo + k + 1;
      }
    }
  }

  /** A cursor beyond the session's last event, as an earlier session of the same key may have issued, is answered with
      no events and no resync. */
  lemma StaleCursorIsSilent(h: seq<LiveChange>, max: nat, after: nat)
    requires History(h) && max > 0 && after > |h|
    ensures ReplayOf(Kept(h, max), |h| + 1, after) == Events([])
  {
    var lo := |h| - |Kept(h, max)|;
    assert Kept(h, max) == h[lo..|h|];
    LaterOfRun(h, lo, |h|, after);
  }

  // Queues

  /** A full queue gives way to one resync mark. */
  function Offered(queue: seq<Item>, size: nat, event: LiveChange): seq<Item> {
    if |queue| < size then queue + [Changed(event)] else [Resync]
  }

  /** What a subscriber gets over time, once `last` events have been published: ids ascend, neighbours are consecutive,
      and a change at the end is the latest. */
  ghost predicate Stream(s: seq<Item>, last: nat) {
    && (forall i, j | 0 <= i < j < |s| && s[i].Changed? && s[j].Changed? :: s[i].event.id < s[j].event.id)
    && (forall i | 0 <= i < |s| - 1 && s[i].Changed? && s[i + 1].Changed? :: s[i + 1].event.id == s[i].event.id + 1)
    && (forall i | 0 <= i < |s| && s[i].Changed? :: s[i].event.id <= last)
    && (s != [] && s[|s| - 1].Changed? ==> s[|s| - 1].event.id == last)
  }

  lemma NextKeepsStream(s: seq<Item>, event: LiveChange, last: nat)
    requires Stream(s, last) && event.id == last + 1
    ensures Stream(s + [Changed(event)], last + 1)
  {
    var t := s + [Changed(event)];
    forall i | 0 <= i < |t| - 1
      ensures t[i] == s[i]
    {
    }
    assert t[|t| - 1] == Changed(event);
  }

  lemma MarkKeepsStream(taken: seq<Item>, queue: seq<Item>, last: nat)
    requires Stream(taken + queue, last)
    ensures Stream(taken + [Resync], last + 1)
  {
    var s, t := taken + queue, taken + [Resync];
    var n := |taken|;
    assert t[n] == Resync;
    forall i | 0 <= i < n
      ensures t[i] == s[i] && (t[i].Changed? ==> t[i].event.id <= last)
    {
    }
    forall i, j | 0 <= i < j < |t| && t[i].Changed? && t[j].Changed?
      ensures t[i].event.id < t[j].event.id
    {
      assert j < n;
    }
    forall i | 0 <= i < |t| - 1 && t[i].Changed? && t[i + 1].Changed?
      ensures t[i + 1].event.id == t[i].event.id + 1
    {
      assert i + 1 < n;
    }
  }

  lemma OfferKeepsStream(taken: seq<Item>, queue: seq<Item>, size: nat, event: LiveChange, last: nat)
    requires Stream(taken + queue, last) && event.id == last + 1
    ensures Stream(taken + Offered(queue, size, event), last + 1)
  {
    hide Stream;
    if |queue| < size {
      NextKeepsStream(taken + queue, event, last);
      assert taken + Offered(queue, size, event) == taken + queue + [Changed(event)];
    } else {
      MarkKeepsStream(taken, queue, last);
    }
  }

  /** Any two changes with no resync between them are apart by exactly the number of items between. */
  lemma {:induction false} NothingMissing(s: seq<Item>, last: nat, i: nat, j: nat)
    requires Stream(s, last) && i <= j < |s| && forall k | i <= k <= j :: s[k].Changed?
    ensures s[j].event.id == s[i].event.id + (j - i)
    decreases j - i
  {
    if i < j {
      NothingMissing(s, last, i, j - 1);
      assert s[j - 1 + 1] == s[j];
    }
  }
}
