/** A client that follows a source through a live session, reconnecting as it likes, ends up with what the watcher last
    published. */
module LiveMirror {
  import opened Text
  import opened LiveEvents
  import opened LiveLog

  /** No subscription; a subscription not yet replayed to; a stream whose queue is being sent. */
  datatype Link = Away | Waiting | Open

  /** The watcher's first snapshot and all it published; the client's bounded queue, what is on the wire to the client,
      the client's copy, and the last event id it got. */
  datatype State = State(first: Files, history: seq<LiveChange>, link: Link, queue: seq<Item>, wire: seq<Item>, mirror: Files, last: nat)

  /** The client may drop the connection at any time, losing what is on its way; copy the source; attach; and have the
      session replayed from a cursor no later than the last event it got. */
  datatype Move = Publish(change: Change) | Drop | Copy(cursor: nat) | Attach | Replay(after: nat) | Send | Handle

  function Published(s: State): Files {
    Fold(s.first, ChangesOf(s.history))
  }

  /** A mark, or a change event that is itself sent as one, makes the client copy the source anew. */
  predicate IsMark(item: Item) {
    item.Resync? || item.event.change.kind == ResyncRequired
  }

  function Handled(mirror: Files, item: Item, published: Files): Files {
    if IsMark(item) then published else Apply(mirror, item.event.change)
  }

  function Items(events: seq<LiveChange>): (items: seq<Item>)
    ensures |items| == |events| && forall i | 0 <= i < |events| :: items[i] == Changed(events[i])
  {
    seq(|events|, i requires 0 <= i < |events| => Changed(events[i]))
  }

  /** What the stream handler writes before anything from the queue. */
  function Answer(history: seq<LiveChange>, max: nat, after: nat): seq<Item> {
    match ReplayOf(Kept(history, max), |history| + 1, after)
    case Gap => [Resync]
    case Events(events) => Items(events)
  }

  /** A move that is not possible does nothing. */
  function Step(s: State, m: Move, max: nat, size: nat): State {
    match m
    case Publish(change) =>
      var event := LiveChange(|s.history| + 1, change);
      s.(history := s.history + [event], queue := if s.link.Away? then s.queue else Offered(s.queue, size, event))
    case Drop => s.(link := Away, queue := [], wire := [])
    case Copy(cursor) => if s.link.Away? && cursor <= |s.history| then s.(mirror := Published(s), last := cursor) else s
    case Attach => if s.link.Away? then s.(link := Waiting) else s
    case Replay(after) =>
      if s.link.Waiting? && after <= s.last then s.(link := Open, wire := Answer(s.history, max, after)) else s
    case Send => if s.link.Open? && s.queue != [] then s.(wire := s.wire + [s.queue[0]], queue := s.queue[1..]) else s
    case Handle =>
      if s.link.Open? && s.wire != [] then
        s.(mirror := Handled(s.mirror, s.wire[0], Published(s)), wire := s.wire[1..],
           last := if s.wire[0].Changed? then s.wire[0].event.id else s.last)
      else s
  }

  function Run(s: State, moves: seq<Move>, max: nat, size: nat): State
    decreases |moves|
  {
    if moves == [] then s else Run(Step(s, moves[0], max, size), moves[1..], max, size)
  }

  /** Connected, and nothing on its way. */
  predicate Drained(s: State) {
    s.link.Open? && s.wire == [] && s.queue == []
  }

  // What a copy covers

  /** Every path about which the changes say nothing is in the copy as it is in the published state. */
  ghost predicate Agrees(mirror: Files, changes: seq<Change>, published: Files) {
    forall path :: LastWord(changes, path).Silent? ==> At(mirror, path) == At(published, path)
  }

  /** The copy lacks nothing that the events after `upTo` will not tell; below zero nothing is promised. */
  ghost predicate Covers(mirror: Files, first: Files, history: seq<LiveChange>, upTo: int)
    requires upTo <= |history|
  {
    upTo >= 0 ==> Agrees(mirror, ChangesOf(history)[upTo..], Fold(first, ChangesOf(history)))
  }

  /** A copy that promises nothing until the next mark, and one that met a gap. */
  const UNKNOWN := -1
  const BEHIND := -2

  /** How far a copy that covers `upTo` covers after one more item. */
  function Advance(upTo: int, item: Item, published: nat): int {
    if upTo == BEHIND then BEHIND
    else if IsMark(item) then published
    else if upTo == UNKNOWN then UNKNOWN
    else if item.event.id <= upTo + 1 then item.event.id
    else BEHIND
  }

  function Reach(items: seq<Item>, upTo: int, published: nat): int {
    if items == [] then upTo else Advance(Reach(items[..|items| - 1], upTo, published), items[|items| - 1], published)
  }

  /** The items are events of the history, and marks. */
  ghost predicate Genuine(items: seq<Item>, history: seq<LiveChange>) {
    forall i | 0 <= i < |items| && items[i].Changed? ::
      1 <= items[i].event.id <= |history| && history[items[i].event.id - 1] == items[i].event
  }

  /** What is on its way brings the copy up to date. */
  ghost predicate OnCourse(s: State, upTo: int) {
    && History(s.history) && BEHIND < upTo <= |s.history|
    && Covers(s.mirror, s.first, s.history, upTo)
    && Genuine(s.queue, s.history) && Genuine(s.wire, s.history)
    && (s.link.Away? ==> s.queue == [] && s.wire == [])
    && (s.link.Waiting? ==> s.wire == [] && Reach(s.queue, |s.history|, |s.history|) == |s.history|)
    && (s.link.Open? ==> Reach(s.wire + s.queue, upTo, |s.history|) == |s.history|)
  }

  // One item, one event

  lemma NextPublished(first: Files, history: seq<LiveChange>, e: LiveChange)
    ensures ChangesOf(history + [e]) == ChangesOf(history) + [e.change]
    ensures Fold(first, ChangesOf(history + [e])) == Apply(Fold(first, ChangesOf(history)), e.change)
  {
    hide Apply;
    assert ChangesOf(history + [e]) == ChangesOf(history) + [e.change];
    FoldAppend(first, ChangesOf(history), [e.change]);
    FoldOne(Fold(first, ChangesOf(history)), e.change);
  }

  lemma SilentNext(changes: seq<Change>, c: Change, path: string)
    requires LastWord(changes + [c], path).Silent?
    ensures LastWord(changes, path).Silent? && (c.path != path || c.kind == ResyncRequired)
  {
    assert (changes + [c])[..|changes|] == changes;
  }

  lemma SilentApply(files: Files, c: Change, path: string)
    requires c.path != path || c.kind == ResyncRequired
    ensures At(Apply(files, c), path) == At(files, path)
  {
  }

  /** A copy covers as much after one more event is published. */
  lemma CoversNext(mirror: Files, first: Files, history: seq<LiveChange>, e: LiveChange, upTo: int)
    requires upTo <= |history| && Covers(mirror, first, history, upTo)
    ensures Covers(mirror, first, history + [e], upTo)
  {
    hide At, Apply, LastWord, Fold;
    NextPublished(first, history, e);
    if upTo >= 0 {
      var changes := ChangesOf(history);
      assert (changes + [e.change])[upTo..] == changes[upTo..] + [e.change];
      forall path | LastWord(changes[upTo..] + [e.change], path).Silent?
        ensures At(mirror, path) == At(Apply(Fold(first, changes), e.change), path)
      {
        SilentNext(changes[upTo..], e.change, path);
        SilentApply(Fold(first, changes), e.change, path);
      }
    }
  }

  lemma CoversAll(mirror: Files, first: Files, history: seq<LiveChange>)
    requires Covers(mirror, first, history, |history|)
    ensures mirror == Fold(first, ChangesOf(history))
  {
    assert ChangesOf(history)[|history|..] == [];
    SameFiles(mirror, Fold(first, ChangesOf(history)));
  }

  lemma PublishedCovers(first: Files, history: seq<LiveChange>, upTo: int)
    requires upTo <= |history|
    ensures Covers(Fold(first, ChangesOf(history)), first, history, upTo)
  {
  }

  lemma EventWord(c: Change, path: string)
    ensures LastWord([c], path) == if c.path == path && c.kind != ResyncRequired
      then Says(if c.kind == Deleted then None else Some(c.meta)) else Silent
  {
    assert [c][..0] == [];
  }

  lemma EventApplied(files: Files, c: Change)
    requires c.kind != ResyncRequired
    ensures At(Apply(files, c), c.path) == if c.kind == Deleted then None else Some(c.meta)
  {
  }

  /** Applying event `id` to a copy that covers everything before it leaves a copy that covers up to `id`. */
  lemma CoversHandled(mirror: Files, first: Files, history: seq<LiveChange>, upTo: nat, id: nat)
    requires upTo <= |history| && 1 <= id <= |history| && id <= upTo + 1 && Covers(mirror, first, history, upTo)
    requires history[id - 1].change.kind != ResyncRequired
    ensures Covers(Apply(mirror, history[id - 1].change), first, history, id)
  {
    hide At, Apply, LastWord, Fold;
    var changes, c := ChangesOf(history), history[id - 1].change;
    forall path | LastWord(changes[id..], path).Silent?
      ensures At(Apply(mirror, c), path) == At(Fold(first, changes), path)
    {
      assert changes[id - 1..] == [c] + changes[id..];
      LastWordAppend([c], changes[id..], path);
      EventWord(c, path);
      if path == c.path {
        EventApplied(mirror, c);
        TailDecides(first, changes, id - 1, path);
      } else {
        SilentApply(mirror, c, path);
        SilentTail(changes, id, upTo, path);
      }
    }
  }

  /** What the end of a history says about a path is what holds. */
  lemma TailDecides(first: Files, changes: seq<Change>, from: nat, path: string)
    requires from <= |changes| && LastWord(changes[from..], path).Says?
    ensures At(Fold(first, changes), path) == LastWord(changes[from..], path).state
  {
    hide At, LastWord;
    FoldAt(first, changes, path);
    assert changes == changes[..from] + changes[from..];
    LastWordAppend(changes[..from], changes[from..], path);
  }

  /** A path on which the events from just before `id` are silent is one on which those after `upTo` are. */
  lemma SilentTail(changes: seq<Change>, id: nat, upTo: nat, path: string)
    requires 1 <= id <= |changes| && id <= upTo + 1 && upTo <= |changes|
    requires LastWord(changes[id - 1..], path).Silent?
    ensures LastWord(changes[upTo..], path).Silent?
  {
    hide LastWord;
    assert changes[id - 1..] == changes[id - 1..upTo] + changes[upTo..];
    LastWordAppend(changes[id - 1..upTo], changes[upTo..], path);
  }

  // Reach

  lemma {:induction false} ReachAppend(a: seq<Item>, b: seq<Item>, upTo: int, published: nat)
    ensures Reach(a + b, upTo, published) == Reach(b, Reach(a, upTo, published), published)
    decreases |b|
  {
    hide Advance;
    if b == [] {
      assert a + b == a;
    } else {
      assert (a + b)[..|a + b| - 1] == a + b[..|b| - 1];
      ReachAppend(a, b[..|b| - 1], upTo, published);
    }
  }

  lemma {:induction false} ReachBehind(items: seq<Item>, published: nat)
    ensures Reach(items, BEHIND, published) == BEHIND
  {
    if items != [] {
      ReachBehind(items[..|items| - 1], published);
    }
  }

  lemma ReachOne(item: Item, upTo: int, published: nat)
    ensures Reach([item], upTo, published) == Advance(upTo, item, published)
  {
    hide Advance;
    assert [item][..0] == [];
  }

  lemma ReachFirst(items: seq<Item>, upTo: int, published: nat)
    requires items != []
    ensures Reach(items, upTo, published) == Reach(items[1..], Advance(upTo, items[0], published), published)
  {
    hide Advance, Reach;
    assert items == [items[0]] + items[1..];
    ReachAppend([items[0]], items[1..], upTo, published);
    ReachOne(items[0], upTo, published);
  }

  /** With one more event published, the items reach as far as before, or all the way. */
  lemma {:induction false} ReachGrows(items: seq<Item>, history: seq<LiveChange>, upTo: int, more: int)
    requires Genuine(items, history) && (more == upTo || (upTo == |history| && more == |history| + 1))
    ensures var r, r' := Reach(items, upTo, |history|), Reach(items, more, |history| + 1);
            r' == r || (r == |history| && r' == |history| + 1)
  {
    if items != [] {
      ReachGrows(items[..|items| - 1], history, upTo, more);
    }
  }

  lemma {:induction false} ReachRange(items: seq<Item>, history: seq<LiveChange>, upTo: int)
    requires Genuine(items, history) && BEHIND <= upTo <= |history|
    ensures BEHIND <= Reach(items, upTo, |history|) <= |history|
  {
    if items != [] {
      ReachRange(items[..|items| - 1], history, upTo);
    }
  }

  /** The new event, or the mark that takes the place of a full queue, closes the gap. */
  lemma ReachOffered(wire: seq<Item>, queue: seq<Item>, size: nat, history: seq<LiveChange>, e: LiveChange, upTo: int, more: int)
    requires Genuine(wire + queue, history) && e.id == |history| + 1
    requires more == upTo || (upTo == |history| && more == |history| + 1)
    requires Reach(wire + queue, upTo, |history|) == |history|
    ensures Reach(wire + Offered(queue, size, e), more, |history| + 1) == |history| + 1
  {
    hide Reach;
    ReachGrows(wire + queue, history, upTo, more);
    if |queue| < size {
      assert wire + Offered(queue, size, e) == wire + queue + [Changed(e)];
      ReachAppend(wire + queue, [Changed(e)], more, |history| + 1);
      ReachOne(Changed(e), Reach(wire + queue, more, |history| + 1), |history| + 1);
    } else {
      ReachAppend(wire, queue, upTo, |history|);
      ReachBehind(queue, |history|);
      assert forall i | 0 <= i < |wire| :: (wire + queue)[i] == wire[i];
      ReachGrows(wire, history, upTo, more);
      ReachAppend(wire, [Resync], more, |history| + 1);
      ReachOne(Resync, Reach(wire, more, |history| + 1), |history| + 1);
    }
  }

  /** Replayed events reach up to the last of them from a copy that covers their beginning; from any copy once there is a
      mark among them. */
  lemma {:induction false} ReachReplayed(history: seq<LiveChange>, after: nat, k: nat, upTo: int)
    requires History(history) && after <= k <= |history| && upTo <= |history| && (after <= upTo || upTo == UNKNOWN)
    ensures var r := Reach(Items(history[after..k]), upTo, |history|);
            || k <= r <= |history|
            || (r == UNKNOWN == upTo && forall i | after <= i < k :: history[i].change.kind != ResyncRequired)
    decreases k
  {
    hide Reach, History;
    if after < k {
      var items, e := Items(history[after..k]), history[k - 1];
      assert items[..|items| - 1] == Items(history[after..k - 1]) && items[|items| - 1] == Changed(e);
      LastId(history, k - 1);
      ReachFromEnd(items, upTo, |history|);
      ReachReplayed(history, after, k - 1, upTo);
    } else {
      ReachNothing(upTo, |history|);
    }
  }

  lemma ReachFromEnd(items: seq<Item>, upTo: int, published: nat)
    requires items != []
    ensures Reach(items, upTo, published) == Advance(Reach(items[..|items| - 1], upTo, published), items[|items| - 1], published)
  {
  }

  lemma ReachNothing(upTo: int, published: nat)
    ensures Reach([], upTo, published) == upTo
  {
  }

  predicate HasMark(items: seq<Item>) {
    exists i | 0 <= i < |items| :: IsMark(items[i])
  }

  /** What the handler answers, with any cursor: a mark, the events after the cursor, or nothing for a cursor beyond them. */
  lemma AnswerIs(history: seq<LiveChange>, max: nat, after: nat)
    requires History(history) && max > 0
    ensures Answer(history, max, after) == [Resync] || Answer(history, max, after) == Items(history[if after < |history| then after else |history|..])
  {
    hide Later, Kept;
    if after <= |history| {
      ReplayIsExact(history, max, after);
    } else {
      StaleCursorIsSilent(history, max, after);
    }
  }

  lemma ItemsReach(history: seq<LiveChange>, from: nat, upTo: int)
    requires History(history) && from <= |history| && BEHIND < upTo <= |history|
    requires (HasMark(Items(history[from..])) && upTo == UNKNOWN) || from <= upTo
    ensures Reach(Items(history[from..]), upTo, |history|) == |history|
  {
    hide Reach, History;
    var items := Items(history[from..]);
    assert history[from..|history|] == history[from..];
    ReachReplayed(history, from, |history|, upTo);
    if HasMark(items) {
      var i :| 0 <= i < |items| && IsMark(items[i]);
      assert history[from + i].change.kind == ResyncRequired;
    }
  }

  lemma ItemsGenuine(history: seq<LiveChange>, from: nat)
    requires History(history) && from <= |history|
    ensures Genuine(Items(history[from..]), history)
  {
  }

  /** The answer brings a copy up to date that covers what comes before the cursor, and every copy when it has a mark. */
  lemma AnswerReaches(history: seq<LiveChange>, max: nat, after: nat, upTo: int)
    requires History(history) && max > 0 && BEHIND < upTo <= |history|
    requires (HasMark(Answer(history, max, after)) && upTo == UNKNOWN) || (if after < |history| then after else |history|) <= upTo
    ensures Reach(Answer(history, max, after), upTo, |history|) == |history| && Genuine(Answer(history, max, after), history)
  {
    hide Answer, Reach, HasMark, Items, History;
    AnswerIs(history, max, after);
    if Answer(history, max, after) == [Resync] {
      ReachOne(Resync, upTo, |history|);
    } else {
      var from := if after < |history| then after else |history|;
      ItemsReach(history, from, upTo);
      ItemsGenuine(history, from);
    }
  }

  // Moves

  lemma GenuineNext(items: seq<Item>, history: seq<LiveChange>, e: LiveChange)
    requires Genuine(items, history)
    ensures Genuine(items, history + [e])
  {
  }

  lemma OfferedGenuine(queue: seq<Item>, size: nat, history: seq<LiveChange>, e: LiveChange)
    requires Genuine(queue, history) && e.id == |history| + 1
    ensures Genuine(Offered(queue, size, e), history + [e])
  {
  }

  lemma HistoryNext(history: seq<LiveChange>, e: LiveChange)
    requires History(history) && e.id == |history| + 1
    ensures History(history + [e])
  {
  }

  lemma PublishKeepsCourse(s: State, change: Change, max: nat, size: nat, upTo: int)
    requires OnCourse(s, upTo)
    ensures OnCourse(Step(s, Publish(change), max, size), upTo)
  {
    hide Covers, Reach, Genuine, Offered, History;
    var e := LiveChange(|s.history| + 1, change);
    CoversNext(s.mirror, s.first, s.history, e, upTo);
    HistoryNext(s.history, e);
    GenuineNext(s.wire, s.history, e);
    GenuineNext(s.queue, s.history, e);
    if !s.link.Away? {
      OfferedGenuine(s.queue, size, s.history, e);
      GenuineAppend(s.wire, s.queue, s.history);
      if s.link.Waiting? {
        assert [] + s.queue == s.queue && [] + Offered(s.queue, size, e) == Offered(s.queue, size, e);
        ReachOffered([], s.queue, size, s.history, e, |s.history|, |s.history| + 1);
      } else {
        ReachOffered(s.wire, s.queue, size, s.history, e, upTo, upTo);
      }
    }
  }

  lemma GenuineAppend(a: seq<Item>, b: seq<Item>, history: seq<LiveChange>)
    requires Genuine(a, history) && Genuine(b, history)
    ensures Genuine(a + b, history)
  {
  }

  lemma GenuineSlices(items: seq<Item>, history: seq<LiveChange>)
    requires Genuine(items, history) && items != []
    ensures Genuine(items[1..], history) && Genuine([items[0]], history)
  {
  }

  lemma SendKeepsCourse(s: State, max: nat, size: nat, upTo: int)
    requires OnCourse(s, upTo)
    ensures OnCourse(Step(s, Send, max, size), upTo)
  {
    hide Covers, Reach, Genuine, History;
    if s.link.Open? && s.queue != [] {
      GenuineSlices(s.queue, s.history);
      GenuineAppend(s.wire, [s.queue[0]], s.history);
      assert s.wire + [s.queue[0]] + s.queue[1..] == s.wire + s.queue;
    }
  }

  lemma HandleKeepsCourse(s: State, max: nat, size: nat, upTo: int)
    requires OnCourse(s, upTo) && s.link.Open? && s.wire != []
    ensures OnCourse(Step(s, Handle, max, size), Advance(upTo, s.wire[0], |s.history|))
    ensures 0 <= upTo && s.last <= upTo ==> Step(s, Handle, max, size).last <= Advance(upTo, s.wire[0], |s.history|)
  {
    hide Covers, Reach, History, Apply, Fold;
    var item := s.wire[0];
    GenuineSlices(s.wire, s.history);
    assert (s.wire + s.queue)[0] == item && (s.wire + s.queue)[1..] == s.wire[1..] + s.queue;
    ReachFirst(s.wire + s.queue, upTo, |s.history|);
    ReachBehind(s.wire[1..] + s.queue, |s.history|);
    if IsMark(item) {
      PublishedCovers(s.first, s.history, |s.history|);
    } else if 0 <= upTo {
      CoversHandled(s.mirror, s.first, s.history, upTo, item.event.id);
    } else {
      NothingPromised(Apply(s.mirror, item.event.change), s.first, s.history);
    }
  }

  lemma NothingPromised(mirror: Files, first: Files, history: seq<LiveChange>)
    ensures Covers(mirror, first, history, UNKNOWN)
  {
  }

  lemma ReplayKeepsCourse(s: State, after: nat, max: nat, size: nat, upTo: int)
    requires OnCourse(s, upTo) && s.last <= upTo && max > 0
    ensures OnCourse(Step(s, Replay(after), max, size), upTo)
  {
    hide Covers, Reach, Genuine, History, Answer, HasMark;
    if s.link.Waiting? && after <= s.last {
      AnswerReaches(s.history, max, after, upTo);
      ReachAppend(Answer(s.history, max, after), s.queue, upTo, |s.history|);
    }
  }

  lemma CopyKeepsCourse(s: State, cursor: nat, max: nat, size: nat, upTo: int)
    requires OnCourse(s, upTo) && s.link.Away? && cursor <= |s.history|
    ensures OnCourse(Step(s, Copy(cursor), max, size), |s.history|)
  {
    hide Covers, Reach, Genuine, History, Fold;
    PublishedCovers(s.first, s.history, |s.history|);
  }

  lemma ConnectKeepsCourse(s: State, m: Move, max: nat, size: nat, upTo: int)
    requires OnCourse(s, upTo) && (m.Drop? || m.Attach?)
    ensures OnCourse(Step(s, m, max, size), upTo)
  {
    hide Covers, History;
  }

  /** The client's last event id does not run ahead of what its copy covers. */
  ghost predicate Following(s: State, upTo: int) {
    OnCourse(s, upTo) && s.last <= upTo
  }

  lemma MoveKeepsFollowing(s: State, m: Move, max: nat, size: nat, upTo: int) returns (upTo': int)
    requires Following(s, upTo) && max > 0
    ensures Following(Step(s, m, max, size), upTo')
  {
    hide OnCourse, Offered, Answer;
    upTo' := upTo;
    match m
    case Publish(change) => PublishKeepsCourse(s, change, max, size, upTo);
    case Drop => ConnectKeepsCourse(s, m, max, size, upTo);
    case Attach => ConnectKeepsCourse(s, m, max, size, upTo);
    case Copy(cursor) =>
      if s.link.Away? && cursor <= |s.history| {
        CopyKeepsCourse(s, cursor, max, size, upTo);
        upTo' := |s.history|;
      }
    case Replay(after) => ReplayKeepsCourse(s, after, max, size, upTo);
    case Send => SendKeepsCourse(s, max, size, upTo);
    case Handle =>
      if s.link.Open? && s.wire != [] {
        HandleKeepsCourse(s, max, size, upTo);
        upTo' := Advance(upTo, s.wire[0], |s.history|);
      }
  }

  lemma {:induction false} RunKeepsFollowing(s: State, moves: seq<Move>, max: nat, size: nat, upTo: int) returns (upTo': int)
    requires Following(s, upTo) && max > 0
    ensures Following(Run(s, moves, max, size), upTo')
    decreases |moves|
  {
    hide Following, Step;
    upTo' := upTo;
    if moves != [] {
      var next := MoveKeepsFollowing(s, moves[0], max, size, upTo);
      upTo' := RunKeepsFollowing(Step(s, moves[0], max, size), moves[1..], max, size, next);
    }
  }

  lemma DrainedCovers(s: State, upTo: int)
    requires OnCourse(s, upTo) && Drained(s)
    ensures s.mirror == Published(s)
  {
    hide Covers, History, Genuine, Reach, Published;
    assert s.wire + s.queue == [];
    ReachNothing(upTo, |s.history|);
    CoversAll(s.mirror, s.first, s.history);
    PublishedIs(s);
  }

  // The theorems

  /** A client not connected, with a copy and a cursor. */
  function Client(first: Files, history: seq<LiveChange>, mirror: Files, cursor: nat): State {
    State(first, history, Away, [], [], mirror, cursor)
  }

  /** Over every run of publishing, dropping the connection, copying, attaching, replaying, sending and handling, with
      however small a log and queue: a client that starts with a copy covering its cursor is up to date whenever nothing is
      on its way. */
  lemma MirrorConverges(first: Files, history: seq<LiveChange>, mirror: Files, cursor: nat, moves: seq<Move>, max: nat, size: nat)
    requires History(history) && cursor <= |history| && Covers(mirror, first, history, cursor) && max > 0
    requires Drained(Run(Client(first, history, mirror, cursor), moves, max, size))
    ensures var end := Run(Client(first, history, mirror, cursor), moves, max, size); end.mirror == Published(end)
  {
    hide History, Covers, Run, Published, Reach;
    var end := Run(Client(first, history, mirror, cursor), moves, max, size);
    var upTo := RunKeepsFollowing(Client(first, history, mirror, cursor), moves, max, size, cursor);
    DrainedCovers(end, upTo);
  }

  lemma {:induction false} RunAppend(s: State, a: seq<Move>, b: seq<Move>, max: nat, size: nat)
    ensures Run(s, a + b, max, size) == Run(Run(s, a, max, size), b, max, size)
    decreases |a|
  {
    hide Step;
    if a == [] {
      assert a + b == b;
    } else {
      assert (a + b)[1..] == a[1..] + b;
      RunAppend(Step(s, a[0], max, size), a[1..], b, max, size);
    }
  }

  /** Moves after which nothing is on its way, with nothing published meanwhile. */
  ghost predicate Drains(s: State, moves: seq<Move>, max: nat, size: nat) {
    hide Run;
    && (forall i | 0 <= i < |moves| :: !moves[i].Publish?)
    && var end := Run(s, moves, max, size); Drained(end) && end.history == s.history && end.first == s.first
  }

  lemma OneMoreDrains(s: State, m: Move, rest: seq<Move>, max: nat, size: nat)
    requires !m.Publish? && Drains(Step(s, m, max, size), rest, max, size)
    requires Step(s, m, max, size).history == s.history && Step(s, m, max, size).first == s.first
    ensures Drains(s, [m] + rest, max, size)
  {
    hide Step;
    var moves := [m] + rest;
    assert moves[0] == m && moves[1..] == rest;
    assert forall i | 1 <= i < |moves| :: moves[i] == rest[i - 1];
  }

  /** An open connection can be drained: all that is queued is sent, all that is sent is handled. */
  lemma {:induction false} OpenDrains(s: State, max: nat, size: nat) returns (moves: seq<Move>)
    requires s.link.Open?
    ensures Drains(s, moves, max, size)
    decreases 2 * |s.queue| + |s.wire|
  {
    hide Drains, Handled;
    if s.queue == [] && s.wire == [] {
      moves := [];
      NoMoves(s, max, size);
    } else {
      var m := if s.queue != [] then Send else Handle;
      var rest := OpenDrains(Step(s, m, max, size), max, size);
      OneMoreDrains(s, m, rest, max, size);
      moves := [m] + rest;
    }
  }

  lemma NoMoves(s: State, max: nat, size: nat)
    requires Drained(s)
    ensures Drains(s, [], max, size)
  {
  }

  /** From anywhere a client can connect, have its cursor replayed and drain the connection. */
  lemma CanDrain(s: State, max: nat, size: nat) returns (moves: seq<Move>)
    ensures Drains(s, moves, max, size)
  {
    hide Drains, Answer, Run;
    if s.link.Open? {
      moves := OpenDrains(s, max, size);
    } else {
      var waiting := if s.link.Away? then Step(s, Attach, max, size) else s;
      var open := Step(waiting, Replay(s.last), max, size);
      var rest := OpenDrains(open, max, size);
      OneMoreDrains(waiting, Replay(s.last), rest, max, size);
      moves := [Replay(s.last)] + rest;
      if s.link.Away? {
        OneMoreDrains(s, Attach, moves, max, size);
        moves := [Attach] + moves;
      }
    }
  }

  /** However a run has gone, the client can still get up to date, without a copy: there are moves, none of them publishing,
      after which its copy is what was last published. */
  lemma CanConverge(first: Files, history: seq<LiveChange>, mirror: Files, cursor: nat, moves: seq<Move>, max: nat, size: nat)
    returns (more: seq<Move>)
    requires History(history) && cursor <= |history| && Covers(mirror, first, history, cursor) && max > 0
    ensures var s := Run(Client(first, history, mirror, cursor), moves, max, size);
            Drains(s, more, max, size) && Run(s, more, max, size).mirror == Published(s)
  {
    hide History, Covers, Published, Step, Run;
    var client := Client(first, history, mirror, cursor);
    var s := Run(client, moves, max, size);
    more := CanDrain(s, max, size);
    RunAppend(client, moves, more, max, size);
    MirrorConverges(first, history, mirror, cursor, moves + more, max, size);
    SamePublished(s, Run(s, more, max, size));
  }

  lemma SamePublished(a: State, b: State)
    requires a.first == b.first && a.history == b.history
    ensures Published(a) == Published(b)
  {
  }

  /** The copy of any moment covers every cursor up to it. */
  lemma SnapshotCovers(first: Files, history: seq<LiveChange>, cursor: nat, copied: nat)
    requires cursor <= copied <= |history|
    ensures Covers(Fold(first, ChangesOf(history)[..copied]), first, history, cursor)
  {
    hide At, LastWord, Fold;
    var changes := ChangesOf(history);
    forall path | LastWord(changes[cursor..], path).Silent?
      ensures At(Fold(first, changes[..copied]), path) == At(Fold(first, changes), path)
    {
      assert changes == changes[..copied] + changes[copied..] && changes[cursor..] == changes[cursor..copied] + changes[copied..];
      LastWordAppend(changes[cursor..copied], changes[copied..], path);
      LastWordAppend(changes[..copied], changes[copied..], path);
      FoldAt(first, changes, path);
      FoldAt(first, changes[..copied], path);
    }
  }

  /** The moment after an answer: nothing is queued yet. */
  function Answered(first: Files, history: seq<LiveChange>, mirror: Files, cursor: nat, max: nat): State {
    State(first, history, Open, [], Answer(history, max, cursor), mirror, cursor)
  }

  predicate OneConnection(moves: seq<Move>) {
    forall i | 0 <= i < |moves| :: moves[i].Publish? || moves[i].Send? || moves[i].Handle?
  }

  /** Whenever nothing is on its way any more, the copy is up to date. */
  ghost predicate AlwaysConverges(s: State, max: nat, size: nat) {
    forall moves | OneConnection(moves) && Drained(Run(s, moves, max, size)) ::
      Run(s, moves, max, size).mirror == Published(Run(s, moves, max, size))
  }

  function Clamp(cursor: nat, history: seq<LiveChange>): (c: nat)
    ensures c <= |history|
  {
    if cursor < |history| then cursor else |history|
  }

  lemma {:induction false} ConnectionKeepsCourse(s: State, moves: seq<Move>, max: nat, size: nat, upTo: int) returns (upTo': int)
    requires OnCourse(s, upTo) && OneConnection(moves)
    ensures OnCourse(Run(s, moves, max, size), upTo')
    decreases |moves|
  {
    hide OnCourse, Offered, Covers;
    upTo' := upTo;
    if moves != [] {
      var m := moves[0];
      if m.Publish? {
        PublishKeepsCourse(s, m.change, max, size, upTo);
      } else if m.Send? {
        SendKeepsCourse(s, max, size, upTo);
      } else if s.link.Open? && s.wire != [] {
        HandleKeepsCourse(s, max, size, upTo);
        upTo' := Advance(upTo, s.wire[0], |s.history|);
      }
      assert OneConnection(moves[1..]) by {
        assert forall i | 0 <= i < |moves| - 1 :: moves[1..][i] == moves[i + 1];
      }
      upTo' := ConnectionKeepsCourse(Step(s, m, max, size), moves[1..], max, size, upTo');
    }
  }

  /** Handling an answer without a mark applies its events. */
  lemma {:induction false} HandleAll(s: State, events: seq<LiveChange>, max: nat, size: nat) returns (moves: seq<Move>)
    requires s.link.Open? && s.queue == [] && s.wire == Items(events) && !HasMark(s.wire)
    ensures OneConnection(moves) && Drained(Run(s, moves, max, size)) && Run(s, moves, max, size).history == s.history
    ensures Run(s, moves, max, size).first == s.first && Run(s, moves, max, size).mirror == Fold(s.mirror, ChangesOf(events))
    decreases |events|
  {
    hide Apply, Fold;
    if events == [] {
      moves := [];
      FoldOne(s.mirror, LOST);
      assert ChangesOf(events) == [];
    } else {
      var next := Step(s, Handle, max, size);
      assert next.wire == Items(events[1..]);
      assert forall i | 0 <= i < |next.wire| :: next.wire[i] == s.wire[i + 1];
      var rest := HandleAll(next, events[1..], max, size);
      moves := [Handle] + rest;
      assert moves[1..] == rest;
      assert ChangesOf(events) == [events[0].change] + ChangesOf(events[1..]);
      FoldAppend(s.mirror, [events[0].change], ChangesOf(events[1..]));
      FoldOne(s.mirror, events[0].change);
    }
  }

  /** For any copy and any cursor, an earlier session's included: whatever happens on the connection the client ends up to
      date, exactly when the answer has a mark or the copy covers what comes before the cursor. */
  lemma ConnectionConvergesIff(first: Files, history: seq<LiveChange>, mirror: Files, cursor: nat, max: nat, size: nat)
    requires History(history) && max > 0
    ensures AlwaysConverges(Answered(first, history, mirror, cursor, max), max, size)
       <==> HasMark(Answer(history, max, cursor)) || Covers(mirror, first, history, Clamp(cursor, history))
  {
    hide Covers, Run, Published, Reach, Answer, History, HasMark, Genuine;
    var s, from := Answered(first, history, mirror, cursor, max), Clamp(cursor, history);
    if HasMark(s.wire) || Covers(mirror, first, history, from) {
      var upTo := if Covers(mirror, first, history, from) then from else UNKNOWN;
      NothingPromised(mirror, first, history);
      AnswerReaches(history, max, cursor, upTo);
      EmptyGenuine(history);
      assert s.wire + [] == s.wire;
      assert OnCourse(s, upTo);
      forall moves | OneConnection(moves) && Drained(Run(s, moves, max, size))
        ensures Run(s, moves, max, size).mirror == Published(Run(s, moves, max, size))
      {
        var end := ConnectionKeepsCourse(s, moves, max, size, upTo);
        DrainedCovers(Run(s, moves, max, size), end);
      }
    } else {
      AnswerIs(history, max, cursor);
      OneMark();
      var moves := HandleAll(s, history[from..], max, size);
      var end := Run(s, moves, max, size);
      ApplyRestCovers(mirror, first, history, from);
      assert Published(end) == Fold(first, ChangesOf(history)) by { PublishedIs(end); }
    }
  }

  lemma EmptyGenuine(history: seq<LiveChange>)
    ensures Genuine([], history)
  {
  }

  lemma OneMark()
    ensures HasMark([Resync])
  {
    assert IsMark([Resync][0]);
  }

  lemma PublishedIs(s: State)
    ensures Published(s) == Fold(s.first, ChangesOf(s.history))
  {
  }

  /** Applying the events after a cursor gives the published state exactly when the copy covers what comes before it. */
  lemma ApplyRestCovers(mirror: Files, first: Files, history: seq<LiveChange>, cursor: nat)
    requires cursor <= |history|
    ensures Fold(mirror, ChangesOf(history[cursor..])) == Fold(first, ChangesOf(history)) <==> Covers(mirror, first, history, cursor)
  {
    hide At, LastWord, Fold;
    var changes := ChangesOf(history);
    var rest := changes[cursor..];
    var a, b := Fold(mirror, rest), Fold(first, changes);
    assert ChangesOf(history[cursor..]) == rest;
    forall path
      ensures At(a, path) == At(b, path) <==> (LastWord(rest, path).Silent? ==> At(mirror, path) == At(b, path))
    {
      FoldAt(mirror, rest, path);
      if LastWord(rest, path).Says? {
        TailDecides(first, changes, cursor, path);
      }
    }
    if Covers(mirror, first, history, cursor) {
      SameFiles(a, b);
    }
  }

  lemma {:induction false} UnspokenPath(changes: seq<Change>) returns (path: string)
    ensures LastWord(changes, path).Silent? && forall i | 0 <= i < |changes| :: |changes[i].path| < |path|
  {
    if changes == [] {
      path := "/";
    } else {
      var n := |changes| - 1;
      var shorter := UnspokenPath(changes[..n]);
      path := if |shorter| > |changes[n].path| then shorter else changes[n].path + "/";
      UnspokenIfLonger(changes, path);
    }
  }

  lemma {:induction false} UnspokenIfLonger(changes: seq<Change>, path: string)
    requires forall i | 0 <= i < |changes| :: |changes[i].path| < |path|
    ensures LastWord(changes, path).Silent?
  {
    if changes != [] {
      UnspokenIfLonger(changes[..|changes| - 1], path);
    }
  }

  /** The next event after the cursor was evicted, or a later one is itself a resync. */
  predicate WillMark(history: seq<LiveChange>, max: nat, cursor: nat) {
    cursor < |history|
    && (cursor < |history| - max || exists i | cursor <= i < |history| :: history[i].change.kind == ResyncRequired)
  }

  /** Which the server can tell before it answers. */
  lemma AnswerMarksIff(history: seq<LiveChange>, max: nat, cursor: nat)
    requires History(history) && max > 0
    ensures HasMark(Answer(history, max, cursor)) <==> WillMark(history, max, cursor)
  {
    hide Later, History;
    if cursor < |history| {
      ReplayIsExact(history, max, cursor);
      StillKept(history, |history| - |Kept(history, max)|, cursor);
      OneMark();
      var items := Items(history[cursor..]);
      if cursor >= |history| - max {
        assert forall k | 0 <= k < |items| :: items[k] == Changed(history[cursor + k]);
        if i :| cursor <= i < |history| && history[i].change.kind == ResyncRequired {
          assert IsMark(items[i - cursor]);
        }
      }
    } else {
      AnswerIs(history, max, cursor);
      NoMarkBeyond(history, max, cursor);
    }
  }

  lemma NoMarkBeyond(history: seq<LiveChange>, max: nat, cursor: nat)
    requires History(history) && max > 0 && cursor >= |history|
    ensures Answer(history, max, cursor) == []
  {
    hide Later;
    if cursor == |history| {
      ReplayIsExact(history, max, cursor);
    } else {
      StaleCursorIsSilent(history, max, cursor);
    }
  }

  /** Every copy will converge exactly when the next event was evicted or a later one is itself a resync. */
  lemma EveryCopyConvergesIff(first: Files, history: seq<LiveChange>, cursor: nat, max: nat, size: nat)
    requires History(history) && max > 0
    ensures (forall mirror :: AlwaysConverges(Answered(first, history, mirror, cursor, max), max, size))
       <==> WillMark(history, max, cursor)
  {
    hide AlwaysConverges, Answered, Answer, History, HasMark, WillMark, LastWord, At, Fold;
    AnswerMarksIff(history, max, cursor);
    forall mirror
      ensures AlwaysConverges(Answered(first, history, mirror, cursor, max), max, size)
         <==> HasMark(Answer(history, max, cursor)) || Covers(mirror, first, history, Clamp(cursor, history))
    {
      ConnectionConvergesIff(first, history, mirror, cursor, max, size);
    }
    var changes, published := ChangesOf(history)[Clamp(cursor, history)..], Fold(first, ChangesOf(history));
    var path := UnspokenPath(changes);
    var mirror := Toggled(published, path);
    ToggledDiffers(published, path);
    assert !Covers(mirror, first, history, Clamp(cursor, history));
  }

  function Toggled(files: Files, path: string): Files {
    if path in files then files - {path} else files[path := LOST.meta]
  }

  lemma ToggledDiffers(files: Files, path: string)
    ensures At(Toggled(files, path), path) != At(files, path)
  {
  }

  /** A cursor of an earlier session within the history: a client whose copy lacks the first change gets only the second. */
  lemma OldCursorMisses(first: Files, a: Change, b: Change, max: nat, size: nat)
    requires max > 0 && a.kind != ResyncRequired && b.kind != ResyncRequired && a.path != b.path
    requires At(Apply(first, a), a.path) != At(first, a.path)
    ensures var history := [LiveChange(1, a), LiveChange(2, b)];
            && !HasMark(Answer(history, max, 1)) && !AlwaysConverges(Answered(first, history, first, 1, max), max, size)
  {
    hide Answer, AlwaysConverges, Answered, At, Apply, LastWord;
    var history := [LiveChange(1, a), LiveChange(2, b)];
    AnswerIs(history, max, 1);
    assert history[1..] == [LiveChange(2, b)];
    TwoChanges(first, history, a, b);
    EventWord(b, a.path);
    EventApplied(first, a);
    SilentApply(Apply(first, a), b, a.path);
    assert !Covers(first, first, history, 1);
    ConnectionConvergesIff(first, history, first, 1, max, size);
    NoGapAfterOne(history, max);
  }

  lemma TwoChanges(first: Files, history: seq<LiveChange>, a: Change, b: Change)
    requires history == [LiveChange(1, a), LiveChange(2, b)]
    ensures ChangesOf(history)[1..] == [b] && Fold(first, ChangesOf(history)) == Apply(Apply(first, a), b)
  {
    hide Apply;
    assert ChangesOf(history) == [a] + [b];
    FoldAppend(first, [a], [b]);
    FoldOne(first, a);
    FoldOne(Apply(first, a), b);
  }

  lemma NoGapAfterOne(history: seq<LiveChange>, max: nat)
    requires History(history) && |history| == 2 && max > 0 && history[1].change.kind != ResyncRequired
    ensures !HasMark(Answer(history, max, 1))
  {
    hide Later;
    ReplayIsExact(history, max, 1);
    var kept := Kept(history, max);
    assert history[1] == kept[|kept| - 1];
    assert history[1..] == [history[1]];
  }

  /** A cursor beyond the history: a client whose copy is not up to date gets nothing at all. */
  lemma StaleCursorMisses(first: Files, history: seq<LiveChange>, mirror: Files, cursor: nat, max: nat, size: nat)
    requires History(history) && max > 0 && cursor > |history| && mirror != Fold(first, ChangesOf(history))
    ensures Drained(Answered(first, history, mirror, cursor, max)) && !AlwaysConverges(Answered(first, history, mirror, cursor, max), max, size)
  {
    StaleCursorIsSilent(history, max, cursor);
    var s := Answered(first, history, mirror, cursor, max);
    assert OneConnection([]) && Run(s, [], max, size) == s;
  }

  // The whole pipeline

  function PublishedIn(m: Move): seq<Change> {
    if m.Publish? then [m.change] else []
  }

  function PublishedBy(moves: seq<Move>): seq<Change> {
    if moves == [] then [] else PublishedIn(moves[0]) + PublishedBy(moves[1..])
  }

  lemma StepPublishes(s: State, m: Move, max: nat, size: nat)
    ensures Step(s, m, max, size).first == s.first
    ensures ChangesOf(Step(s, m, max, size).history) == ChangesOf(s.history) + PublishedIn(m)
  {
    hide Offered, Answer, Published, Handled, ChangesOf;
    if m.Publish? {
      NextPublished(s.first, s.history, LiveChange(|s.history| + 1, m.change));
    } else {
      assert ChangesOf(s.history) + [] == ChangesOf(s.history);
    }
  }

  lemma {:induction false} RunPublishes(s: State, moves: seq<Move>, max: nat, size: nat)
    ensures Run(s, moves, max, size).first == s.first
    ensures ChangesOf(Run(s, moves, max, size).history) == ChangesOf(s.history) + PublishedBy(moves)
    decreases |moves|
  {
    hide Step, PublishedIn, ChangesOf;
    if moves == [] {
      assert ChangesOf(s.history) + [] == ChangesOf(s.history);
    } else {
      StepPublishes(s, moves[0], max, size);
      RunPublishes(Step(s, moves[0], max, size), moves[1..], max, size);
    }
  }

  /** From the watcher's looks to the client's copy: if what a watch calls back with is published in order, a client that
      starts from the first look holds the last one taken over whenever nothing is on its way. */
  method FollowWatch(looks: seq<Look>, refused: nat -> bool, ghost moves: seq<Move>, max: nat, size: nat)
    returns (calls: seq<Change>, end: End, rounds: nat)
    requires looks != [] && max > 0
    ensures rounds < |looks|
    ensures var client := Run(Client(looks[0].files, [], looks[0].files, 0), moves, max, size);
            PublishedBy(moves) == calls && !end.Refused? && Drained(client) ==> client.mirror == looks[rounds].files
  {
    hide Run, Drained, Published, Covers;
    calls, end, rounds := WatchChanges(looks, refused);
    var first := looks[0].files;
    ghost var client := Run(Client(first, [], first, 0), moves, max, size);
    if PublishedBy(moves) == calls && !end.Refused? && Drained(client) {
      RunPublishes(Client(first, [], first, 0), moves, max, size);
      assert ChangesOf([]) + calls == calls;
      SelfCovers(first);
      MirrorConverges(first, [], first, 0, moves, max, size);
      PublishedIs(client);
    }
  }

  lemma SelfCovers(first: Files)
    ensures Covers(first, first, [], 0)
  {
    assert ChangesOf([]) == [];
    FoldOne(first, LOST);
  }
}
