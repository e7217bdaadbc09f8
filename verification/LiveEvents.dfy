/** Turning snapshots into change events, and events back into snapshots. */
module LiveEvents {
  import opened Text
  import opened LiveSnapshot

  type Files = map<string, Meta>

  datatype Kind = Created | Modified | Deleted | ResyncRequired

  datatype Change = Change(kind: Kind, path: string, meta: Meta)

  const LOST := Change(ResyncRequired, "/", Meta(DirKind, None, None))

  /** What a follower does with one event; a resync event says nothing about a file. */
  function Apply(files: Files, c: Change): Files {
    match c.kind
    case Created => files[c.path := c.meta]
    case Modified => files[c.path := c.meta]
    case Deleted => files - {c.path}
    case ResyncRequired => files
  }

  function Fold(files: Files, changes: seq<Change>): Files {
    if changes == [] then files else Apply(Fold(files, changes[..|changes| - 1]), changes[|changes| - 1])
  }

  function At(files: Files, path: string): Option<Meta> {
    if path in files then Some(files[path]) else None
  }

  /** The event for one path, None when nothing changed. */
  function Difference(before: Option<Meta>, after: Option<Meta>, path: string): Option<Change> {
    if before == after then None
    else if before.None? then Some(Change(Created, path, after.value))
    else if after.None? then Some(Change(Deleted, path, before.value))
    else Some(Change(Modified, path, after.value))
  }

  function Diff(previous: Files, current: Files, paths: seq<string>): seq<Change> {
    if paths == [] then []
    else
      var n := |paths| - 1;
      var d := Difference(At(previous, paths[n]), At(current, paths[n]), paths[n]);
      Diff(previous, current, paths[..n]) + if d.Some? then [d.value] else []
  }

  /** Strictly ascending in text order. */
  ghost predicate Ascending(paths: seq<string>) {
    forall i, j | 0 <= i < j < |paths| :: Less(paths[i], paths[j])
  }

  lemma {:induction false} FoldAppend(files: Files, a: seq<Change>, b: seq<Change>)
    ensures Fold(files, a + b) == Fold(Fold(files, a), b)
    decreases |b|
  {
    if b == [] {
      assert a + b == a;
    } else {
      var n := |b| - 1;
      assert (a + b)[..|a + b| - 1] == a + b[..n];
      FoldAppend(files, a, b[..n]);
    }
  }

  /** There is an event exactly for a change, and its kind says whether the path is new, gone, or different; it carries what is
      there now, or what was there. */
  lemma KindOfDifference(before: Option<Meta>, after: Option<Meta>, path: string)
    ensures var d := Difference(before, after, path);
            && (d.Some? <==> before != after) && (d.Some? ==> d.value.path == path)
            && (d.Some? ==> (d.value.kind == Created <==> before.None?) && (d.value.kind == Deleted <==> after.None?))
            && (d.Some? && before.Some? && after.Some? ==> d.value.kind == Modified)
            && (d.Some? ==> Some(d.value.meta) == if after.Some? then after else before)
  {
  }

  lemma ApplyDifference(files: Files, before: Option<Meta>, after: Option<Meta>, changed: string, path: string)
    requires At(files, changed) == before || At(files, changed) == after
    ensures var d := Difference(before, after, changed);
            At(if d.Some? then Apply(files, d.value) else files, path) == if path == changed then after else At(files, path)
  {
  }

  lemma FoldOne(files: Files, c: Change)
    ensures Fold(files, [c]) == Apply(files, c) && Fold(files, []) == files
  {
    hide Apply;
    assert [c][..0] == [];
  }

  /** Folding the diff over the paths seen so far sets exactly those to their new state. */
  lemma {:induction false} DiffFoldsPart(previous: Files, current: Files, paths: seq<string>, path: string)
    ensures At(Fold(previous, Diff(previous, current, paths)), path)
         == if path in paths then At(current, path) else At(previous, path)
    decreases |paths|
  {
    hide Apply, Difference, At;
    if paths == [] {
      FoldOne(previous, LOST);
    } else {
      var n := |paths| - 1;
      var before, after := At(previous, paths[n]), At(current, paths[n]);
      var d := Difference(before, after, paths[n]);
      var done := Diff(previous, current, paths[..n]);
      var mid := Fold(previous, done);
      DiffFoldsPart(previous, current, paths[..n], path);
      DiffFoldsPart(previous, current, paths[..n], paths[n]);
      assert paths == paths[..n] + [paths[n]];
      FoldAppend(previous, done, if d.Some? then [d.value] else []);
      FoldOne(mid, if d.Some? then d.value else LOST);
      ApplyDifference(mid, before, after, paths[n], path);
    }
  }

  /** The events of a round, applied to the previous snapshot, give the current one. */
  lemma DiffFolds(previous: Files, current: Files, paths: seq<string>)
    requires forall path | path in previous || path in current :: path in paths
    ensures Fold(previous, Diff(previous, current, paths)) == current
  {
    var r := Fold(previous, Diff(previous, current, paths));
    forall path
      ensures At(r, path) == At(current, path)
    {
      DiffFoldsPart(previous, current, paths, path);
    }
    assert forall path :: path in r <==> At(r, path).Some?;
    assert forall path :: path in current <==> At(current, path).Some?;
    assert forall path | path in r :: r[path] == current[path];
  }

  /** `sorted(paths)` */
  method Sorted(paths: set<string>) returns (list: seq<string>)
    ensures Ascending(list) && forall path :: path in list <==> path in paths
  {
    hide Less;
    list := [];
    var todo := paths;
    while todo != {}
      invariant todo <= paths && forall path :: path in list <==> path in paths && path !in todo
      invariant Ascending(list) && forall i, path | 0 <= i < |list| && path in todo :: Less(list[i], path)
      decreases |todo|
    {
      FirstExists(todo);
      var first :| first in todo && forall path | path in todo && path != first :: Less(first, path);
      list, todo := list + [first], todo - {first};
    }
  }

  lemma {:induction false} FirstExists(paths: set<string>)
    requires paths != {}
    ensures exists first :: first in paths && forall path | path in paths && path != first :: Less(first, path)
    decreases |paths|
  {
    hide Less;
    var x :| x in paths;
    var rest := paths - {x};
    if rest == {} {
      assert paths == {x};
    } else {
      FirstExists(rest);
      var y :| y in rest && forall path | path in rest && path != y :: Less(y, path);
      LessTotal(x, y);
      var first := if Less(x, y) then x else y;
      forall path | path in paths && path != first
        ensures Less(first, path)
      {
        if first == x && path != y {
          LessTransitive(x, y, path);
        }
      }
    }
  }

  // Replaying

  /** What a run of events leaves for one path: nothing said, deleted, or data. */
  datatype Word = Silent | Says(state: Option<Meta>)

  function LastWord(changes: seq<Change>, path: string): Word {
    if changes == [] then Silent
    else
      var c := changes[|changes| - 1];
      if c.path == path && c.kind != ResyncRequired then Says(if c.kind == Deleted then None else Some(c.meta))
      else LastWord(changes[..|changes| - 1], path)
  }

  lemma {:induction false} FoldAt(files: Files, changes: seq<Change>, path: string)
    ensures At(Fold(files, changes), path)
         == var word := LastWord(changes, path); if word.Says? then word.state else At(files, path)
  {
    if changes != [] {
      FoldAt(files, changes[..|changes| - 1], path);
    }
  }

  lemma {:induction false} LastWordAppend(a: seq<Change>, b: seq<Change>, path: string)
    ensures LastWord(a + b, path) == if LastWord(b, path).Says? then LastWord(b, path) else LastWord(a, path)
    decreases |b|
  {
    if b == [] {
      assert a + b == a;
    } else {
      assert (a + b)[..|a + b| - 1] == a + b[..|b| - 1];
      LastWordAppend(a, b[..|b| - 1], path);
    }
  }

  lemma SameFiles(a: Files, b: Files)
    requires forall path :: At(a, path) == At(b, path)
    ensures a == b
  {
    assert forall path :: path in a <==> At(a, path).Some?;
    assert forall path :: path in b <==> At(b, path).Some?;
    assert forall path | path in a :: a[path] == b[path] by {
      forall path | path in a
        ensures a[path] == b[path]
      {
        assert At(a, path) == At(b, path);
      }
    }
  }

  /** Events that a copy already contains do no harm: the copy may be taken anywhere in the run that is replayed. */
  lemma ReplayHarmless(files: Files, history: seq<Change>, from: nat, copied: nat)
    requires from <= copied <= |history|
    ensures Fold(Fold(files, history[..copied]), history[from..]) == Fold(files, history)
  {
    hide LastWord;
    var seen, rest, replayed := history[..copied], history[copied..], history[from..];
    assert history == seen + rest && replayed == history[from..copied] + rest;
    var a, b := Fold(Fold(files, seen), replayed), Fold(files, history);
    forall path
      ensures At(a, path) == At(b, path)
    {
      FoldAt(files, seen, path);
      FoldAt(Fold(files, seen), replayed, path);
      FoldAt(files, history, path);
      LastWordAppend(seen, rest, path);
      LastWordAppend(history[from..copied], rest, path);
      assert seen == history[..from] + history[from..copied];
      LastWordAppend(history[..from], history[from..copied], path);
    }
    SameFiles(a, b);
  }

  // The watcher

  /** One look at the source. */
  datatype Look = Look(files: Files, complete: bool)

  datatype End = Ended | Lost | Refused

  lemma LostSilent(files: Files, changes: seq<Change>)
    ensures Fold(files, changes + [LOST]) == Fold(files, changes) && Fold(files, []) == files
  {
    assert (changes + [LOST])[..|changes|] == changes;
  }

  /** One round: every path of either snapshot in order, until a call is refused. */
  method EmitRound(previous: Files, current: Files, before: seq<Change>, refused: nat -> bool)
    returns (calls: seq<Change>, ok: bool, ghost paths: seq<string>, ghost reached: nat)
    ensures Ascending(paths) && forall path :: path in paths <==> path in previous || path in current
    ensures reached <= |paths| && calls == before + Diff(previous, current, paths[..reached])
    ensures ok ==> reached == |paths|
    ensures ok ==> forall k | |before| <= k < |calls| :: !refused(k)
    ensures !ok ==> |calls| > |before| && refused(|calls| - 1) && forall k | |before| <= k < |calls| - 1 :: !refused(k)
  {
    hide Ascending, Difference;
    var list := Sorted(previous.Keys + current.Keys);
    paths, calls, ok, reached := list, before, true, 0;
    for i := 0 to |list|
      invariant ok && calls == before + Diff(previous, current, list[..i])
      invariant forall k | |before| <= k < |calls| :: !refused(k)
    {
      assert list[..i + 1][..i] == list[..i];
      reached := i + 1;
      var change := Difference(At(previous, list[i]), At(current, list[i]), list[i]);
      if change.None? {
        continue;
      }
      calls := calls + [change.value];
      if refused(|calls| - 1) {
        ok := false;
        return;
      }
    }
    reached := |list|;
    assert list[..|list|] == list;
  }

  /** `watch_changes` over the successive looks until it is stopped: what it calls `on_change` with, and whether call
      number k is answered with False. `rounds` counts the looks taken over completely after the first. */
  method WatchChanges(looks: seq<Look>, refused: nat -> bool) returns (calls: seq<Change>, end: End, rounds: nat)
    requires looks != []
    ensures rounds < |looks|
    // Ended: the events turn the first look into the last.
    ensures end.Ended? ==> rounds == |looks| - 1 && Fold(looks[0].files, calls) == looks[rounds].files
    // Lost: an incomplete look is announced once and ends the watch.
    ensures end.Lost? ==> |calls| > 0 && calls[|calls| - 1] == LOST && Fold(looks[0].files, calls) == looks[rounds].files
    ensures end.Lost? ==> (!looks[0].complete && calls == [LOST]) || (rounds + 1 < |looks| && !looks[rounds + 1].complete)
    // Refused: the calls stop inside one round.
    ensures end.Refused? ==> calls != [] && refused(|calls| - 1) && rounds + 1 < |looks|
    ensures looks[0].complete ==> forall k | 0 <= k <= rounds :: looks[k].complete
  {
    hide Fold, Diff, Ascending, Apply;
    calls, end, rounds := [], Ended, 0;
    var previous := looks[0].files;
    LostSilent(looks[0].files, []);
    if !looks[0].complete {
      calls, end := [LOST], Lost;
      assert [] + [LOST] == [LOST];
      return;
    }
    for i := 1 to |looks|
      invariant rounds == i - 1 && end.Ended? && previous == looks[rounds].files
      invariant Fold(looks[0].files, calls) == previous
      invariant forall k | 0 <= k < i :: looks[k].complete
    {
      var current := looks[i].files;
      if !looks[i].complete {
        LostSilent(looks[0].files, calls);
        calls, end := calls + [LOST], Lost;
        return;
      }
      ghost var before := calls;
      var ok: bool;
      ghost var paths, reached;
      calls, ok, paths, reached := EmitRound(previous, current, calls, refused);
      if !ok {
        end := Refused;
        return;
      }
      assert paths[..|paths|] == paths;
      FoldAppend(looks[0].files, before, Diff(previous, current, paths));
      DiffFolds(previous, current, paths);
      previous, rounds := current, i;
    }
  }
}
