/** Restore ownership: parsing uid:gid, merging volume scopes, and resolving the layers of a policy. */
module Ownership {
  import opened Text
  import opened Decimal

  // uid:gid

  function ParseUidGid(text: string): (r: Option<(nat, nat)>) {
    var parts := Split(text, ':');
    if |parts| == 2 && parts[0] != "" && parts[1] != "" && AllDigits(parts[0]) && AllDigits(parts[1])
    then Some((Value(parts[0]), Value(parts[1]))) else None
  }

  function UidGid(uid: nat, gid: nat): string {
    Render(uid) + [':'] + Render(gid)
  }

  /** `_uid_gid_text`: the same ids without leading zeros. */
  function Canonical(text: string): Option<string> {
    match ParseUidGid(text)
    case Some((uid, gid)) => Some(UidGid(uid, gid))
    case None => None
  }

  /** Canonical text parses to the ids it was made from, and is its own canonical form. */
  lemma ParseCanonical(uid: nat, gid: nat)
    ensures ParseUidGid(UidGid(uid, gid)) == Some((uid, gid)) && Canonical(UidGid(uid, gid)) == Some(UidGid(uid, gid))
  {
    hide Render, Value;
    var u, g := Render(uid), Render(gid);
    assert ':' !in u && ':' !in g;
    SplitPrefix(u, g, ':');
    SplitPrefix(g, "", ':');
    ValueRender(uid);
    ValueRender(gid);
  }

  /** A text is read exactly when it is two non-empty runs of digits with a colon between them, each to its number. */
  lemma UidGidRead(text: string, uid: string, gid: string)
    ensures uid != "" && gid != "" && AllDigits(uid) && AllDigits(gid) && text == uid + ":" + gid ==>
              ParseUidGid(text) == Some((Value(uid), Value(gid)))
    ensures ParseUidGid(text).Some? ==>
              var parts := Split(text, ':');
              |parts| == 2 && text == parts[0] + ":" + parts[1] && parts[0] != "" && parts[1] != "" && AllDigits(parts[0]) && AllDigits(parts[1])
  {
    hide Value;
    if AllDigits(uid) && AllDigits(gid) && text == uid + ":" + gid {
      assert ':' !in uid && ':' !in gid;
      SplitPrefix(uid, gid, ':');
      SplitPrefix(gid, "", ':');
    }
    JoinSplit(text, ':');
    var parts := Split(text, ':');
    if |parts| == 2 {
      assert Join(parts, ':') == parts[0] + ":" + parts[1..][0];
    }
  }

  /** Two texts have the same canonical form exactly when they name the same ids. */
  lemma CanonicalIff(a: string, b: string)
    requires ParseUidGid(a).Some? && ParseUidGid(b).Some?
    ensures Canonical(a) == Canonical(b) <==> ParseUidGid(a) == ParseUidGid(b)
    ensures Canonical(Canonical(a).value) == Canonical(a)
  {
    hide ParseUidGid, UidGid;
    var x, y := ParseUidGid(a).value, ParseUidGid(b).value;
    ParseCanonical(x.0, x.1);
    ParseCanonical(y.0, y.1);
  }

  // Scopes

  datatype Category = InvalidScope | KeyCollision | AmbiguousIdentity | UnknownKey | InvalidUidGid | InvalidMappings
    | ConfirmationDeclined | ConfirmationRequired | PolicyConflict

  /** `source` and `path` count as absent when missing or empty; identities are canonical. */
  datatype Scope = Scope(key: string, path: string, source: Option<string>, identities: seq<string>)

  /** What coercion made of one entry: a scope, or the category it raised. */
  datatype Entry = Refused(category: Category) | Given(scope: Scope)

  function Present(value: string): set<string> {
    if value == "" then {} else {value}
  }

  function PresentSource(source: Option<string>): set<string> {
    if source.Some? then Present(source.value) else {}
  }

  /** What a list says about one key, whatever its order. */
  ghost function SourcesOf(list: seq<Scope>, key: string): set<string> {
    set s, x | s in list && s.key == key && x in PresentSource(s.source) :: x
  }

  ghost function PathsOf(list: seq<Scope>, key: string): set<string> {
    set s, x | s in list && s.key == key && x in Present(s.path) :: x
  }

  ghost function IdentitiesOf(list: seq<Scope>, key: string): set<string> {
    set s, x | s in list && s.key == key && x in s.identities :: x
  }

  predicate Single(values: set<string>) {
    forall a, b | a in values && b in values :: a == b
  }

  ghost predicate Mentioned(list: seq<Scope>, key: string) {
    exists s | s in list :: s.key == key
  }

  /** No two scopes of one key name different sources or paths. */
  ghost predicate Consistent(list: seq<Scope>) {
    forall key :: Single(SourcesOf(list, key)) && Single(PathsOf(list, key))
  }

  ghost predicate Unambiguous(list: seq<Scope>) {
    forall key :: Single(IdentitiesOf(list, key))
  }

  predicate Clash(previous: Scope, current: Scope) {
    || (previous.source.Some? && previous.source.value != "" && current.source.Some? && current.source.value != ""
        && previous.source != current.source)
    || (previous.path != "" && current.path != "" && previous.path != current.path)
  }

  function Merge(previous: Scope, current: Scope): Scope {
    Scope(current.key, if previous.path != "" then previous.path else current.path,
          if previous.source.Some? && previous.source.value != "" then previous.source else current.source,
          previous.identities + current.identities)
  }

  /** A scope that stands for all the list says about its key. */
  ghost predicate Sums(s: Scope, list: seq<Scope>) {
    && Mentioned(list, s.key) && PresentSource(s.source) == SourcesOf(list, s.key) && Present(s.path) == PathsOf(list, s.key)
    && (set x | x in s.identities) == IdentitiesOf(list, s.key)
  }

  lemma OneMoreScope(list: seq<Scope>, c: Scope, key: string)
    ensures SourcesOf(list + [c], key) == SourcesOf(list, key) + if c.key == key then PresentSource(c.source) else {}
    ensures PathsOf(list + [c], key) == PathsOf(list, key) + if c.key == key then Present(c.path) else {}
    ensures IdentitiesOf(list + [c], key) == IdentitiesOf(list, key) + if c.key == key then set x | x in c.identities else {}
    ensures Mentioned(list + [c], key) <==> Mentioned(list, key) || c.key == key
  {
    hide Present, PresentSource;
    var all := list + [c];
    assert forall s :: s in all <==> s in list || s == c;
  }

  lemma NotMentioned(list: seq<Scope>, key: string)
    requires !Mentioned(list, key)
    ensures SourcesOf(list, key) == {} && PathsOf(list, key) == {} && IdentitiesOf(list, key) == {}
  {
  }

  lemma FirstSums(list: seq<Scope>, c: Scope)
    requires !Mentioned(list, c.key)
    ensures Sums(c, list + [c])
  {
    hide SourcesOf, PathsOf, IdentitiesOf, Mentioned;
    OneMoreScope(list, c, c.key);
    NotMentioned(list, c.key);
  }

  lemma MergeSums(list: seq<Scope>, p: Scope, c: Scope)
    requires Sums(p, list) && p.key == c.key && !Clash(p, c)
    ensures Sums(Merge(p, c), list + [c])
  {
    hide SourcesOf, PathsOf, IdentitiesOf, Mentioned;
    OneMoreScope(list, c, c.key);
  }

  lemma OtherSums(list: seq<Scope>, p: Scope, c: Scope)
    requires Sums(p, list) && p.key != c.key
    ensures Sums(p, list + [c])
  {
    hide SourcesOf, PathsOf, IdentitiesOf, Mentioned, Present, PresentSource;
    OneMoreScope(list, c, p.key);
  }

  lemma ClashIsInconsistent(list: seq<Scope>, p: Scope, c: Scope, rest: seq<Scope>)
    requires Sums(p, list) && p.key == c.key && Clash(p, c)
    ensures !Consistent(list + [c] + rest)
  {
    hide SourcesOf, PathsOf, IdentitiesOf, Mentioned;
    var all := list + [c] + rest;
    OneMoreScope(list, c, c.key);
    PrefixSays(list + [c], rest, c.key);
    if p.path != "" && c.path != "" && p.path != c.path {
      assert p.path in PathsOf(all, c.key) && c.path in PathsOf(all, c.key);
    } else {
      assert p.source.value in SourcesOf(all, c.key) && c.source.value in SourcesOf(all, c.key);
    }
  }

  lemma PrefixSays(list: seq<Scope>, rest: seq<Scope>, key: string)
    ensures SourcesOf(list, key) <= SourcesOf(list + rest, key) && PathsOf(list, key) <= PathsOf(list + rest, key)
  {
    hide Present, PresentSource;
    assert forall s | s in list :: s in list + rest;
  }

  ghost predicate AllGiven(entries: seq<Entry>) {
    forall i | 0 <= i < |entries| :: entries[i].Given?
  }

  function ScopesOf(entries: seq<Entry>): (list: seq<Scope>)
    requires AllGiven(entries)
    ensures |list| == |entries| && forall i | 0 <= i < |entries| :: list[i] == entries[i].scope
  {
    seq(|entries|, i requires 0 <= i < |entries| => entries[i].scope)
  }

  /** The keys come in the order they were first mentioned, each once, and each scope sums the list up. */
  ghost predicate Merged(scopes: seq<Scope>, list: seq<Scope>) {
    && (forall i | 0 <= i < |scopes| :: Sums(scopes[i], list))
    && (forall key | Mentioned(list, key) :: exists i :: 0 <= i < |scopes| && scopes[i].key == key)
    && (forall i, j | 0 <= i < j < |scopes| :: scopes[i].key != scopes[j].key)
  }

  datatype Scoped = Raised(category: Category) | Scopes(scopes: seq<Scope>)

  /** The first fault of a list and its category: an entry that is no scope, or one that collides with those before it. */
  ghost predicate Fault(entries: seq<Entry>, category: Category) {
    exists i | 0 <= i < |entries| :: FaultAt(entries, i, category)
  }

  ghost predicate FaultAt(entries: seq<Entry>, i: nat, category: Category)
    requires i < |entries|
  {
    && AllGiven(entries[..i]) && Consistent(ScopesOf(entries[..i]))
    && if entries[i].Refused? then category == entries[i].category
       else AllGiven(entries[..i + 1]) && category == KeyCollision && !Consistent(ScopesOf(entries[..i + 1]))
  }

  /** The merging loop of `validate_volume_scopes`: a dictionary with its order of insertion. */
  method MergeScopes(entries: seq<Entry>) returns (r: Scoped)
    ensures r.Scopes? <==> AllGiven(entries) && Consistent(ScopesOf(entries))
    ensures r.Scopes? ==> Merged(r.scopes, ScopesOf(entries))
    ensures r.Raised? ==> Fault(entries, r.category)
    ensures AllGiven(entries) && r.Raised? ==> r.category == KeyCollision
  {
    hide Sums, Consistent, Mentioned, Clash, Merge;
    var order: seq<string>, byKey: map<string, Scope> := [], map[];
    ghost var list: seq<Scope> := [];
    NothingMentioned();
    for i := 0 to |entries|
      invariant AllGiven(entries[..i]) && list == ScopesOf(entries[..i])
      invariant Inserted(order, byKey, list)
    {
      InsertedIsMerged(order, byKey, list);
      if entries[i].Refused? {
        assert FaultAt(entries, i, entries[i].category);
        return Raised(entries[i].category);
      }
      var current := entries[i].scope;
      assert entries[..i + 1] == entries[..i] + [entries[i]];
      assert ScopesOf(entries[..i + 1]) == list + [current];
      InsertedHas(order, byKey, list, current.key);
      if current.key !in byKey {
        InsertFirst(order, byKey, list, current);
        order, byKey := order + [current.key], byKey[current.key := current];
      } else {
        var previous := byKey[current.key];
        if Clash(previous, current) {
          ClashIsInconsistent(list, previous, current, []);
          assert list + [current] + [] == list + [current];
          assert FaultAt(entries, i, KeyCollision);
          if AllGiven(entries) {
            assert ScopesOf(entries) == list + [current] + ScopesOf(entries)[i + 1..];
            ClashIsInconsistent(list, previous, current, ScopesOf(entries)[i + 1..]);
          }
          return Raised(KeyCollision);
        }
        InsertMerged(order, byKey, list, current);
        byKey := byKey[current.key := Merge(previous, current)];
      }
      list := list + [current];
    }
    assert entries[..|entries|] == entries;
    InsertedIsMerged(order, byKey, list);
    return Scopes(seq(|order|, i requires 0 <= i < |order| && order[i] in byKey => byKey[order[i]]));
  }

  ghost predicate Inserted(order: seq<string>, byKey: map<string, Scope>, list: seq<Scope>) {
    && (forall key :: key in order <==> key in byKey) && (forall key :: key in byKey <==> Mentioned(list, key))
    && (forall i, j | 0 <= i < j < |order| :: order[i] != order[j])
    && (forall key | key in byKey :: byKey[key].key == key && Sums(byKey[key], list))
  }

  lemma NothingMentioned()
    ensures Inserted([], map[], [])
  {
  }

  lemma InsertedHas(order: seq<string>, byKey: map<string, Scope>, list: seq<Scope>, key: string)
    requires Inserted(order, byKey, list)
    ensures key in byKey <==> Mentioned(list, key)
    ensures key in byKey ==> byKey[key].key == key && Sums(byKey[key], list)
  {
    hide Sums, Mentioned;
  }

  lemma InsertFirst(order: seq<string>, byKey: map<string, Scope>, list: seq<Scope>, c: Scope)
    requires Inserted(order, byKey, list) && c.key !in byKey
    ensures Inserted(order + [c.key], byKey[c.key := c], list + [c])
  {
    hide Sums, Mentioned;
    FirstSums(list, c);
    forall key
      ensures Mentioned(list + [c], key) <==> Mentioned(list, key) || key == c.key
      ensures key in byKey ==> Sums(byKey[key], list + [c])
    {
      OneMoreScope(list, c, key);
      if key in byKey {
        OtherSums(list, byKey[key], c);
      }
    }
  }

  lemma InsertMerged(order: seq<string>, byKey: map<string, Scope>, list: seq<Scope>, c: Scope)
    requires Inserted(order, byKey, list) && c.key in byKey && !Clash(byKey[c.key], c)
    ensures Inserted(order, byKey[c.key := Merge(byKey[c.key], c)], list + [c])
  {
    hide Sums, Mentioned, Clash;
    MergeSums(list, byKey[c.key], c);
    forall key
      ensures Mentioned(list + [c], key) <==> Mentioned(list, key) || key == c.key
      ensures key in byKey && key != c.key ==> Sums(byKey[key], list + [c])
    {
      OneMoreScope(list, c, key);
      if key in byKey && key != c.key {
        OtherSums(list, byKey[key], c);
      }
    }
  }

  lemma InsertedIsMerged(order: seq<string>, byKey: map<string, Scope>, list: seq<Scope>)
    requires Inserted(order, byKey, list)
    ensures Consistent(list)
    ensures (forall i | 0 <= i < |order| :: order[i] in byKey)
    ensures Merged(seq(|order|, i requires 0 <= i < |order| && order[i] in byKey => byKey[order[i]]), list)
  {
    hide SourcesOf, PathsOf, IdentitiesOf, Mentioned;
    forall key
      ensures Single(SourcesOf(list, key)) && Single(PathsOf(list, key))
    {
      if Mentioned(list, key) {
        assert Sums(byKey[key], list);
      } else {
        NotMentioned(list, key);
      }
    }
    var scopes := seq(|order|, i requires 0 <= i < |order| && order[i] in byKey => byKey[order[i]]);
    forall key | Mentioned(list, key)
      ensures exists i :: 0 <= i < |scopes| && scopes[i].key == key
    {
      var i :| 0 <= i < |order| && order[i] == key;
      assert scopes[i].key == key;
    }
  }

  // Policies

  datatype Mode = Preserve | MapOwners

  datatype Confirmation = Unasked | Confirmed | Declined

  datatype Policy = Policy(mode: Mode, mappings: map<string, string>, fallback: Option<string>, confirmation: Confirmation) {
    /** What construction guarantees: canonical ids, and nothing mapped when preserving. */
    predicate Valid() {
      && (forall key | key in mappings :: Canonical(mappings[key]) == Some(mappings[key]))
      && (fallback.Some? ==> Canonical(fallback.value) == fallback)
      && (mode == Preserve ==> mappings == map[] && fallback == None)
    }

    /** `mapping_text` */
    function Mapping(key: string): Option<string> {
      if key in mappings then Some(mappings[key]) else fallback
    }
  }

  const DEFAULT := Policy(Preserve, map[], None, Unasked)

  /** The validation of scopes: merged, every mapping known when a policy is given, and one identity a volume. */
  method ValidateVolumeScopes(entries: seq<Entry>, policy: Option<Policy>) returns (r: Scoped)
    ensures r.Scopes? <==> Acceptable(entries) && (policy.Some? ==> Known(policy.value, ScopesOf(entries)))
    ensures r.Scopes? ==> Merged(r.scopes, ScopesOf(entries))
    ensures r.Raised? && !(AllGiven(entries) && Consistent(ScopesOf(entries))) ==> Fault(entries, r.category)
    // With every entry a scope, the category does not depend on the order either.
    ensures AllGiven(entries) && r.Raised? ==>
      r.category == if !Consistent(ScopesOf(entries)) then KeyCollision
                    else if policy.Some? && !Known(policy.value, ScopesOf(entries)) then UnknownKey else AmbiguousIdentity
  {
    hide Merged, Consistent, Mentioned, IdentitiesOf, Sums;
    r := MergeScopes(entries);
    if r.Raised? {
      return;
    }
    ghost var list := ScopesOf(entries);
    MergedKeys(r.scopes, list);
    MergedIdentities(r.scopes, list);
    if policy.Some? && exists key | key in policy.value.mappings :: !(exists i | 0 <= i < |r.scopes| :: r.scopes[i].key == key) {
      return Raised(UnknownKey);
    }
    for i := 0 to |r.scopes|
      invariant forall k | 0 <= k < i :: Single(set x | x in r.scopes[k].identities)
    {
      if !Single(set x | x in r.scopes[i].identities) {
        return Raised(AmbiguousIdentity);
      }
    }
  }

  ghost predicate Acceptable(entries: seq<Entry>) {
    AllGiven(entries) && Consistent(ScopesOf(entries)) && Unambiguous(ScopesOf(entries))
  }

  ghost predicate Known(policy: Policy, list: seq<Scope>) {
    forall key | key in policy.mappings :: Mentioned(list, key)
  }

  lemma MergedKeys(scopes: seq<Scope>, list: seq<Scope>)
    requires Merged(scopes, list)
    ensures forall key :: Mentioned(list, key) <==> exists i :: 0 <= i < |scopes| && scopes[i].key == key
  {
    hide Mentioned, SourcesOf, PathsOf, IdentitiesOf;
    forall i | 0 <= i < |scopes|
      ensures Mentioned(list, scopes[i].key)
    {
      assert Sums(scopes[i], list);
    }
  }

  lemma MergedIdentities(scopes: seq<Scope>, list: seq<Scope>)
    requires Merged(scopes, list)
    ensures Unambiguous(list) <==> forall i | 0 <= i < |scopes| :: Single(set x | x in scopes[i].identities)
  {
    hide Mentioned, SourcesOf, PathsOf, IdentitiesOf, Single;
    forall i | 0 <= i < |scopes|
      ensures (set x | x in scopes[i].identities) == IdentitiesOf(list, scopes[i].key)
    {
      assert Sums(scopes[i], list);
    }
    forall key | !Mentioned(list, key)
      ensures Single(IdentitiesOf(list, key))
    {
      NotMentioned(list, key);
      NothingSingle();
    }
    if forall i | 0 <= i < |scopes| :: Single(set x | x in scopes[i].identities) {
      forall key | Mentioned(list, key)
        ensures Single(IdentitiesOf(list, key))
      {
        var i :| 0 <= i < |scopes| && scopes[i].key == key;
      }
    } else {
      var i :| 0 <= i < |scopes| && !Single(set x | x in scopes[i].identities);
      assert !Single(IdentitiesOf(list, scopes[i].key));
    }
  }

  lemma NothingSingle()
    ensures Single({})
  {
  }

  // Order

  /** Reordering the scopes changes neither acceptance nor what any key is given. */
  lemma OrderIrrelevant(a: seq<Entry>, b: seq<Entry>)
    requires multiset(a) == multiset(b)
    ensures Acceptable(a) <==> Acceptable(b)
    ensures AllGiven(a) <==> AllGiven(b)
    ensures AllGiven(a) ==> (Consistent(ScopesOf(a)) <==> Consistent(ScopesOf(b)))
    ensures AllGiven(a) ==> forall key ::
      (Mentioned(ScopesOf(a), key) <==> Mentioned(ScopesOf(b), key)) && SourcesOf(ScopesOf(a), key) == SourcesOf(ScopesOf(b), key)
      && PathsOf(ScopesOf(a), key) == PathsOf(ScopesOf(b), key) && IdentitiesOf(ScopesOf(a), key) == IdentitiesOf(ScopesOf(b), key)
  {
    hide Single, Present, PresentSource;
    SameMembers(a, b);
    assert AllGiven(a) <==> forall e | e in a :: e.Given?;
    assert AllGiven(b) <==> forall e | e in b :: e.Given?;
    if AllGiven(a) {
      ScopeMembers(a);
      ScopeMembers(b);
      var x, y := ScopesOf(a), ScopesOf(b);
      assert forall s :: s in x <==> s in y;
      forall key
        ensures SourcesOf(x, key) == SourcesOf(y, key) && PathsOf(x, key) == PathsOf(y, key)
        ensures IdentitiesOf(x, key) == IdentitiesOf(y, key)
      {
      }
    }
  }

  lemma SameMembers(a: seq<Entry>, b: seq<Entry>)
    requires multiset(a) == multiset(b)
    ensures forall e :: e in a <==> e in b
  {
    forall e
      ensures e in a <==> e in b
    {
      assert e in multiset(a) <==> e in multiset(b);
    }
  }

  lemma ScopeMembers(entries: seq<Entry>)
    requires AllGiven(entries)
    ensures forall s :: s in ScopesOf(entries) <==> Given(s) in entries
  {
    forall s | Given(s) in entries
      ensures s in ScopesOf(entries)
    {
      var i :| 0 <= i < |entries| && entries[i] == Given(s);
      assert ScopesOf(entries)[i] == s;
    }
  }

  /** Two merges of one list in two orders give every key the same source, path and identities, absent values alike. */
  lemma MergesAgree(a: seq<Entry>, b: seq<Entry>, m: seq<Scope>, n: seq<Scope>, i: nat, j: nat)
    requires multiset(a) == multiset(b) && AllGiven(a) && AllGiven(b) && Merged(m, ScopesOf(a)) && Merged(n, ScopesOf(b))
    requires i < |m| && j < |n| && m[i].key == n[j].key
    ensures PresentSource(m[i].source) == PresentSource(n[j].source) && Present(m[i].path) == Present(n[j].path)
    ensures (set x | x in m[i].identities) == (set x | x in n[j].identities)
  {
    hide SourcesOf, PathsOf, IdentitiesOf, Mentioned, Present, PresentSource, Consistent, Unambiguous;
    OrderIrrelevant(a, b);
    assert Sums(m[i], ScopesOf(a)) && Sums(n[j], ScopesOf(b));
  }

  /** The scopes among the entries, in their order. */
  function GivenScopes(entries: seq<Entry>): (list: seq<Scope>)
    ensures forall s :: s in list <==> Given(s) in entries
  {
    if entries == [] then []
    else
      assert entries == entries[..|entries| - 1] + [entries[|entries| - 1]];
      GivenScopes(entries[..|entries| - 1]) + if entries[|entries| - 1].Given? then [entries[|entries| - 1].scope] else []
  }

  /** Every category some order of the entries could be refused with: those of the entries that are no scopes, and a
      collision if the scopes among them do not agree. */
  ghost function Categories(entries: seq<Entry>): set<Category> {
    (set e | e in entries && e.Refused? :: e.category) + if Consistent(GivenScopes(entries)) then {} else {KeyCollision}
  }

  /** A list has one first fault, so `MergeScopes` refuses it with one category. */
  lemma FaultIsUnique(entries: seq<Entry>, c: Category, d: Category)
    requires Fault(entries, c) && Fault(entries, d)
    ensures c == d
  {
    hide Consistent;
    var i :| 0 <= i < |entries| && FaultAt(entries, i, c);
    var j :| 0 <= j < |entries| && FaultAt(entries, j, d);
    if i < j {
      LaterIsNoFault(entries, i, j, c);
    } else if j < i {
      LaterIsNoFault(entries, j, i, d);
    }
  }

  lemma LaterIsNoFault(entries: seq<Entry>, i: nat, j: nat, c: Category)
    requires i < j < |entries| && FaultAt(entries, i, c)
    ensures !AllGiven(entries[..j]) || !Consistent(ScopesOf(entries[..j]))
  {
    hide Consistent;
    assert entries[..j][i] == entries[i];
    if AllGiven(entries[..j]) {
      assert entries[i].Given?;
      var whole, part := ScopesOf(entries[..j]), ScopesOf(entries[..i + 1]);
      assert whole == part + whole[i + 1..];
      PrefixInconsistent(part, whole[i + 1..]);
    }
  }

  lemma PrefixInconsistent(list: seq<Scope>, rest: seq<Scope>)
    requires !Consistent(list)
    ensures !Consistent(list + rest)
  {
    hide SourcesOf, PathsOf;
    var key :| !(Single(SourcesOf(list, key)) && Single(PathsOf(list, key)));
    PrefixSays(list, rest, key);
  }

  lemma ConsistentByMembers(a: seq<Scope>, b: seq<Scope>)
    requires forall s :: s in a <==> s in b
    ensures Consistent(a) <==> Consistent(b)
  {
    hide Single, Present, PresentSource;
    forall key
      ensures SourcesOf(a, key) == SourcesOf(b, key) && PathsOf(a, key) == PathsOf(b, key)
    {
    }
  }

  lemma CategoriesByMembers(a: seq<Entry>, b: seq<Entry>)
    requires forall e :: e in a <==> e in b
    ensures Categories(a) == Categories(b)
  {
    hide Consistent;
    ConsistentByMembers(GivenScopes(a), GivenScopes(b));
  }

  /** Whatever a list is refused with is one of its categories. */
  lemma FaultIsCategory(entries: seq<Entry>, c: Category)
    requires Fault(entries, c)
    ensures c in Categories(entries)
  {
    hide Consistent;
    var i :| 0 <= i < |entries| && FaultAt(entries, i, c);
    assert entries[i] in entries;
    if entries[i].Given? {
      var part := entries[..i + 1];
      ScopeMembers(part);
      assert forall e | e in part :: e in entries;
      InconsistentGrows(ScopesOf(part), GivenScopes(entries));
    }
  }

  lemma InconsistentGrows(part: seq<Scope>, whole: seq<Scope>)
    requires !Consistent(part) && forall s | s in part :: s in whole
    ensures !Consistent(whole)
  {
    hide Consistent;
    PrefixInconsistent(part, whole);
    ConsistentByMembers(part + whole, whole);
  }

  /** The scopes, then what is no scope. */
  function GivenFirst(entries: seq<Entry>): (r: seq<Entry>)
    ensures |r| == |entries|
  {
    if entries == [] then []
    else if entries[0].Given? then [entries[0]] + GivenFirst(entries[1..])
    else GivenFirst(entries[1..]) + [entries[0]]
  }

  lemma GivenFirstCons(entries: seq<Entry>)
    requires entries != []
    ensures multiset(entries) == multiset{entries[0]} + multiset(entries[1..])
    ensures entries[0].Given? ==> GivenFirst(entries) == [entries[0]] + GivenFirst(entries[1..])
    ensures !entries[0].Given? ==> GivenFirst(entries) == GivenFirst(entries[1..]) + [entries[0]]
  {
    assert entries == [entries[0]] + entries[1..];
  }

  ghost predicate ScopesBefore(entries: seq<Entry>, n: nat) {
    n <= |entries| && forall i | 0 <= i < |entries| :: entries[i].Given? <==> i < n
  }

  lemma {:induction false} GivenFirstSplits(entries: seq<Entry>) returns (n: nat)
    ensures multiset(GivenFirst(entries)) == multiset(entries) && ScopesBefore(GivenFirst(entries), n)
  {
    hide ScopesBefore;
    if entries == [] {
      n := 0;
      NothingBefore();
    } else {
      var k := GivenFirstSplits(entries[1..]);
      GivenFirstCons(entries);
      OneMoreBefore(GivenFirst(entries[1..]), k, entries[0]);
      n := if entries[0].Given? then k + 1 else k;
    }
  }

  lemma NothingBefore()
    ensures ScopesBefore([], 0)
  {
  }

  lemma OneMoreBefore(rest: seq<Entry>, k: nat, e: Entry)
    requires ScopesBefore(rest, k)
    ensures if e.Given? then ScopesBefore([e] + rest, k + 1) else ScopesBefore(rest + [e], k)
  {
  }

  /** Scopes that do not agree have a first one that collides. */
  lemma {:induction false} FirstCollision(entries: seq<Entry>, n: nat)
    requires n <= |entries| && AllGiven(entries[..n]) && !Consistent(ScopesOf(entries[..n]))
    ensures Fault(entries, KeyCollision)
  {
    hide Consistent;
    if n == 0 {
      assert ScopesOf(entries[..0]) == [];
      NothingConsistent();
    } else {
      assert forall i | 0 <= i < n - 1 :: entries[..n - 1][i] == entries[..n][i];
      assert entries[..n][n - 1] == entries[n - 1];
      if Consistent(ScopesOf(entries[..n - 1])) {
        assert FaultAt(entries, n - 1, KeyCollision);
      } else {
        FirstCollision(entries, n - 1);
      }
    }
  }

  /** A refused entry moved to the front is the first fault. */
  lemma RefusedHasOrder(entries: seq<Entry>, c: Category) returns (order: seq<Entry>)
    requires Refused(c) in entries
    ensures multiset(order) == multiset(entries) && Fault(order, c)
  {
    hide Consistent;
    var i :| 0 <= i < |entries| && entries[i] == Refused(c);
    order := [entries[i]] + (entries[..i] + entries[i + 1..]);
    assert entries == entries[..i] + [entries[i]] + entries[i + 1..];
    assert order[..0] == [] && ScopesOf(order[..0]) == [];
    NothingConsistent();
    assert FaultAt(order, 0, c);
  }

  /** Scopes that do not agree, moved to the front, collide. */
  lemma CollisionHasOrder(entries: seq<Entry>) returns (order: seq<Entry>)
    requires !Consistent(GivenScopes(entries))
    ensures multiset(order) == multiset(entries) && Fault(order, KeyCollision)
  {
    hide Consistent, Fault, GivenFirst;
    var n := GivenFirstSplits(entries);
    order := GivenFirst(entries);
    SameMembers(order, entries);
    var part := order[..n];
    ScopeMembers(part);
    assert forall e | e in order && e.Given? :: e in part;
    assert forall e | e in part :: e in order;
    ConsistentByMembers(ScopesOf(part), GivenScopes(entries));
    FirstCollision(order, n);
  }

  /** Every one of the categories is what some order is refused with. */
  lemma CategoryHasOrder(entries: seq<Entry>, c: Category) returns (order: seq<Entry>)
    requires c in Categories(entries)
    ensures multiset(order) == multiset(entries) && Fault(order, c)
  {
    hide Consistent, Fault;
    if Refused(c) in entries {
      order := RefusedHasOrder(entries, c);
    } else {
      order := CollisionHasOrder(entries);
    }
  }

  /** All orders of a list are refused with the same category exactly when it has at most one category. */
  lemma OneCategoryIff(entries: seq<Entry>)
    ensures (forall a, b, c, d | multiset(a) == multiset(entries) && multiset(b) == multiset(entries) && Fault(a, c) && Fault(b, d) :: c == d)
       <==> forall c, d | c in Categories(entries) && d in Categories(entries) :: c == d
  {
    hide Fault, Categories;
    forall a, c | multiset(a) == multiset(entries) && Fault(a, c)
      ensures c in Categories(entries)
    {
      FaultIsCategory(a, c);
      SameMembers(a, entries);
      CategoriesByMembers(a, entries);
    }
    if c, d :| c in Categories(entries) && d in Categories(entries) && c != d {
      var a := CategoryHasOrder(entries, c);
      var b := CategoryHasOrder(entries, d);
      assert Fault(a, c) && Fault(b, d);
    }
  }

  /** A list with an entry that is no scope and two that collide: its two orders are refused with different categories. */
  lemma CategoryDependsOnOrder() returns (bad: Entry, one: Entry, other: Entry)
    ensures multiset([bad, one, other]) == multiset([one, other, bad])
    ensures forall c :: Fault([bad, one, other], c) <==> c == InvalidScope
    ensures forall c :: Fault([one, other, bad], c) <==> c == KeyCollision
  {
    hide Clash, Consistent, SourcesOf, PathsOf, Sums, FaultAt;
    bad, one, other := Refused(InvalidScope), Given(Scope("k", "/a", None, [])), Given(Scope("k", "/b", None, []));
    var e, f := [bad, one, other], [one, other, bad];
    BadFirst(e);
    PathClash(one.scope, other.scope);
    CollisionSecond(f, one.scope, other.scope);
    forall c | Fault(e, c)
      ensures c == InvalidScope
    {
      FaultIsUnique(e, c, InvalidScope);
    }
    forall c | Fault(f, c)
      ensures c == KeyCollision
    {
      FaultIsUnique(f, c, KeyCollision);
    }
  }

  lemma BadFirst(entries: seq<Entry>)
    requires entries != [] && entries[0].Refused?
    ensures Fault(entries, entries[0].category)
  {
    hide Consistent;
    assert entries[..0] == [] && ScopesOf(entries[..0]) == [];
    NothingConsistent();
    assert FaultAt(entries, 0, entries[0].category);
  }

  lemma CollisionSecond(entries: seq<Entry>, one: Scope, other: Scope)
    requires |entries| >= 2 && entries[0] == Given(one) && entries[1] == Given(other) && one.key == other.key && Clash(one, other)
    ensures Fault(entries, KeyCollision)
  {
    hide Clash, Consistent, Sums;
    OneIsConsistent(one);
    assert ScopesOf(entries[..1]) == [one] && ScopesOf(entries[..2]) == [one] + [other] + [];
    ClashIsInconsistent([one], one, other, []);
    FirstCollision(entries, 2);
  }

  lemma NothingConsistent()
    ensures Consistent([])
  {
  }

  lemma OneIsConsistent(s: Scope)
    ensures Consistent([s]) && Sums(s, [s])
  {
    hide Present, PresentSource, Mentioned;
    NothingMentioned();
    assert [] + [s] == [s];
    assert !Mentioned([], s.key) by { OneMoreScope([], s, s.key); EmptyMentions(s.key); }
    FirstSums([], s);
    forall key
      ensures Single(SourcesOf([s], key)) && Single(PathsOf([s], key))
    {
      EmptyMentions(key);
      NotMentioned([], key);
      OneMoreScope([], s, key);
      PresentSingle(s);
    }
  }

  lemma EmptyMentions(key: string)
    ensures !Mentioned([], key)
  {
  }

  lemma PresentSingle(s: Scope)
    ensures Single(PresentSource(s.source)) && Single(Present(s.path)) && Single({})
  {
  }

  lemma PathClash(a: Scope, b: Scope)
    requires a.path != "" && b.path != "" && a.path != b.path
    ensures Clash(a, b)
  {
  }

  // Layers

  /** What coercing a layer gave: none, a category, or a policy as constructed. */
  datatype Layer = Absent | Bad(category: Category) | Layer(policy: Policy)

  datatype Resolution = Failed(category: Category) | Resolved(policy: Policy)

  /** A target's defaults never carry a confirmation. */
  function TargetLayer(layer: Layer): Layer {
    if layer.Layer? then Layer(layer.policy.(confirmation := Unasked)) else layer
  }

  /** The legacy text maps every volume to one owner and counts as confirmed. */
  function LegacyLayer(legacy: Option<string>): (l: Layer)
    ensures l.Layer? ==> l.policy.Valid()
  {
    if legacy.None? then Absent
    else match Canonical(legacy.value)
      case Some(owner) => CanonicalIsFixed(legacy.value); Layer(Policy(MapOwners, map[], Some(owner), Confirmed))
      case None => Bad(InvalidUidGid)
  }

  lemma CanonicalIsFixed(text: string)
    requires Canonical(text).Some?
    ensures Canonical(Canonical(text).value) == Canonical(text)
  {
    hide UidGid;
    ParseCanonical(ParseUidGid(text).value.0, ParseUidGid(text).value.1);
  }

  /** The supplied layers in order of precedence. */
  function Candidates(layers: seq<Layer>): (list: seq<Policy>)
    ensures forall p :: p in list <==> Layer(p) in layers
  {
    if layers == [] then [] else (if layers[0].Layer? then [layers[0].policy] else []) + Candidates(layers[1..])
  }

  ghost predicate Fine(layers: seq<Layer>) {
    forall i | 0 <= i < |layers| :: !layers[i].Bad?
  }

  ghost predicate FirstBad(layers: seq<Layer>, c: Category) {
    exists i | 0 <= i < |layers| :: layers[i] == Bad(c) && forall k | 0 <= k < i :: !layers[k].Bad?
  }

  /** A request that maps must be confirmed, and none may be declined. */
  predicate ConfirmationHeld(request: Layer) {
    request.Layer? ==> request.policy.confirmation != Declined && (request.policy.mode == MapOwners ==> request.policy.confirmation == Confirmed)
  }

  /** Two policies treat every volume in scope alike; with none in scope they must be the same. */
  ghost predicate Alike(a: Policy, b: Policy, list: seq<Scope>) {
    && a.mode == b.mode
    && if list != [] then forall key | Mentioned(list, key) :: a.Mapping(key) == b.Mapping(key)
       else a.mappings == b.mappings && a.fallback == b.fallback
  }

  predicate SameSignature(a: Policy, b: Policy, keys: seq<string>) {
    && a.mode == b.mode
    && if keys != [] then forall i | 0 <= i < |keys| :: a.Mapping(keys[i]) == b.Mapping(keys[i])
       else a.mappings == b.mappings && a.fallback == b.fallback
  }

  function KeysOf(scopes: seq<Scope>): (keys: seq<string>)
    ensures |keys| == |scopes| && forall i | 0 <= i < |keys| :: keys[i] == scopes[i].key
  {
    seq(|scopes|, i requires 0 <= i < |scopes| => scopes[i].key)
  }

  function Again(scopes: seq<Scope>): (entries: seq<Entry>)
    ensures AllGiven(entries) && ScopesOf(entries) == scopes
  {
    seq(|scopes|, i requires 0 <= i < |scopes| => Given(scopes[i]))
  }

  lemma SignatureIsAlike(a: Policy, b: Policy, scopes: seq<Scope>, list: seq<Scope>)
    requires Merged(scopes, list)
    ensures SameSignature(a, b, KeysOf(scopes)) <==> Alike(a, b, list)
  {
    hide Mentioned, SourcesOf, PathsOf, IdentitiesOf, Policy.Mapping, Sums;
    MergedKeys(scopes, list);
    MergedEmpty(scopes, list);
    if Alike(a, b, list) {
      forall i | 0 <= i < |scopes|
        ensures Mentioned(list, KeysOf(scopes)[i])
      {
      }
    } else if SameSignature(a, b, KeysOf(scopes)) && list != [] {
      forall key | Mentioned(list, key)
        ensures a.Mapping(key) == b.Mapping(key)
      {
        var i :| 0 <= i < |scopes| && scopes[i].key == key;
        assert KeysOf(scopes)[i] == key;
      }
    }
  }

  lemma MergedEmpty(scopes: seq<Scope>, list: seq<Scope>)
    requires Merged(scopes, list)
    ensures scopes == [] <==> list == []
  {
    hide SourcesOf, PathsOf, IdentitiesOf;
    if list != [] {
      assert list[0] in list;
      assert Mentioned(list, list[0].key);
    }
    if scopes != [] {
      assert Sums(scopes[0], list);
    }
  }

  /** Validating merged scopes again finds nothing new. */
  lemma MergedAgain(scopes: seq<Scope>, list: seq<Scope>)
    requires Merged(scopes, list) && Unambiguous(list)
    ensures Acceptable(Again(scopes)) && forall key :: Mentioned(scopes, key) <==> Mentioned(list, key)
  {
    hide SourcesOf, PathsOf, IdentitiesOf, Sums;
    MergedKeys(scopes, list);
    MergedIdentities(scopes, list);
    forall key
      ensures Single(SourcesOf(scopes, key)) && Single(PathsOf(scopes, key)) && Single(IdentitiesOf(scopes, key))
      ensures Mentioned(scopes, key) <==> exists i :: 0 <= i < |scopes| && scopes[i].key == key
    {
      if i :| 0 <= i < |scopes| && scopes[i].key == key {
        OnlyOne(scopes, i);
        PresentSingle(scopes[i]);
        assert scopes[i] in scopes;
      } else {
        NotMentioned(scopes, key);
        NothingSingle();
      }
    }
  }

  lemma OnlyOne(scopes: seq<Scope>, i: nat)
    requires i < |scopes| && forall k, l | 0 <= k < l < |scopes| :: scopes[k].key != scopes[l].key
    ensures SourcesOf(scopes, scopes[i].key) == PresentSource(scopes[i].source)
    ensures PathsOf(scopes, scopes[i].key) == Present(scopes[i].path)
    ensures IdentitiesOf(scopes, scopes[i].key) == set x | x in scopes[i].identities
  {
    hide Present, PresentSource;
    assert forall s | s in scopes && s.key == scopes[i].key :: s == scopes[i];
    assert scopes[i] in scopes;
  }

  /** With no volume in scope a policy is known exactly when it maps nothing explicitly. */
  lemma NoScopesNoMappings(policy: Policy)
    ensures Known(policy, []) <==> policy.mappings == map[]
  {
    hide Mentioned;
    forall key
      ensures !Mentioned([], key)
    {
      EmptyMentions(key);
    }
  }

  /** The default owner written out for every volume in scope. */
  function Expand(policy: Policy, keys: seq<string>): Policy {
    if keys == [] || policy.fallback.None? then policy
    else Policy(MapOwners, map key | key in keys :: policy.Mapping(key).value, None, policy.confirmation)
  }

  lemma ExpandKeeps(policy: Policy, keys: seq<string>)
    requires policy.Valid()
    ensures Expand(policy, keys).Valid() && Expand(policy, keys).mode == policy.mode
    ensures forall key | key in keys :: Expand(policy, keys).Mapping(key) == policy.Mapping(key)
    ensures keys != [] ==> Expand(policy, keys).fallback.None?
    ensures Expand(policy, keys).confirmation == policy.confirmation
  {
    hide Canonical;
  }

  /** Every check that can refuse the layers. */
  ghost predicate Accepted(request: Layer, target: Layer, legacy: Option<string>, entries: seq<Entry>) {
    var layers := [request, TargetLayer(target), LegacyLayer(legacy)];
    && Acceptable(entries) && Fine(layers) && ConfirmationHeld(request)
    && (forall p | p in Candidates(layers) :: Known(p, ScopesOf(entries)))
    && (forall p, q | p in Candidates(layers) && q in Candidates(layers) :: Alike(p, q, ScopesOf(entries)))
  }

  /** What a resolved policy says, given the layers and the scopes. */
  ghost predicate Speaks(policy: Policy, layers: seq<Layer>, list: seq<Scope>) {
    && policy.Valid()
    && (forall p | p in Candidates(layers) :: Alike(policy, p, list))
    && (Candidates(layers) == [] ==> policy == DEFAULT)
    && (Candidates(layers) != [] ==> policy.confirmation == Candidates(layers)[0].confirmation)
    && (list != [] ==> policy.fallback.None?)
  }

  /** Every candidate is validated against the scopes in scope. */
  method CheckKnown(candidates: seq<Policy>, scopes: seq<Scope>, ghost list: seq<Scope>) returns (r: Option<Category>)
    requires Acceptable(Again(scopes)) && forall key :: Mentioned(scopes, key) <==> Mentioned(list, key)
    ensures r.None? <==> forall p | p in candidates :: Known(p, list)
    ensures r.Some? ==> r.value == UnknownKey
  {
    hide Merged, Acceptable, Known, Mentioned, Consistent, Unambiguous;
    AcceptableMeans(Again(scopes));
    for i := 0 to |candidates|
      invariant forall k | 0 <= k < i :: Known(candidates[k], list)
    {
      var checked := ValidateVolumeScopes(Again(scopes), Some(candidates[i]));
      KnownAgain(candidates[i], scopes, list);
      if checked.Raised? {
        assert candidates[i] in candidates;
        return Some(checked.category);
      }
    }
    return None;
  }

  method CheckConfirmation(request: Layer) returns (r: Option<Category>)
    ensures r.None? <==> ConfirmationHeld(request)
    ensures request.Layer? && request.policy.confirmation == Declined ==> r == Some(ConfirmationDeclined)
    ensures request.Layer? && request.policy.confirmation == Unasked && request.policy.mode == MapOwners ==> r == Some(ConfirmationRequired)
    ensures request.Layer? && request.policy.confirmation == Unasked && request.policy.mode == Preserve ==> r == None
    ensures !request.Layer? || request.policy.confirmation == Confirmed ==> r == None
  {
    if request.Layer? && (request.policy.confirmation != Unasked || request.policy.mode == MapOwners) {
      if request.policy.confirmation == Declined {
        return Some(ConfirmationDeclined);
      }
      if request.policy.mode == MapOwners && request.policy.confirmation != Confirmed {
        return Some(ConfirmationRequired);
      }
    }
    return None;
  }

  /** The signatures of all candidates are those of the first. */
  method CheckSignatures(candidates: seq<Policy>, scopes: seq<Scope>, ghost list: seq<Scope>) returns (same: bool)
    requires candidates != [] && Merged(scopes, list)
    ensures same <==> forall p, q | p in candidates && q in candidates :: Alike(p, q, list)
    ensures same ==> forall k | 0 <= k < |candidates| :: Alike(candidates[0], candidates[k], list)
  {
    hide Merged, Alike, SameSignature;
    AlikeItself(candidates[0], list);
    for i := 1 to |candidates|
      invariant forall k | 0 <= k < i :: Alike(candidates[0], candidates[k], list)
    {
      SignatureIsAlike(candidates[0], candidates[i], scopes, list);
      if !SameSignature(candidates[0], candidates[i], KeysOf(scopes)) {
        assert candidates[0] in candidates && candidates[i] in candidates;
        return false;
      }
    }
    AllAlike(candidates, list);
    return true;
  }

  /** Scopes, layers and mappings are in order, so only confirmation and agreement are left to check. */
  ghost predicate InOrder(layers: seq<Layer>, entries: seq<Entry>) {
    Acceptable(entries) && Fine(layers) && forall p | p in Candidates(layers) :: Known(p, ScopesOf(entries))
  }

  method Resolve(request: Layer, target: Layer, legacy: Option<string>, volumeScopes: Option<seq<Entry>>) returns (r: Resolution)
    requires (request.Layer? ==> request.policy.Valid()) && (target.Layer? ==> target.policy.Valid())
    ensures r.Resolved? <==> Accepted(request, target, legacy, if volumeScopes.Some? then volumeScopes.value else [])
    // What it fails with, in the order of the checks.
    ensures var entries := if volumeScopes.Some? then volumeScopes.value else [];
            var layers := [request, TargetLayer(target), LegacyLayer(legacy)];
            && (!Acceptable(entries) ==>
                  r.Failed? && if AllGiven(entries) && Consistent(ScopesOf(entries)) then r.category == AmbiguousIdentity
                               else Fault(entries, r.category))
            && (Acceptable(entries) && !Fine(layers) ==> r.Failed? && FirstBad(layers, r.category))
            && (Acceptable(entries) && Fine(layers) && !InOrder(layers, entries) ==> r == Failed(UnknownKey))
            && (InOrder(layers, entries) && request.Layer? && request.policy.confirmation == Declined ==> r == Failed(ConfirmationDeclined))
            && (InOrder(layers, entries) && request.Layer? && request.policy.confirmation == Unasked && request.policy.mode == MapOwners ==>
                  r == Failed(ConfirmationRequired))
            && (InOrder(layers, entries)
                && (request.Layer? && request.policy.mode == MapOwners ==> request.policy.confirmation == Confirmed)
                && (request.Layer? && request.policy.mode == Preserve ==> request.policy.confirmation != Declined) ==>
                  r.Resolved? || r == Failed(PolicyConflict))
    // Owners of a request are mapped only when it was confirmed.
    ensures r.Resolved? && request.Layer? && r.policy.mode == MapOwners ==>
              request.policy.confirmation == Confirmed && r.policy.confirmation == Confirmed
    // The result treats every volume in scope exactly as every supplied layer does.
    ensures r.Resolved? ==> Speaks(r.policy, [request, TargetLayer(target), LegacyLayer(legacy)],
                                   ScopesOf(if volumeScopes.Some? then volumeScopes.value else []))
  {
    hide Merged, Acceptable, Known, Alike, Policy.Valid, Unambiguous, ConfirmationHeld, LegacyLayer, TargetLayer, Expand, Mentioned;
    hide Candidates, Consistent, AllGiven, ScopesOf, KeysOf;
    var entries := if volumeScopes.Some? then volumeScopes.value else [];
    var layers := [request, TargetLayer(target), LegacyLayer(legacy)];
    var first := ValidateVolumeScopes(entries, None);
    if first.Raised? {
      return Failed(first.category);
    }
    AcceptableMeans(entries);
    ghost var list := ScopesOf(entries);
    MergedAgain(first.scopes, list);
    MergedEmpty(first.scopes, list);
    for i := 0 to |layers|
      invariant forall k | 0 <= k < i :: !layers[k].Bad?
    {
      if layers[i].Bad? {
        return Failed(layers[i].category);
      }
    }
    var candidates := Candidates(layers);
    var unknown := CheckKnown(candidates, first.scopes, list);
    if unknown.Some? {
      return Failed(unknown.value);
    }
    var unconfirmed := CheckConfirmation(request);
    if unconfirmed.Some? {
      return Failed(unconfirmed.value);
    }
    if candidates == [] {
      DefaultIsValid();
      return Resolved(DEFAULT);
    }
    var same := CheckSignatures(candidates, first.scopes, list);
    if !same {
      return Failed(PolicyConflict);
    }
    LayersValid(request, target, legacy);
    CandidatesValid(layers);
    if request.Layer? {
      RequestFirst(layers);
    }
    ExpandKeeps(candidates[0], KeysOf(first.scopes));
    ExpandAlike(candidates, KeysOf(first.scopes), first.scopes, list);
    return Resolved(Expand(candidates[0], KeysOf(first.scopes)));
  }

  lemma RequestFirst(layers: seq<Layer>)
    requires layers != [] && layers[0].Layer?
    ensures Candidates(layers) != [] && Candidates(layers)[0] == layers[0].policy
  {
  }

  lemma AcceptableMeans(entries: seq<Entry>)
    requires Acceptable(entries)
    ensures AllGiven(entries) && Consistent(ScopesOf(entries)) && Unambiguous(ScopesOf(entries))
  {
  }

  lemma KnownAgain(policy: Policy, scopes: seq<Scope>, list: seq<Scope>)
    requires forall key :: Mentioned(scopes, key) <==> Mentioned(list, key)
    ensures Known(policy, scopes) <==> Known(policy, list)
  {
    hide Mentioned;
  }

  lemma AlikeItself(policy: Policy, list: seq<Scope>)
    ensures Alike(policy, policy, list)
  {
  }

  lemma LayersValid(request: Layer, target: Layer, legacy: Option<string>)
    requires (request.Layer? ==> request.policy.Valid()) && (target.Layer? ==> target.policy.Valid())
    ensures var layers := [request, TargetLayer(target), LegacyLayer(legacy)];
            forall i | 0 <= i < |layers| && layers[i].Layer? :: layers[i].policy.Valid()
  {
    hide Canonical;
  }

  lemma DefaultIsValid()
    ensures DEFAULT.Valid()
  {
  }

  lemma CandidatesValid(layers: seq<Layer>)
    requires forall i | 0 <= i < |layers| && layers[i].Layer? :: layers[i].policy.Valid()
    ensures forall p | p in Candidates(layers) :: p.Valid()
  {
    hide Policy.Valid;
  }

  lemma AllAlike(candidates: seq<Policy>, list: seq<Scope>)
    requires candidates != [] && forall k | 0 <= k < |candidates| :: Alike(candidates[0], candidates[k], list)
    ensures forall p, q | p in candidates && q in candidates :: Alike(p, q, list)
  {
    hide Mentioned, Policy.Mapping;
  }

  lemma ExpandAlike(candidates: seq<Policy>, keys: seq<string>, scopes: seq<Scope>, list: seq<Scope>)
    requires candidates != [] && candidates[0].Valid() && Merged(scopes, list) && keys == KeysOf(scopes)
    requires forall k | 0 <= k < |candidates| :: Alike(candidates[0], candidates[k], list)
    ensures forall p | p in candidates :: Alike(Expand(candidates[0], keys), p, list)
  {
    hide Mentioned, Merged, Policy.Mapping, Canonical, Expand;
    ExpandKeeps(candidates[0], keys);
    MergedKeys(scopes, list);
    MergedEmpty(scopes, list);
    assert list == [] ==> Expand(candidates[0], keys) == candidates[0] by { ExpandNothing(candidates[0]); }
    forall key | Mentioned(list, key)
      ensures Expand(candidates[0], keys).Mapping(key) == candidates[0].Mapping(key)
    {
      var i :| 0 <= i < |scopes| && scopes[i].key == key;
      assert keys[i] == key;
    }
  }

  lemma ExpandNothing(policy: Policy)
    ensures Expand(policy, []) == policy
  {
  }
}
