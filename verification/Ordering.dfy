/** Stable sorting of job ids by submission, as `sorted(..., key=...)` does it. */
module Ordering {

  predicate NoDuplicates(ids: seq<string>) {
    forall i, j | 0 <= i < j < |ids| :: ids[i] != ids[j]
  }

  /** The list has what the map holds under these ids, each once. */
  ghost predicate Lists<T>(list: seq<T>, ids: seq<string>, items: map<string, T>) {
    NoDuplicates(ids) && |list| == |ids| && forall k | 0 <= k < |ids| :: ids[k] in items && list[k] == items[ids[k]]
  }

  ghost predicate SortedBy(ids: seq<string>, key: string -> int) {
    forall i, j | 0 <= i < j < |ids| :: key(ids[i]) <= key(ids[j])
  }

  /** Puts `id` behind everything that is not later. */
  function Insert(ids: seq<string>, id: string, key: string -> int): (r: seq<string>)
    ensures |r| == |ids| + 1
  {
    if ids != [] && key(id) < key(ids[|ids| - 1])
    then Insert(ids[..|ids| - 1], id, key) + [ids[|ids| - 1]]
    else ids + [id]
  }

  function Sort(ids: seq<string>, key: string -> int): (r: seq<string>)
    ensures |r| == |ids|
  {
    if ids == [] then [] else Insert(Sort(ids[..|ids| - 1], key), ids[|ids| - 1], key)
  }

  lemma {:induction false} InsertAdds(ids: seq<string>, id: string, key: string -> int)
    ensures multiset(Insert(ids, id, key)) == multiset(ids) + multiset{id}
    ensures forall x | x in Insert(ids, id, key) :: x == id || x in ids
  {
    if ids != [] && key(id) < key(ids[|ids| - 1]) {
      InsertAdds(ids[..|ids| - 1], id, key);
      assert ids == ids[..|ids| - 1] + [ids[|ids| - 1]];
    }
  }

  lemma {:induction false} InsertSorts(ids: seq<string>, id: string, key: string -> int)
    requires SortedBy(ids, key)
    ensures SortedBy(Insert(ids, id, key), key)
  {
    if ids != [] && key(id) < key(ids[|ids| - 1]) {
      var n := |ids| - 1;
      InsertSorts(ids[..n], id, key);
      InsertAdds(ids[..n], id, key);
      var rest := Insert(ids[..n], id, key);
      forall i | 0 <= i < |rest|
        ensures key(rest[i]) <= key(ids[n])
      {
        assert rest[i] in rest;
      }
    }
  }

  /** The sort orders by key and neither drops, repeats nor invents an id. */
  lemma {:induction false} SortSorts(ids: seq<string>, key: string -> int)
    ensures SortedBy(Sort(ids, key), key) && multiset(Sort(ids, key)) == multiset(ids)
  {
    if ids != [] {
      var n := |ids| - 1;
      SortSorts(ids[..n], key);
      InsertSorts(Sort(ids[..n], key), ids[n], key);
      InsertAdds(Sort(ids[..n], key), ids[n], key);
      assert ids == ids[..n] + [ids[n]];
    }
  }

  lemma SortKeepsDistinct(ids: seq<string>, key: string -> int)
    requires NoDuplicates(ids)
    ensures NoDuplicates(Sort(ids, key)) && forall id :: id in Sort(ids, key) <==> id in ids
  {
    SortSorts(ids, key);
    var s := Sort(ids, key);
    DistinctOnce(ids);
    forall id
      ensures id in s <==> id in ids
    {
      assert id in multiset(s) <==> id in multiset(ids);
    }
    forall i, j | 0 <= i < j < |s|
      ensures s[i] != s[j]
    {
      assert multiset(s)[s[i]] == multiset(ids)[s[i]];
      if s[i] == s[j] {
        TwiceCounted(s, i, j);
      }
    }
  }

  lemma {:induction false} DistinctOnce(ids: seq<string>)
    requires NoDuplicates(ids)
    ensures forall id :: multiset(ids)[id] <= 1
  {
    if ids != [] {
      var n := |ids| - 1;
      DistinctOnce(ids[..n]);
      assert ids == ids[..n] + [ids[n]];
      assert ids[n] !in ids[..n];
    }
  }

  lemma TwiceCounted(s: seq<string>, i: nat, j: nat)
    requires i < j < |s| && s[i] == s[j]
    ensures multiset(s)[s[i]] >= 2
  {
    assert s == s[..j] + s[j..];
    assert s[i] in s[..j] && s[j] == s[j..][0];
  }

  lemma AppendKeepsOrder(ids: seq<string>, id: string, key: string -> int)
    requires NoDuplicates(ids) && SortedBy(ids, key) && forall x | x in ids :: x != id && key(x) <= key(id)
    ensures NoDuplicates(ids + [id]) && SortedBy(ids + [id], key)
  {
    assert forall i | 0 <= i < |ids| :: ids[i] in ids;
  }

  lemma PrefixKeepsOrder(ids: seq<string>, n: nat, key: string -> int)
    requires n < |ids| && NoDuplicates(ids) && SortedBy(ids, key)
    ensures NoDuplicates(ids[..n]) && SortedBy(ids[..n], key)
    ensures forall x | x in ids[..n] :: x != ids[n] && key(x) <= key(ids[n])
  {
  }
}
