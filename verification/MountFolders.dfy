/** Naming the folders under which a target's volumes are browsed live, and the worker's check of what it is sent. */
module MountFolders {
  import opened Text
  import opened Decimal

  const LIMIT := 64
  const LENGTH := 64

  /** A volume of the target: its source, whether its description is a dictionary, and where it is mounted, if told. */
  datatype Volume = Volume(source: string, described: bool, bind: Option<string>)

  datatype Descriptor = Descriptor(source: string, folder: string)

  /** `source_unavailable` */
  datatype Answer = Unavailable | Sources(list: seq<Descriptor>)

  predicate Allowed(c: char) {
    'A' <= c <= 'Z' || 'a' <= c <= 'z' || '0' <= c <= '9' || c == '_' || c == '-'
  }

  /** The worker's pattern `[A-Za-z0-9_-]{1,64}`. */
  predicate Folder(s: string) {
    1 <= |s| <= LENGTH && forall i | 0 <= i < |s| :: Allowed(s[i])
  }

  predicate SourceText(s: string) {
    s != "" && |s| <= 4096 && '\0' !in s
  }

  function TrimLeft(s: string, c: char): (t: string)
    ensures t != "" ==> t[0] != c
    ensures forall x | x in t :: x in s
  {
    if s != "" && s[0] == c then TrimLeft(s[1..], c) else s
  }

  function TrimRight(s: string, c: char): (t: string)
    ensures t <= s && (t != "" ==> t[|t| - 1] != c)
    ensures s != "" && s[0] != c ==> t != ""
  {
    if s != "" && s[|s| - 1] == c then TrimRight(s[..|s| - 1], c) else s
  }

  function Trim(s: string, c: char): string {
    TrimRight(TrimLeft(s, c), c)
  }

  predicate EndsWith(s: string, end: string) {
    |s| >= |end| && s[|s| - |end|..] == end
  }

  /** Every run of other characters becomes one dash. */
  function Slug(s: string, inRun: bool): (t: string)
    ensures forall i | 0 <= i < |t| :: Allowed(t[i])
  {
    if s == "" then ""
    else if Allowed(s[0]) then [s[0]] + Slug(s[1..], false)
    else (if inRun then "" else "-") + Slug(s[1..], true)
  }

  function Take(s: string, n: nat): (t: string)
    ensures |t| <= n && t <= s && (s != "" && n > 0 ==> t != "")
  {
    if |s| <= n then s else s[..n]
  }

  predicate Reserved(destination: string) {
    destination in {"/var/lib/docker", "/var/lib/docker/volumes", "/proc", "/sys", "/dev"}
    || "/proc/" <= destination || "/sys/" <= destination || "/dev/" <= destination || "/var/lib/docker/" <= destination
  }

  predicate BadPart(part: string) {
    part == "" || part == "." || part == ".."
  }

  /** `_live_mount_folder`, None where it raises. */
  function MountFolder(destination: string): (r: Option<string>)
    ensures r.Some? ==> Folder(r.value) && r.value[0] != '-' && r.value[|r.value| - 1] != '-'
  {
    if destination == "" || |destination| > 4096 || '\\' in destination || (exists c | c in destination :: c < ' ')
       || destination[0] != '/' then None
    else
      var trimmed := Trim(destination, '/');
      if trimmed == "" || (exists part | part in Split(trimmed, '/') :: BadPart(part)) || Reserved("/" + trimmed)
         || EndsWith(trimmed, ".sock") || EndsWith(trimmed, ".socket") then None
      else
        var folder := Trim(Slug(trimmed, false), '-');
        if folder == "" then None
        else
          TrimAllowed(Slug(trimmed, false));
          Some(TrimRight(Take(folder, LENGTH), '-'))
  }

  lemma TrimAllowed(s: string)
    requires forall i | 0 <= i < |s| :: Allowed(s[i])
    ensures var t := Trim(s, '-'); (forall i | 0 <= i < |t| :: Allowed(t[i])) && (t != "" ==> t[0] != '-')
  {
    var left := TrimLeft(s, '-');
    assert forall i | 0 <= i < |left| :: left[i] in left;
  }

  // Renaming

  /** The name tried with a number: the base shortened to leave room for it. */
  function Candidate(base: string, suffix: nat): string {
    var text := "-" + Render(suffix);
    TrimRight(Take(base, if |text| <= LENGTH then LENGTH - |text| else 0), '-') + text
  }

  lemma LastDash(a: string, n: string, b: string, m: string)
    requires AllDigits(n) && AllDigits(m) && a + "-" + n == b + "-" + m
    ensures n == m
  {
    AfterDash(a, n);
    AfterDash(b, m);
    var s := a + "-" + n;
    assert |a| == |b|;
    assert n == s[|a| + 1..] && m == s[|b| + 1..];
  }

  lemma AfterDash(a: string, n: string)
    requires AllDigits(n)
    ensures var s := a + "-" + n; |s| == |a| + 1 + |n| && s[|a|] == '-' && forall k | |a| < k < |s| :: s[k] != '-'
  {
    var s := a + "-" + n;
    forall k | |a| < k < |s|
      ensures s[k] != '-'
    {
      assert s[k] == n[k - |a| - 1];
      assert n[k - |a| - 1] in n;
    }
  }

  /** Different numbers give different names. */
  lemma CandidatesDiffer(base: string, s: nat, t: nat)
    requires Candidate(base, s) == Candidate(base, t)
    ensures s == t
  {
    hide TrimRight, Take, Render;
    var a := TrimRight(Take(base, if |"-" + Render(s)| <= LENGTH then LENGTH - |"-" + Render(s)| else 0), '-');
    var b := TrimRight(Take(base, if |"-" + Render(t)| <= LENGTH then LENGTH - |"-" + Render(t)| else 0), '-');
    assert a + ("-" + Render(s)) == a + "-" + Render(s) && b + ("-" + Render(t)) == b + "-" + Render(t);
    LastDash(a, Render(s), b, Render(t));
    ValueRender(s);
    ValueRender(t);
  }

  lemma CandidateIsFolder(base: string, suffix: nat)
    requires Folder(base) && base[0] != '-' && suffix < 100
    ensures Folder(Candidate(base, suffix))
  {
    hide Render;
    RenderLength(suffix);
    var text := "-" + Render(suffix);
    assert forall i | 0 <= i < |text| :: Allowed(text[i]) by {
      assert forall i | 0 < i < |text| :: text[i] == Render(suffix)[i - 1] && Render(suffix)[i - 1] in Render(suffix);
    }
  }

  /** The name itself, or the first free one with a number: with fewer than LIMIT names used there is one. */
  ghost predicate FirstFree(base: string, used: set<string>, folder: string) {
    folder !in used
    && (base !in used ==> folder == base)
    && (base in used ==> exists s :: 2 <= s && folder == Candidate(base, s) && forall t | 2 <= t < s :: Candidate(base, t) in used)
  }

  method NextFolder(base: string, used: set<string>) returns (folder: string)
    requires Folder(base) && base[0] != '-' && |used| < LIMIT
    ensures Folder(folder) && FirstFree(base, used, folder)
  {
    hide Candidate, Folder;
    folder := base;
    var suffix := 2;
    // The numbered names found used: all different, so there are at most as many as names used.
    ghost var tried: set<string> := {};
    while folder in used
      invariant Folder(folder) && suffix >= 2 && |tried| == if suffix == 2 then 0 else suffix - 3
      invariant folder == if suffix == 2 then base else Candidate(base, suffix - 1)
      invariant suffix > 2 ==> base in used
      invariant tried <= used && forall t | 2 <= t < suffix - 1 :: Candidate(base, t) in used
      invariant forall x | x in tried :: exists t :: 2 <= t < suffix - 1 && x == Candidate(base, t)
      decreases |used| + 3 - suffix
    {
      if suffix > 2 {
        forall x | x in tried
          ensures x != folder
        {
          var t :| 2 <= t < suffix - 1 && x == Candidate(base, t);
          if x == folder {
            CandidatesDiffer(base, t, suffix - 1);
          }
        }
        tried := tried + {folder};
      }
      NoMore(tried, used);
      CandidateIsFolder(base, suffix);
      folder := Candidate(base, suffix);
      suffix := suffix + 1;
    }
  }

  lemma {:induction false} NoMore<T>(a: set<T>, b: set<T>)
    requires a <= b
    ensures |a| <= |b|
    decreases |b|
  {
    if b != {} {
      var x :| x in b;
      NoMore(a - {x}, b - {x});
      if x !in a {
        assert a - {x} == a;
      }
    }
  }

  // Choosing the volumes

  predicate Binds(v: Volume, destination: string) {
    SourceText(v.source) && v.described && v.bind == Some(destination)
  }

  ghost predicate BoundBy(volumes: seq<Volume>, d: string, i: int) {
    0 <= i < |volumes| && Binds(volumes[i], d)
  }

  ghost predicate BoundOnce(volumes: seq<Volume>, d: string, v: Volume) {
    exists i :: BoundBy(volumes, d, i) && volumes[i] == v && forall j :: BoundBy(volumes, d, j) ==> j == i
  }

  /** What the map built so far says of a destination: whether it is bound, and its volume when it is bound once. */
  ghost predicate IndexAt(m: map<string, Option<Volume>>, volumes: seq<Volume>, d: string) {
    && (d in m <==> exists i :: BoundBy(volumes, d, i))
    && (d in m && m[d].Some? ==> BoundOnce(volumes, d, m[d].value))
    && (d in m && m[d].None? ==> exists i, j :: i != j && BoundBy(volumes, d, i) && BoundBy(volumes, d, j))
  }

  ghost predicate IndexOf(m: map<string, Option<Volume>>, volumes: seq<Volume>) {
    forall d :: IndexAt(m, volumes, d)
  }

  lemma BoundByNext(volumes: seq<Volume>, v: Volume, d: string)
    ensures forall i :: BoundBy(volumes + [v], d, i) <==> BoundBy(volumes, d, i) || (i == |volumes| && Binds(v, d))
  {
    hide Binds;
    assert forall i | 0 <= i < |volumes| :: (volumes + [v])[i] == volumes[i];
  }

  /** One more volume: it binds `d` for the first time, again, or not at all. */
  lemma IndexAtNext(m: map<string, Option<Volume>>, volumes: seq<Volume>, v: Volume, m': map<string, Option<Volume>>, d: string)
    requires IndexAt(m, volumes, d)
    requires if Binds(v, d) then d in m' && m'[d] == (if d in m then None else Some(v))
             else (d in m' <==> d in m) && (d in m ==> m'[d] == m[d])
    ensures IndexAt(m', volumes + [v], d)
  {
    hide Binds, BoundBy;
    var n := |volumes|;
    BoundByNext(volumes, v, d);
    if Binds(v, d) {
      assert BoundBy(volumes + [v], d, n);
      if i :| BoundBy(volumes, d, i) {
        BoundByBefore(volumes, d, i);
        assert BoundBy(volumes + [v], d, i);
      }
    } else if d in m {
      if m[d].Some? {
        var i := TheOne(volumes, d, m[d].value);
        assert BoundBy(volumes + [v], d, i) && (volumes + [v])[i] == m'[d].value;
      } else {
        var i, j :| i != j && BoundBy(volumes, d, i) && BoundBy(volumes, d, j);
        assert BoundBy(volumes + [v], d, i) && BoundBy(volumes + [v], d, j);
      }
    }
  }

  lemma TheOne(volumes: seq<Volume>, d: string, v: Volume) returns (i: nat)
    requires BoundOnce(volumes, d, v)
    ensures i < |volumes| && volumes[i] == v && BoundBy(volumes, d, i) && forall j :: BoundBy(volumes, d, j) ==> j == i
  {
    i :| BoundBy(volumes, d, i) && volumes[i] == v && forall j :: BoundBy(volumes, d, j) ==> j == i;
  }

  lemma BoundByBefore(volumes: seq<Volume>, d: string, i: int)
    requires BoundBy(volumes, d, i)
    ensures 0 <= i < |volumes|
  {
  }

  lemma IndexNext(m: map<string, Option<Volume>>, volumes: seq<Volume>, v: Volume, m': map<string, Option<Volume>>)
    requires IndexOf(m, volumes)
    requires m' == if SourceText(v.source) && v.described && v.bind.Some?
                   then m[v.bind.value := if v.bind.value in m then None else Some(v)] else m
    ensures IndexOf(m', volumes + [v])
  {
    hide SourceText, IndexAt;
    forall d
      ensures IndexAt(m', volumes + [v], d)
    {
      assert IndexAt(m, volumes, d);
      IndexAtNext(m, volumes, v, m', d);
    }
  }

  method ByDestination(volumes: seq<Volume>) returns (m: map<string, Option<Volume>>)
    ensures IndexOf(m, volumes)
  {
    hide IndexOf, SourceText;
    m := map[];
    EmptyIndex();
    for i := 0 to |volumes|
      invariant IndexOf(m, volumes[..i])
    {
      var v := volumes[i];
      ghost var before := m;
      assert volumes[..i + 1] == volumes[..i] + [v];
      if SourceText(v.source) && v.described && v.bind.Some? {
        m := m[v.bind.value := if v.bind.value in m then None else Some(v)];
      }
      IndexNext(before, volumes[..i], v, m);
    }
    assert volumes[..|volumes|] == volumes;
  }

  lemma EmptyIndex()
    ensures IndexOf(map[], [])
  {
  }

  predicate Distinct(texts: seq<string>) {
    forall i, j | 0 <= i < j < |texts| :: texts[i] != texts[j]
  }

  /** `len(set(texts)) == len(texts)` */
  lemma {:induction false} DistinctIff(texts: seq<string>)
    ensures Distinct(texts) <==> |set d | d in texts| == |texts|
    ensures |set d | d in texts| <= |texts|
  {
    if texts != [] {
      var n := |texts| - 1;
      var rest, last := texts[..n], texts[n];
      DistinctIff(rest);
      assert texts == rest + [last];
      assert (set d | d in texts) == (set d | d in rest) + {last};
      assert last in rest <==> exists i :: 0 <= i < n && texts[i] == last;
      if last in rest {
        assert (set d | d in texts) == set d | d in rest;
      }
    }
  }

  ghost predicate ChosenBy(volumes: seq<Volume>, selected: seq<string>, chosen: seq<Volume>) {
    if selected == [] then chosen == volumes
    else |chosen| == |selected| && forall i | 0 <= i < |chosen| :: BoundOnce(volumes, selected[i], chosen[i])
  }

  /** The selected destinations in their order, or every volume when none is selected. */
  method Choose(volumes: seq<Volume>, selected: seq<string>) returns (ordered: Option<seq<Volume>>)
    ensures selected == [] ==> ordered == Some(volumes)
    ensures selected != [] && ordered.Some? ==> |ordered.value| == |selected|
    ensures selected != [] && ordered.Some? ==> forall i | 0 <= i < |selected| :: BoundOnce(volumes, selected[i], ordered.value[i])
    ensures ordered.None? ==> forall c :: !ChosenBy(volumes, selected, c)
  {
    hide SourceText;
    if selected == [] {
      return Some(volumes);
    }
    var m := ByDestination(volumes);
    var list: seq<Volume> := [];
    for i := 0 to |selected|
      invariant |list| == i && forall k | 0 <= k < i :: BoundOnce(volumes, selected[k], list[k])
    {
      assert IndexAt(m, volumes, selected[i]);
      if selected[i] !in m || m[selected[i]].None? {
        NotBoundOnce(m, volumes, selected[i]);
        forall c
          ensures !ChosenBy(volumes, selected, c)
        {
          assert |c| == |selected| ==> !BoundOnce(volumes, selected[i], c[i]);
        }
        return None;
      }
      list := list + [m[selected[i]].value];
    }
    return Some(list);
  }

  lemma NotBoundOnce(m: map<string, Option<Volume>>, volumes: seq<Volume>, d: string)
    requires IndexOf(m, volumes) && (d !in m || m[d].None?)
    ensures forall v :: !BoundOnce(volumes, d, v)
  {
    hide BoundBy;
    assert IndexAt(m, volumes, d);
  }

  // Describing them

  predicate Usable(v: Volume) {
    SourceText(v.source) && v.described && v.bind.Some? && MountFolder(v.bind.value).Some?
  }

  ghost predicate AllUsable(volumes: seq<Volume>) {
    && (forall i | 0 <= i < |volumes| :: Usable(volumes[i]))
    && (forall i, j | 0 <= i < j < |volumes| :: volumes[i].source != volumes[j].source && volumes[i].bind != volumes[j].bind)
  }

  /** One descriptor a volume, in order, each with the first free form of its own folder. */
  ghost predicate Describes(list: seq<Descriptor>, volumes: seq<Volume>) {
    && |list| == |volumes|
    && (forall i | 0 <= i < |list| :: DescribesAt(list[i], volumes[i], list[..i]))
    && (forall i, j | 0 <= i < j < |list| :: list[i].folder != list[j].folder)
  }

  ghost predicate DescribesAt(d: Descriptor, v: Volume, earlier: seq<Descriptor>) {
    d.source == v.source && Folder(d.folder) && Usable(v) && FirstFree(MountFolder(v.bind.value).value, FoldersOf(earlier), d.folder)
  }

  function FoldersOf(list: seq<Descriptor>): (folders: set<string>)
    ensures |folders| <= |list|
    ensures forall f :: f in folders <==> exists i :: 0 <= i < |list| && list[i].folder == f
  {
    if list == [] then {} else FoldersOf(list[..|list| - 1]) + {list[|list| - 1].folder}
  }

  lemma FolderIsUsed(list: seq<Descriptor>, i: nat)
    requires i < |list|
    ensures list[i].folder in FoldersOf(list)
  {
  }

  lemma FreeIsUnused(base: string, used: set<string>, folder: string)
    requires FirstFree(base, used, folder)
    ensures folder !in used
  {
  }

  lemma DescribesNext(list: seq<Descriptor>, volumes: seq<Volume>, v: Volume, folder: string)
    requires Describes(list, volumes) && Usable(v) && Folder(folder)
    requires FirstFree(MountFolder(v.bind.value).value, FoldersOf(list), folder)
    ensures Describes(list + [Descriptor(v.source, folder)], volumes + [v])
  {
    hide Folder, MountFolder, FirstFree, FoldersOf;
    var next, all := list + [Descriptor(v.source, folder)], volumes + [v];
    var n := |list|;
    FreeIsUnused(MountFolder(v.bind.value).value, FoldersOf(list), folder);
    assert next[..n] == list && next[n] == Descriptor(v.source, folder) && all[n] == v;
    assert DescribesAt(next[n], all[n], next[..n]);
    forall i | 0 <= i < n
      ensures next[i].folder != folder && DescribesAt(next[i], all[i], next[..i])
    {
      assert DescribesAt(list[i], volumes[i], list[..i]);
      FolderIsUsed(list, i);
      assert next[i] == list[i] && all[i] == volumes[i] && next[..i] == list[..i];
    }
  }

  method Describe(ordered: seq<Volume>) returns (r: Answer)
    requires |ordered| <= LIMIT
    ensures r.Sources? <==> AllUsable(ordered)
    ensures r.Sources? ==> Describes(r.list, ordered) && |r.list| == |ordered|
  {
    hide MountFolder, Folder, SourceText, Describes, FirstFree, FoldersOf, AllUsable;
    var list: seq<Descriptor>, usedSources: set<string>, usedDestinations: set<string>, usedFolders: set<string> := [], {}, {}, {};
    NothingDescribed();
    for i := 0 to |ordered|
      invariant |list| == i && Describes(list, ordered[..i]) && AllUsable(ordered[..i]) && usedFolders == FoldersOf(list)
      invariant forall s :: s in usedSources <==> exists k :: 0 <= k < i && ordered[k].source == s
      invariant forall d :: d in usedDestinations <==> exists k :: 0 <= k < i && ordered[k].bind == Some(d)
    {
      var v := ordered[i];
      assert ordered[..i + 1] == ordered[..i] + [v];
      if !SourceText(v.source) || !v.described || v.bind.None? || v.source in usedSources || v.bind.value in usedDestinations {
        Unusable(ordered, i);
        return Unavailable;
      }
      var base := MountFolder(v.bind.value);
      if base.None? {
        Unusable(ordered, i);
        return Unavailable;
      }
      BaseIsFolder(v.bind.value);
      UsableNext(ordered, i);
      var folder := NextFolder(base.value, usedFolders);
      DescribesNext(list, ordered[..i], v, folder);
      FoldersNext(list, Descriptor(v.source, folder));
      usedSources, usedDestinations, usedFolders := usedSources + {v.source}, usedDestinations + {v.bind.value}, usedFolders + {folder};
      list := list + [Descriptor(v.source, folder)];
    }
    assert ordered[..|ordered|] == ordered;
    return Sources(list);
  }

  lemma NothingDescribed()
    ensures Describes([], []) && AllUsable([]) && FoldersOf([]) == {}
  {
  }

  lemma BaseIsFolder(destination: string)
    requires MountFolder(destination).Some?
    ensures Folder(MountFolder(destination).value) && MountFolder(destination).value[0] != '-'
  {
    hide Slug;
  }

  lemma FoldersNext(list: seq<Descriptor>, d: Descriptor)
    ensures FoldersOf(list + [d]) == FoldersOf(list) + {d.folder} && |FoldersOf(list)| <= |list|
  {
    assert (list + [d])[..|list|] == list;
  }

  lemma UsableNext(ordered: seq<Volume>, i: nat)
    requires i < |ordered| && AllUsable(ordered[..i]) && Usable(ordered[i])
    requires forall k | 0 <= k < i :: ordered[k].source != ordered[i].source && ordered[k].bind != ordered[i].bind
    ensures AllUsable(ordered[..i + 1])
  {
    hide Usable;
    assert forall k | 0 <= k < i :: ordered[..i + 1][k] == ordered[..i][k] && Usable(ordered[..i][k]);
  }

  lemma Unusable(ordered: seq<Volume>, i: nat)
    requires i < |ordered|
    requires !Usable(ordered[i]) || exists k :: 0 <= k < i && (ordered[k].source == ordered[i].source || ordered[k].bind == ordered[i].bind)
    ensures !AllUsable(ordered)
  {
    hide Usable;
  }

  ghost predicate Presentable(volumes: seq<Volume>, selected: seq<string>) {
    && volumes != [] && Distinct(selected)
    && exists chosen :: ChosenBy(volumes, selected, chosen) && |chosen| <= LIMIT && AllUsable(chosen)
  }

  /** `_live_mount_source` of a target with these volumes and this selection. */
  method MountSource(volumes: seq<Volume>, selected: seq<string>) returns (r: Answer, ghost chosen: seq<Volume>)
    // Answered with one descriptor for each chosen volume: folders differ, and the worker's pattern accepts each.
    ensures r.Sources? ==> Describes(r.list, chosen) && AllUsable(chosen) && 0 < |r.list| <= LIMIT
    ensures r.Sources? ==> ChosenBy(volumes, selected, chosen)
    // Refused exactly when there is nothing to show, too much, or something ambiguous or unusable.
    ensures r.Unavailable? <==> !Presentable(volumes, selected)
  {
    hide Describes, AllUsable, BoundOnce;
    chosen := [];
    DistinctIff(selected);
    if volumes == [] || |selected| > LIMIT || |set d | d in selected| != |selected| {
      return Unavailable, chosen;
    }
    var ordered := Choose(volumes, selected);
    if ordered.None? {
      return Unavailable, chosen;
    }
    chosen := ordered.value;
    SameChoice(volumes, selected, chosen);
    if ordered.value == [] || |ordered.value| > LIMIT {
      return Unavailable, chosen;
    }
    r := Describe(ordered.value);
  }

  lemma SameChoice(volumes: seq<Volume>, selected: seq<string>, a: seq<Volume>)
    requires ChosenBy(volumes, selected, a)
    ensures forall b :: ChosenBy(volumes, selected, b) ==> b == a
  {
    hide BoundOnce;
    forall b | ChosenBy(volumes, selected, b)
      ensures b == a
    {
      if selected != [] {
        forall i | 0 <= i < |a|
          ensures a[i] == b[i]
        {
          BoundOnceIsOne(volumes, selected[i], a[i], b[i]);
        }
      }
    }
  }

  lemma BoundOnceIsOne(volumes: seq<Volume>, d: string, v: Volume, w: Volume)
    requires BoundOnce(volumes, d, v) && BoundOnce(volumes, d, w)
    ensures v == w
  {
    hide BoundBy, BoundOnce;
    var i := TheOne(volumes, d, v);
    var j := TheOne(volumes, d, w);
  }

  // The worker

  datatype Resolved = Invalid | Ready(count: nat)

  /** What the worker accepts: sources it can use and proper folders, neither of them twice. */
  ghost predicate Acceptable(descriptors: seq<Descriptor>, resolves: string -> bool) {
    && 0 < |descriptors| <= LIMIT
    && (forall i | 0 <= i < |descriptors| :: Folder(descriptors[i].folder) && resolves(descriptors[i].source))
    && (forall i, j | 0 <= i < j < |descriptors| ::
          descriptors[i].source != descriptors[j].source && descriptors[i].folder != descriptors[j].folder)
  }

  /** `_resolve_live_sources`; `resolves` says which sources the worker can use. A resolved source keeps its name, and its
      kind follows from the name. */
  method ResolveSources(descriptors: seq<Descriptor>, resolves: string -> bool) returns (r: Option<seq<string>>)
    ensures r.Some? <==> Acceptable(descriptors, resolves)
    ensures r.Some? ==> |r.value| == |descriptors| && forall i | 0 <= i < |descriptors| :: r.value[i] == descriptors[i].source
  {
    hide Folder;
    if descriptors == [] || |descriptors| > LIMIT {
      return None;
    }
    var resolved: seq<string>, keys: set<string>, folders: set<string> := [], {}, {};
    for i := 0 to |descriptors|
      invariant |resolved| == i && forall k | 0 <= k < i :: resolved[k] == descriptors[k].source
      invariant forall k | 0 <= k < i :: Folder(descriptors[k].folder) && resolves(descriptors[k].source)
      invariant forall k, l | 0 <= k < l < i ::
        descriptors[k].source != descriptors[l].source && descriptors[k].folder != descriptors[l].folder
      invariant forall s :: s in keys <==> exists k :: 0 <= k < i && descriptors[k].source == s
      invariant forall f :: f in folders <==> exists k :: 0 <= k < i && descriptors[k].folder == f
    {
      var d := descriptors[i];
      if !Folder(d.folder) || !resolves(d.source) || d.source in keys || d.folder in folders {
        return None;
      }
      keys, folders, resolved := keys + {d.source}, folders + {d.folder}, resolved + [d.source];
    }
    return Some(resolved);
  }

  /** The worker accepts every list the control plane builds, provided it can use the sources. */
  lemma WorkerAccepts(list: seq<Descriptor>, volumes: seq<Volume>, resolves: string -> bool)
    requires Describes(list, volumes) && AllUsable(volumes) && 0 < |list| <= LIMIT
    ensures Acceptable(list, resolves) <==> forall i | 0 <= i < |list| :: resolves(list[i].source)
  {
    hide MountFolder, Folder, FirstFree, FoldersOf;
  }
}
