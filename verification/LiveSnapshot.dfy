/** The bounded worklist traversal behind live snapshots, which the worker holds in two copies. */
module LiveSnapshot {
  import opened Text

  /** What a directory scan meets. Asking for an entry's type and data may raise an OSError: the entry is then skipped, whatever
      stands there, if it has not vanished. A directory holds the entries that are read and, if an OSError breaks its scan
      off, those behind the error; an entry whose link test raises is the last one read and has no data. */
  datatype Node =
    | Link
    | Unstated(there: Option<Node>)
    | Special
    | File(size: int, mtime: int)
    | Dir(read: seq<Entry>, broken: bool, unread: seq<Entry>)

  datatype Entry = Entry(name: string, node: Node)

  datatype Kind = DirKind | FileKind

  datatype Meta = Meta(kind: Kind, size: Option<int>, mtime: Option<int>)

  datatype Outcome = Unavailable | Snapshot(entries: map<string, Meta>, complete: bool)

  /** Names from the root down. */
  type Path = seq<string>

  /** A directory waiting to be scanned; `relative` is its key, empty for the root. */
  datatype Work = Work(path: Path, relative: string, children: seq<Entry>, broken: bool)

  predicate Visible(n: Node) {
    n.File? || n.Dir?
  }

  function MetaOf(n: Node): Meta {
    if n.File? then Meta(FileKind, Some(n.size), Some(n.mtime)) else Meta(DirKind, None, None)
  }

  /** The key of an entry: every level puts a further slash in front. */
  function EntryKey(relative: string, name: string): string {
    "/" + if relative == "" then name else relative + "/" + name
  }

  function Key(path: Path): string {
    if path == [] then "" else EntryKey(Key(path[..|path| - 1]), path[|path| - 1])
  }

  // File names

  predicate Name(s: string) {
    s != "" && '/' !in s
  }

  /** Sibling names are proper and distinct, all the way down. */
  predicate Proper(children: seq<Entry>)
    decreases children
  {
    && (forall i | 0 <= i < |children| :: Name(children[i].name))
    && (forall i, j | 0 <= i < j < |children| :: children[i].name != children[j].name)
    && (forall i | 0 <= i < |children| && children[i].node.Dir? ::
          Proper(children[i].node.read) && Proper(children[i].node.unread) && Apart(children[i].node.read, children[i].node.unread)
          && (!children[i].node.broken ==> children[i].node.unread == []))
  }

  predicate Apart(a: seq<Entry>, b: seq<Entry>) {
    forall i, j | 0 <= i < |a| && 0 <= j < |b| :: a[i].name != b[j].name
  }

  predicate ProperPath(path: Path) {
    forall i | 0 <= i < |path| :: Name(path[i])
  }

  lemma LastSlash(a: string, n: string, b: string, m: string)
    requires Name(n) && Name(m) && a + "/" + n == b + "/" + m
    ensures a == b && n == m
  {
    AfterSlash(a, n);
    AfterSlash(b, m);
    var s := a + "/" + n;
    assert |a| == |b|;
    assert a == s[..|a|] && b == s[..|b|] && n == s[|a| + 1..] && m == s[|b| + 1..];
  }

  lemma AfterSlash(a: string, n: string)
    requires Name(n)
    ensures var s := a + "/" + n; |s| == |a| + 1 + |n| && s[|a|] == '/' && forall k | |a| < k < |s| :: s[k] != '/'
  {
    var s := a + "/" + n;
    forall k | |a| < k < |s|
      ensures s[k] != '/'
    {
      assert s[k] == n[k - |a| - 1];
      assert n[k - |a| - 1] in n;
    }
  }

  /** Two entries never share a key. */
  lemma {:induction false} KeyInjective(p: Path, q: Path)
    requires ProperPath(p) && ProperPath(q) && Key(p) == Key(q)
    ensures p == q
    decreases |p|
  {
    if p == [] || q == [] {
      assert p == [] ==> q == [];
    } else {
      var n, m := |p| - 1, |q| - 1;
      var a, b := Key(p[..n]), Key(q[..m]);
      SlashedKey(a, p[n]);
      SlashedKey(b, q[m]);
      LastSlash(Slashed(a), p[n], Slashed(b), q[m]);
      assert a == b;
      KeyInjective(p[..n], q[..m]);
      assert p == p[..n] + [p[n]] && q == q[..m] + [q[m]];
    }
  }

  function Slashed(relative: string): (s: string)
    ensures relative != "" ==> s != "" && s[1..] == relative
  {
    if relative == "" then "" else "/" + relative
  }

  lemma SlashedKey(relative: string, name: string)
    ensures EntryKey(relative, name) == Slashed(relative) + "/" + name
  {
  }

  // What there is to find

  /** Every file and directory that can be read without following a link, with its data, once. */
  function Listing(prefix: Path, children: seq<Entry>): set<(Path, Meta)>
    decreases children
  {
    if children == [] then {}
    else Listing(prefix, children[1..]) + Below(prefix, children[0])
  }

  function Below(prefix: Path, e: Entry): set<(Path, Meta)>
    decreases e
  {
    if !Visible(e.node) then {}
    else {(prefix + [e.name], MetaOf(e.node))} + if e.node.Dir? then Listing(prefix + [e.name], e.node.read) else {}
  }

  /** Every entry a full traversal reads, links and skipped ones included. */
  function Count(children: seq<Entry>): nat
    decreases children
  {
    if children == [] then 0
    else 1 + Count(children[1..]) + if children[0].node.Dir? then Count(children[0].node.read) else 0
  }

  function Find(children: seq<Entry>, name: string): Option<Node> {
    if children == [] then None
    else if children[0].name == name then Some(children[0].node)
    else Find(children[1..], name)
  }

  /** Walking down the names of a path. */
  function NodeAt(children: seq<Entry>, path: Path): Option<Node>
    decreases |path|
  {
    if path == [] then None
    else
      var found := Find(children, path[0]);
      if |path| == 1 || found.None? then found
      else if found.value.Dir? then NodeAt(found.value.read, path[1..])
      else None
  }

  lemma {:induction false} FindAt(children: seq<Entry>, i: nat)
    requires i < |children| && forall k, l | 0 <= k < l < |children| :: children[k].name != children[l].name
    ensures Find(children, children[i].name) == Some(children[i].node)
  {
    if i > 0 {
      FindAt(children[1..], i - 1);
    }
  }

  lemma {:induction false} FoundAt(children: seq<Entry>, name: string) returns (i: nat)
    requires Find(children, name).Some?
    ensures i < |children| && children[i].name == name && children[i].node == Find(children, name).value
  {
    if children[0].name == name {
      i := 0;
    } else {
      i := FoundAt(children[1..], name);
      i := i + 1;
    }
  }

  lemma {:induction false} ListingSplit(prefix: Path, children: seq<Entry>, x: (Path, Meta))
    ensures x in Listing(prefix, children) <==> exists i :: 0 <= i < |children| && x in Below(prefix, children[i])
  {
    hide Below;
    if children != [] {
      var rest := children[1..];
      ListingSplit(prefix, rest, x);
      if x in Below(prefix, children[0]) {
      } else if x in Listing(prefix, rest) {
        var i :| 0 <= i < |rest| && x in Below(prefix, rest[i]);
        assert children[i + 1] == rest[i];
      } else {
        forall i | 0 <= i < |children|
          ensures x !in Below(prefix, children[i])
        {
          assert i > 0 ==> rest[i - 1] == children[i];
        }
      }
    }
  }

  /** The listing is what walking down the names finds: a visible node at every listed path, and no other. */
  lemma {:induction false} ListingIsWalk(prefix: Path, children: seq<Entry>, path: Path, meta: Meta)
    requires Proper(children)
    ensures (prefix + path, meta) in Listing(prefix, children)
       <==> NodeAt(children, path).Some? && Visible(NodeAt(children, path).value) && meta == MetaOf(NodeAt(children, path).value)
    decreases children
  {
    hide Below, NodeAt;
    var x := (prefix + path, meta);
    ListingSplit(prefix, children, x);
    if path == [] {
      forall i | 0 <= i < |children|
        ensures x !in Below(prefix, children[i])
      {
        BelowHas(prefix, children[i], path, meta);
      }
      assert NodeAt(children, path).None? by { WalkEmpty(children, path); }
    } else {
      forall i | 0 <= i < |children|
        ensures x in Below(prefix, children[i]) ==> children[i].name == path[0]
      {
        BelowHas(prefix, children[i], path, meta);
      }
      var found := Find(children, path[0]);
      if found.Some? {
        var i := FoundAt(children, path[0]);
        WalkStep(children, path);
        BelowHas(prefix, children[i], path, meta);
        assert forall j | 0 <= j < |children| && j != i :: children[j].name != path[0];
        assert x in Listing(prefix, children) <==> x in Below(prefix, children[i]);
        if |path| > 1 && found.value.Dir? {
          ListingIsWalk(prefix + [path[0]], found.value.read, path[1..], meta);
          assert prefix + [path[0]] + path[1..] == prefix + path;
        }
      } else {
        NotFound(children, path);
      }
    }
  }

  lemma WalkEmpty(children: seq<Entry>, path: Path)
    requires path == []
    ensures NodeAt(children, path).None?
  {
  }

  lemma WalkStep(children: seq<Entry>, path: Path)
    requires path != [] && Find(children, path[0]).Some?
    ensures var found := Find(children, path[0]).value;
            NodeAt(children, path) == if |path| == 1 then Some(found) else if found.Dir? then NodeAt(found.read, path[1..]) else None
  {
  }

  lemma NotFound(children: seq<Entry>, path: Path)
    requires path != [] && Find(children, path[0]).None?
    ensures NodeAt(children, path).None? && forall i | 0 <= i < |children| :: children[i].name != path[0]
  {
    NoneFound(children, path[0]);
  }

  lemma {:induction false} NoneFound(children: seq<Entry>, name: string)
    requires Find(children, name).None?
    ensures forall i | 0 <= i < |children| :: children[i].name != name
  {
    if children != [] {
      NoneFound(children[1..], name);
      assert forall i | 0 < i < |children| :: children[i] == children[1..][i - 1];
    }
  }

  lemma {:induction false} ListingLonger(prefix: Path, children: seq<Entry>, x: (Path, Meta))
    requires x in Listing(prefix, children)
    ensures |x.0| > |prefix| && x.0[..|prefix|] == prefix
    decreases children
  {
    hide Below;
    ListingSplit(prefix, children, x);
    var i :| 0 <= i < |children| && x in Below(prefix, children[i]);
    BelowLonger(prefix, children[i], x);
  }

  lemma {:induction false} BelowLonger(prefix: Path, e: Entry, x: (Path, Meta))
    requires x in Below(prefix, e)
    ensures |x.0| > |prefix| && x.0[..|prefix| + 1] == prefix + [e.name]
    decreases e
  {
    hide Listing;
    if x != (prefix + [e.name], MetaOf(e.node)) {
      ListingLonger(prefix + [e.name], e.node.read, x);
      assert x.0[..|prefix| + 1] == prefix + [e.name];
    }
  }

  lemma BelowHas(prefix: Path, e: Entry, path: Path, meta: Meta)
    ensures (prefix + path, meta) in Below(prefix, e)
       <==> path != [] && path[0] == e.name && Visible(e.node)
            && ((|path| == 1 && meta == MetaOf(e.node))
                || (|path| > 1 && e.node.Dir? && (prefix + path, meta) in Listing(prefix + [e.name], e.node.read)))
  {
    hide Listing;
    var x := (prefix + path, meta);
    if x in Below(prefix, e) {
      BelowLonger(prefix, e, x);
      assert path[0] == x.0[|prefix|] == e.name;
      assert |path| == 1 ==> prefix + path == prefix + [e.name];
      if e.node.Dir? && x in Listing(prefix + [e.name], e.node.read) {
        ListingLonger(prefix + [e.name], e.node.read, x);
      }
    } else if |path| == 1 && path[0] == e.name {
      assert prefix + path == prefix + [e.name];
    }
  }

  // The whole tree

  /** Every file and directory of the tree, behind an error or not. */
  function Whole(prefix: Path, children: seq<Entry>): set<(Path, Meta)>
    decreases children
  {
    if children == [] then {} else Whole(prefix, children[1..]) + WholeAt(prefix + [children[0].name], children[0].node)
  }

  /** What stands at a path and below it. */
  function WholeAt(path: Path, n: Node): set<(Path, Meta)>
    decreases n
  {
    match n
    case Link => {}
    case Special => {}
    case Unstated(there) => if there.Some? then WholeAt(path, there.value) else {}
    case File(_, _) => {(path, MetaOf(n))}
    case Dir(read, _, unread) => {(path, MetaOf(n))} + Whole(path, read) + Whole(path, unread)
  }

  /** A file or directory stands there, whether its data can be had or not. */
  predicate Stands(n: Node) {
    Visible(n) || (n.Unstated? && n.there.Some? && Stands(n.there.value))
  }

  predicate AnyStands(entries: seq<Entry>) {
    exists i | 0 <= i < |entries| :: Stands(entries[i].node)
  }

  /** An entry that the traversal reaches and that has a file or directory behind an error: itself, or one of a directory's. */
  predicate HidesAt(children: seq<Entry>, path: Path) {
    var n := NodeAt(children, path);
    n.Some? && if n.value.Dir? then AnyStands(n.value.unread) else n.value.Unstated? && Stands(n.value)
  }

  ghost predicate Hides(children: seq<Entry>) {
    exists path :: HidesAt(children, path)
  }

  lemma {:induction false} WholeSplit(prefix: Path, children: seq<Entry>, x: (Path, Meta))
    ensures x in Whole(prefix, children) <==> exists i :: 0 <= i < |children| && x in WholeAt(prefix + [children[i].name], children[i].node)
  {
    hide WholeAt;
    if children != [] {
      var rest := children[1..];
      WholeSplit(prefix, rest, x);
      assert forall i | 0 < i < |children| :: children[i] == rest[i - 1];
      if x in Whole(prefix, rest) {
        var i :| 0 <= i < |rest| && x in WholeAt(prefix + [rest[i].name], rest[i].node);
        assert children[i + 1] == rest[i];
      }
    }
  }

  lemma {:induction false} NothingStands(path: Path, n: Node)
    requires !Stands(n)
    ensures WholeAt(path, n) == {}
  {
    if n.Unstated? && n.there.Some? {
      NothingStands(path, n.there.value);
    }
  }

  lemma NoneStands(prefix: Path, children: seq<Entry>, x: (Path, Meta))
    requires !AnyStands(children)
    ensures x !in Whole(prefix, children)
  {
    hide WholeAt, Stands;
    forall i | 0 <= i < |children|
      ensures x !in WholeAt(prefix + [children[i].name], children[i].node)
    {
      NothingStands(prefix + [children[i].name], children[i].node);
    }
    WholeSplit(prefix, children, x);
  }

  /** The data of what stands there. */
  function Standing(n: Node): (meta: Meta)
    requires Stands(n)
    ensures forall path :: (path, meta) in WholeAt(path, n)
  {
    if n.Unstated? then Standing(n.there.value) else MetaOf(n)
  }

  lemma StandingInWhole(prefix: Path, children: seq<Entry>, i: nat)
    requires i < |children| && Stands(children[i].node)
    ensures (prefix + [children[i].name], Standing(children[i].node)) in Whole(prefix, children)
  {
    hide Whole, WholeAt, Standing, Stands;
    WholeSplit(prefix, children, (prefix + [children[i].name], Standing(children[i].node)));
  }

  /** What is whole at a reached entry belongs to the whole tree. */
  lemma {:induction false} WholeBelowIsWhole(prefix: Path, children: seq<Entry>, path: Path, x: (Path, Meta))
    requires NodeAt(children, path).Some? && x in WholeAt(prefix + path, NodeAt(children, path).value)
    ensures x in Whole(prefix, children)
    decreases |path|
  {
    hide Whole;
    var i := FoundAt(children, path[0]);
    var d, below := children[i].node, prefix + [path[0]];
    if |path| == 1 {
      assert below == prefix + path;
    } else {
      assert below + path[1..] == prefix + path;
      WholeBelowIsWhole(below, d.read, path[1..], x);
    }
    assert x in WholeAt(below, d);
    WholeSplit(prefix, children, x);
  }

  /** What stands behind the error of a directory is not walked to. */
  lemma {:induction false} HiddenNotWalked(children: seq<Entry>, path: Path, k: nat)
    requires Proper(children) && NodeAt(children, path).Some? && NodeAt(children, path).value.Dir?
    requires k < |NodeAt(children, path).value.unread|
    ensures NodeAt(children, path + [NodeAt(children, path).value.unread[k].name]).None?
    decreases |path|
  {
    var name := NodeAt(children, path).value.unread[k].name;
    var i := FoundAt(children, path[0]);
    var d := children[i].node;
    assert (path + [name])[0] == path[0] && (path + [name])[1..] == path[1..] + [name];
    if |path| == 1 {
      if Find(d.read, name).Some? {
        var j := FoundAt(d.read, name);
      }
      assert (path + [name])[1..] == [name];
    } else {
      HiddenNotWalked(d.read, path[1..], k);
    }
  }

  lemma EntryHides(children: seq<Entry>, i: nat)
    requires Proper(children) && i < |children|
    ensures var n := children[i].node;
            HidesAt(children, [children[i].name]) <==> if n.Dir? then AnyStands(n.unread) else n.Unstated? && Stands(n)
  {
    hide AnyStands, Stands;
    FindAt(children, i);
  }

  lemma HidesBelow(children: seq<Entry>, i: nat, path: Path)
    requires Proper(children) && i < |children| && children[i].node.Dir? && HidesAt(children[i].node.read, path)
    ensures HidesAt(children, [children[i].name] + path)
  {
    hide AnyStands, Stands;
    FindAt(children, i);
    assert ([children[i].name] + path)[1..] == path;
  }

  /** Where nothing stands behind an error, the traversal finds the whole tree. */
  lemma {:induction false} NothingHidden(prefix: Path, children: seq<Entry>, x: (Path, Meta))
    requires Proper(children) && !Hides(children)
    ensures x in Whole(prefix, children) <==> x in Listing(prefix, children)
    decreases children
  {
    hide Listing, Whole, Proper, NodeAt, HidesAt, AnyStands, Stands;
    forall i | 0 <= i < |children|
      ensures x in WholeAt(prefix + [children[i].name], children[i].node) <==> x in Below(prefix, children[i])
    {
      var n, path := children[i].node, prefix + [children[i].name];
      EntryHides(children, i);
      if n.Dir? {
        ProperAt(children, i);
        forall path
          ensures !HidesAt(n.read, path)
        {
          if HidesAt(n.read, path) {
            HidesBelow(children, i, path);
          }
        }
        NothingHidden(path, n.read, x);
        NoneStands(path, n.unread, x);
      } else if n.Unstated? {
        NothingStands(path, n);
      }
    }
    WholeSplit(prefix, children, x);
    ListingSplit(prefix, children, x);
  }

  lemma ProperAt(children: seq<Entry>, i: nat)
    requires Proper(children) && i < |children| && children[i].node.Dir?
    ensures Proper(children[i].node.read)
  {
  }

  /** A record of all that the traversal can read is a record of the whole tree exactly when no entry it reaches has a file or
      directory behind an error. */
  lemma WholeIffNothingHidden(children: seq<Entry>, entries: map<string, Meta>)
    requires Proper(children) && Records(entries, Listing([], children))
    ensures Records(entries, Whole([], children)) <==> !Hides(children)
  {
    hide Listing, Whole, NodeAt, Records, Proper, HidesAt;
    if !Hides(children) {
      forall x
        ensures x in Whole([], children) <==> x in Listing([], children)
      {
        NothingHidden([], children, x);
      }
      assert Whole([], children) == Listing([], children);
    } else if Records(entries, Whole([], children)) {
      var path :| HidesAt(children, path);
      var x := HiddenEntry(children, path);
      RecordFor(entries, Whole([], children), x);
      var y := RecordOf(entries, Listing([], children), Key(x.0));
      KeyInjective(x.0, y.0);
    }
  }

  lemma UnreadIsWhole(path: Path, n: Node, x: (Path, Meta))
    requires n.Dir? && x in Whole(path, n.unread)
    ensures x in WholeAt(path, n)
  {
  }

  lemma HiddenEntry(children: seq<Entry>, path: Path) returns (x: (Path, Meta))
    requires Proper(children) && HidesAt(children, path)
    ensures x in Whole([], children) && forall meta :: (x.0, meta) !in Listing([], children)
  {
    hide Listing, Whole, WholeAt, Proper, NodeAt, Standing, Stands;
    var n := NodeAt(children, path).value;
    assert [] + path == path;
    if n.Dir? {
      var k: nat :| k < |n.unread| && Stands(n.unread[k].node);
      x := (path + [n.unread[k].name], Standing(n.unread[k].node));
      StandingInWhole(path, n.unread, k);
      UnreadIsWhole(path, n, x);
      HiddenNotWalked(children, path, k);
    } else {
      x := (path, Standing(n));
    }
    WholeBelowIsWhole([], children, path, x);
    assert [] + x.0 == x.0;
    forall meta
      ensures (x.0, meta) !in Listing([], children)
    {
      ListingIsWalk([], children, x.0, meta);
    }
  }

  /** The root of a tree whose one directory cannot be scanned: a file stands behind the error. */
  function Unreadable(directory: string, file: string, size: int, mtime: int): seq<Entry> {
    [Entry(directory, Dir([], true, [Entry(file, File(size, mtime))]))]
  }

  lemma OneDirectory(directory: string, node: Node)
    requires Name(directory) && node.Dir? && node.read == [] && node.broken && Proper(node.unread)
    ensures Proper([Entry(directory, node)]) && Count([Entry(directory, node)]) == 1
    ensures Listing([], [Entry(directory, node)]) == {([directory], MetaOf(node))}
    ensures NodeAt([Entry(directory, node)], [directory]) == Some(node)
  {
    var children := [Entry(directory, node)];
    assert children[1..] == [] && [] + [directory] == [directory];
    assert Count(node.read) == 0 && Proper(node.read) && Listing([directory], node.read) == {};
  }

  /** One entry is read, the directory; the traversal calls this complete and misses the file. */
  lemma UnreadableIsMissed(directory: string, file: string, size: int, mtime: int)
    requires Name(directory) && Name(file)
    ensures var children := Unreadable(directory, file, size, mtime);
            && Proper(children) && Count(children) == 1 && Hides(children)
            && Listing([], children) == {([directory], Meta(DirKind, None, None))}
            && ([directory, file], Meta(FileKind, Some(size), Some(mtime))) in Whole([], children)
  {
    hide Whole, Listing, NodeAt, Count;
    var unread := [Entry(file, File(size, mtime))];
    var children := Unreadable(directory, file, size, mtime);
    OneDirectory(directory, children[0].node);
    assert Stands(unread[0].node);
    assert HidesAt(children, [directory]);
    StandingInWhole([directory], unread, 0);
    var x := ([directory] + [file], Meta(FileKind, Some(size), Some(mtime)));
    UnreadIsWhole([directory], children[0].node, x);
    assert [] + [directory] == [directory] && [directory] + [file] == [directory, file];
    WholeBelowIsWhole([], children, [directory], x);
  }

  /** A file whose data cannot be had, as in a directory that may be read but not searched: no scan breaks off, and the
      traversal calls a snapshot without the file complete. */
  lemma UnstatedIsMissed(file: string, size: int, mtime: int)
    requires Name(file)
    ensures var children := [Entry(file, Unstated(Some(File(size, mtime))))];
            && Proper(children) && Count(children) == 1 && Hides(children) && Listing([], children) == {}
            && ([file], Meta(FileKind, Some(size), Some(mtime))) in Whole([], children)
  {
    hide Whole;
    var children := [Entry(file, Unstated(Some(File(size, mtime))))];
    assert children[1..] == [] && [] + [file] == [file];
    EntryHides(children, 0);
    StandingInWhole([], children, 0);
  }

  // The traversal

  function ListingAll(pending: seq<Work>): set<(Path, Meta)> {
    if pending == [] then {} else ListingAll(pending[..|pending| - 1]) + Listing(pending[|pending| - 1].path, pending[|pending| - 1].children)
  }

  function CountAll(pending: seq<Work>): nat {
    if pending == [] then 0 else CountAll(pending[..|pending| - 1]) + Count(pending[|pending| - 1].children)
  }

  predicate ProperWork(w: Work) {
    ProperPath(w.path) && w.relative == Key(w.path) && Proper(w.children)
  }

  /** The dictionary holds exactly the listed paths under their keys. */
  ghost predicate Records(entries: map<string, Meta>, done: set<(Path, Meta)>) {
    && (forall x | x in done :: ProperPath(x.0) && Key(x.0) in entries && entries[Key(x.0)] == x.1)
    && (forall key | key in entries :: exists x :: x in done && Key(x.0) == key)
  }

  predicate Single(done: set<(Path, Meta)>) {
    forall x, y | x in done && y in done && x.0 == y.0 :: x == y
  }

  lemma RecordOneMore(entries: map<string, Meta>, done: set<(Path, Meta)>, path: Path, meta: Meta)
    requires Records(entries, done) && ProperPath(path) && Single(done + {(path, meta)})
    ensures Records(entries[Key(path) := meta], done + {(path, meta)})
  {
    hide Key, ProperPath, Single, Records;
    var entries', done' := entries[Key(path) := meta], done + {(path, meta)};
    forall x | x in done'
      ensures ProperPath(x.0) && Key(x.0) in entries' && entries'[Key(x.0)] == x.1
    {
      RecordKept(entries, done, path, meta, x);
    }
    forall key | key in entries'
      ensures exists x :: x in done' && Key(x.0) == key
    {
      if key == Key(path) {
        assert (path, meta) in done';
      } else {
        var x := RecordOf(entries, done, key);
        assert x in done';
      }
    }
    RecordsMeans(entries', done');
  }

  lemma RecordsMeans(entries: map<string, Meta>, done: set<(Path, Meta)>)
    requires forall x | x in done :: ProperPath(x.0) && Key(x.0) in entries && entries[Key(x.0)] == x.1
    requires forall key | key in entries :: exists x :: x in done && Key(x.0) == key
    ensures Records(entries, done)
  {
    hide Key, ProperPath;
  }

  lemma RecordOf(entries: map<string, Meta>, done: set<(Path, Meta)>, key: string) returns (x: (Path, Meta))
    requires Records(entries, done) && key in entries
    ensures x in done && ProperPath(x.0) && Key(x.0) == key && entries[key] == x.1
  {
    hide Key, ProperPath;
    x :| x in done && Key(x.0) == key;
  }

  lemma RecordFor(entries: map<string, Meta>, done: set<(Path, Meta)>, x: (Path, Meta))
    requires Records(entries, done) && x in done
    ensures ProperPath(x.0) && Key(x.0) in entries && entries[Key(x.0)] == x.1
  {
    hide Key, ProperPath;
  }

  lemma OneMeta(done: set<(Path, Meta)>, x: (Path, Meta), y: (Path, Meta))
    requires Single(done) && x in done && y in done && x.0 == y.0
    ensures x == y
  {
  }

  lemma RecordKept(entries: map<string, Meta>, done: set<(Path, Meta)>, path: Path, meta: Meta, x: (Path, Meta))
    requires Records(entries, done) && ProperPath(path) && Single(done + {(path, meta)}) && x in done + {(path, meta)}
    ensures var entries' := entries[Key(path) := meta]; ProperPath(x.0) && Key(x.0) in entries' && entries'[Key(x.0)] == x.1
  {
    hide Key, ProperPath, Single, Records;
    if x in done {
      RecordFor(entries, done, x);
      if Key(x.0) == Key(path) {
        KeyInjective(x.0, path);
        OneMeta(done + {(path, meta)}, x, (path, meta));
      }
    }
  }

  lemma ListingSingle(children: seq<Entry>)
    requires Proper(children)
    ensures Single(Listing([], children))
  {
    hide Listing, NodeAt, Proper;
    forall x, y | x in Listing([], children) && y in Listing([], children) && x.0 == y.0
      ensures x == y
    {
      assert [] + x.0 == x.0;
      ListingIsWalk([], children, x.0, x.1);
      ListingIsWalk([], children, y.0, y.1);
    }
  }

  lemma {:induction false} ListingTake(prefix: Path, children: seq<Entry>, i: nat)
    requires i < |children|
    ensures Listing(prefix, children[i..]) == Below(prefix, children[i]) + Listing(prefix, children[i + 1..])
    ensures Count(children[i..]) == 1 + Count(children[i + 1..]) + if children[i].node.Dir? then Count(children[i].node.read) else 0
  {
    hide Below;
    assert children[i..][1..] == children[i + 1..];
  }

  lemma PushAll(pending: seq<Work>, w: Work)
    ensures ListingAll(pending + [w]) == ListingAll(pending) + Listing(w.path, w.children)
    ensures CountAll(pending + [w]) == CountAll(pending) + Count(w.children)
  {
    hide Listing, Count;
    assert (pending + [w])[..|pending|] == pending;
  }

  /** One directory scan: entries are recorded and directories pushed until the limit is met. */
  method ScanDirectory(w: Work, before: map<string, Meta>, stack: seq<Work>, count: nat, limit: nat,
                       ghost known: set<(Path, Meta)>, ghost all: set<(Path, Meta)>)
    returns (entries: map<string, Meta>, pending: seq<Work>, scanned: nat, full: bool, ghost done: set<(Path, Meta)>)
    requires ProperWork(w) && count <= limit && Records(before, known) && Single(all)
    requires known + ListingAll(stack) + Listing(w.path, w.children) == all
    requires forall i | 0 <= i < |stack| :: ProperWork(stack[i])
    ensures Records(entries, done) && done <= all && scanned <= limit
    ensures full ==> limit < count + CountAll(stack) + Count(w.children)
    ensures full <==> limit - count < |w.children|
    ensures !full ==> scanned + CountAll(pending) == count + CountAll(stack) + Count(w.children)
    ensures !full ==> scanned == count + |w.children| && |pending| <= |stack| + |w.children|
    ensures !full ==> done + ListingAll(pending) == all
    ensures !full ==> forall i | 0 <= i < |pending| :: ProperWork(pending[i])
    ensures !full ==> forall i | 0 <= i < |pending| :: pending[i].relative == "" ==> i < |stack| && pending[i] == stack[i]
  {
    hide Listing, Below, Records, Single, Count, Key, EntryKey, ProperWork, ProperPath, MetaOf;
    entries, pending, scanned, full, done := before, stack, count, false, known;
    var children := w.children;
    assert children[0..] == children;
    for i := 0 to |children|
      invariant Records(entries, done) && !full
      invariant scanned == count + i <= limit && |stack| <= |pending| <= |stack| + i
      invariant done + ListingAll(pending) + Listing(w.path, children[i..]) == all
      invariant scanned + CountAll(pending) + Count(children[i..]) == count + CountAll(stack) + Count(children)
      invariant forall k | 0 <= k < |pending| :: ProperWork(pending[k])
      invariant forall k | 0 <= k < |pending| :: pending[k].relative == "" ==> k < |stack| && pending[k] == stack[k]
      invariant pending[..|stack|] == stack
    {
      ListingTake(w.path, children, i);
      if scanned >= limit {
        full := true;
        return;
      }
      scanned := scanned + 1;
      var entry := children[i];
      var key, path := EntryKey(w.relative, entry.name), w.path + [entry.name];
      BelowParts(w.path, entry);
      match entry.node
      case Link =>
      case Unstated(_) =>
      case Special =>
      case File(size, mtime) =>
        RecordBelow(entries, done, w, i, all);
        entries, done := entries[key := MetaOf(entry.node)], done + {(path, MetaOf(entry.node))};
      case Dir(inner, broken, _) =>
        RecordBelow(entries, done, w, i, all);
        entries, done := entries[key := MetaOf(entry.node)], done + {(path, MetaOf(entry.node))};
        var next := Work(path, key, inner, broken);
        WorkBelow(w, i, next);
        PushAll(pending, next);
        pending := pending + [next];
    }
    NoneLeft(w.path);
    assert children[|children|..] == [];
  }

  lemma NoneLeft(prefix: Path)
    ensures Listing(prefix, []) == {} && Count([]) == 0
  {
  }

  lemma BelowParts(prefix: Path, e: Entry)
    ensures !Visible(e.node) ==> Below(prefix, e) == {}
    ensures e.node.File? ==> Below(prefix, e) == {(prefix + [e.name], MetaOf(e.node))}
    ensures e.node.Dir? ==> Below(prefix, e) == {(prefix + [e.name], MetaOf(e.node))} + Listing(prefix + [e.name], e.node.read)
  {
    hide Listing;
  }

  lemma RecordBelow(entries: map<string, Meta>, done: set<(Path, Meta)>, w: Work, i: nat, all: set<(Path, Meta)>)
    requires Records(entries, done) && ProperWork(w) && i < |w.children| && Single(all) && done <= all
    requires (w.path + [w.children[i].name], MetaOf(w.children[i].node)) in all
    ensures var e := w.children[i];
            Records(entries[EntryKey(w.relative, e.name) := MetaOf(e.node)], done + {(w.path + [e.name], MetaOf(e.node))})
  {
    hide Records, EntryKey, MetaOf, ProperWork, ProperPath, Single, Key;
    var e := w.children[i];
    PathBelow(w, i);
    SingleBelow(done + {(w.path + [e.name], MetaOf(e.node))}, all);
    RecordOneMore(entries, done, w.path + [e.name], MetaOf(e.node));
  }

  lemma SingleBelow(part: set<(Path, Meta)>, all: set<(Path, Meta)>)
    requires part <= all && Single(all)
    ensures Single(part)
  {
  }

  lemma PathBelow(w: Work, i: nat)
    requires ProperWork(w) && i < |w.children|
    ensures ProperPath(w.path + [w.children[i].name])
    ensures Key(w.path + [w.children[i].name]) == EntryKey(w.relative, w.children[i].name)
  {
    hide EntryKey, Key;
    assert Name(w.children[i].name);
    KeyBelow(w.path, w.children[i].name);
  }

  lemma KeyBelow(path: Path, name: string)
    ensures Key(path + [name]) == EntryKey(Key(path), name) != ""
  {
    assert (path + [name])[..|path|] == path;
  }

  lemma WorkBelow(w: Work, i: nat, next: Work)
    requires ProperWork(w) && i < |w.children| && w.children[i].node.Dir?
    requires next.path == w.path + [w.children[i].name] && next.relative == EntryKey(w.relative, w.children[i].name)
    requires next.children == w.children[i].node.read
    ensures ProperWork(next) && next.relative != ""
  {
    hide EntryKey;
    KeyBelow(w.path, w.children[i].name);
  }

  /** `_watch_snapshot` of a confined root, and `watch_snapshot` of the helper: what either returns on the root `children`,
      whose own scan fails after them if `broken`. */
  method WatchSnapshot(children: seq<Entry>, broken: bool, limit: nat) returns (r: Outcome)
    requires Proper(children)
    ensures r.Unavailable? <==> broken && |children| <= limit
    // Complete exactly when the entries read under non-link directories number at most the limit.
    ensures r.Snapshot? ==> (r.complete <==> Count(children) <= limit)
    // Then there is one key for each file and directory that could be read, with its data, and no other.
    ensures r.Snapshot? && r.complete ==> Records(r.entries, Listing([], children))
    // That is the whole tree exactly when no entry it reached has a file or directory behind an error.
    ensures r.Snapshot? && r.complete ==> (Records(r.entries, Whole([], children)) <==> !Hides(children))
    // Cut short, it still holds only what is there.
    ensures r.Snapshot? ==> exists done :: done <= Listing([], children) && Records(r.entries, done)
  {
    hide Listing, Records, Single, Count, Proper, ProperWork, Whole, Hides;
    var root := Work([], "", children, broken);
    ghost var all, done := Listing([], children), {};
    ListingSingle(children);
    RootWork(root);
    var entries: map<string, Meta>, pending, scanned := map[], [root], 0;
    RecordsMeans(entries, done);
    PushAll([], root);
    assert [root] == [] + [root];
    while pending != []
      invariant Records(entries, done) && done <= all && done + ListingAll(pending) == all
      invariant scanned <= limit && scanned + CountAll(pending) == Count(children)
      invariant forall i | 0 <= i < |pending| :: ProperWork(pending[i])
      invariant (pending == [root] && scanned == 0)
             || (!(broken && |children| <= limit) && forall i | 0 <= i < |pending| :: pending[i].relative != "")
      decreases CountAll(pending) + |pending|
    {
      var w, stack := pending[|pending| - 1], pending[..|pending| - 1];
      var before := scanned;
      var full: bool;
      assert pending == stack + [w];
      entries, pending, scanned, full, done := ScanDirectory(w, entries, stack, scanned, limit, done, all);
      if full {
        return Snapshot(entries, false);
      }
      if w.broken && w.relative == "" {
        return Unavailable;
      }
    }
    assert done == all;
    WholeIffNothingHidden(children, entries);
    return Snapshot(entries, true);
  }

  lemma RootWork(root: Work)
    requires root.path == [] && root.relative == "" && Proper(root.children)
    ensures ProperWork(root)
  {
  }
}
