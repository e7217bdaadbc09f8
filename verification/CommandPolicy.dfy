/** The policy for runtime commands: which argument lists are accepted, in which normal form. */
module CommandPolicy {
  import opened Text
  import opened Decimal

  datatype Command = NoCommand | Line(text: string) | Argv(items: seq<string>) | Unsupported

  const NO_LOCK := "--no-lock"
  const BACKUP := "/root/backup.sh"

  predicate Meta(c: char) {
    c in {';', '|', '&', '`', '$', '>', '<', '\\', '"', '\'', '\n', '\r', '\0', '(', ')', '{', '}', '[', ']', '*', '?', '!'}
  }

  predicate Clean(item: string) {
    forall c | c in item :: !Meta(c)
  }

  predicate Hex(c: char) {
    '0' <= c <= '9' || 'a' <= c <= 'f' || 'A' <= c <= 'F'
  }

  predicate SnapshotId(s: string) {
    8 <= |s| <= 64 && forall i | 0 <= i < |s| :: Hex(s[i])
  }

  // Paths

  function Parts(parts: seq<string>): seq<string> {
    if parts == [] then []
    else (if parts[0] == "" || parts[0] == "." then [] else [parts[0]]) + Parts(parts[1..])
  }

  /** `posixpath.normpath` of an absolute path without `..` parts. */
  function Normal(path: string): string {
    "/" + Join(Parts(Split(path, '/')), '/')
  }

  predicate PathText(value: string) {
    && |value| <= 4096 && (forall c | c in value :: c != '\\' && c >= ' ')
    && value != "" && value[0] == '/' && (|value| > 1 ==> value[1] != '/') && ".." !in Split(value, '/')
  }

  /** `normalize_snapshot_path`, None where it raises. */
  function NormalizePath(value: string): Option<string> {
    if value == "" then Some("/") else if PathText(value) then Some(Normal(value)) else None
  }

  predicate NormalParts(parts: seq<string>) {
    forall p | p in parts :: p != "" && p != "." && p != ".." && '/' !in p
  }

  lemma {:induction false} PartsAreNormal(parts: seq<string>)
    requires forall p | p in parts :: p != ".." && '/' !in p
    ensures NormalParts(Parts(parts)) && forall p | p in Parts(parts) :: p in parts
    ensures NormalParts(parts) ==> Parts(parts) == parts
  {
    if parts != [] {
      assert parts[0] in parts && forall p | p in parts[1..] :: p in parts;
      PartsAreNormal(parts[1..]);
      assert parts == [parts[0]] + parts[1..];
    }
  }

  lemma {:induction false} JoinParts(parts: seq<string>, c: char)
    ensures c in Join(parts, '/') ==> c == '/' || exists p | p in parts :: c in p
    ensures parts != [] && NormalParts(parts) ==> Join(parts, '/') != "" && Join(parts, '/')[0] != '/'
  {
    if |parts| > 1 {
      JoinParts(parts[1..], c);
      assert parts[0] in parts && forall p | p in parts[1..] :: p in parts;
    } else if |parts| == 1 {
      assert parts[0] in parts;
      assert parts[0] != "" ==> parts[0][0] in parts[0];
    }
    if parts != [] && NormalParts(parts) {
      assert parts[0] in parts;
      assert parts[0][0] in parts[0];
    }
  }

  lemma {:induction false} PartsShorter(parts: seq<string>)
    ensures |Join(Parts(parts), '/')| <= |Join(parts, '/')|
    ensures |parts| > 0 && parts[0] == "" ==> |Join(parts, '/')| > 0 || Parts(parts) == []
    ensures |parts| > 1 && parts[0] == "" ==> 1 + |Join(Parts(parts), '/')| <= |Join(parts, '/')|
  {
    if parts != [] {
      PartsShorter(parts[1..]);
      var kept, rest := Parts(parts), Parts(parts[1..]);
      if parts[0] == "" || parts[0] == "." {
        assert kept == rest;
      } else {
        assert kept == [parts[0]] + rest && kept[1..] == rest;
      }
    }
  }

  /** A normal path is an accepted path and its own normal form, and adds no character of its own but slashes. */
  lemma NormalIsFixed(value: string)
    requires PathText(value)
    ensures PathText(Normal(value)) && Normal(Normal(value)) == Normal(value)
    ensures forall c | c in Normal(value) :: c == '/' || c in value
  {
    hide Join, Parts;
    var parts := Split(value, '/');
    assert forall p | p in parts :: p != ".." && '/' !in p;
    PartsAreNormal(parts);
    var kept := Parts(parts);
    var n := Normal(value);
    forall c | c in n
      ensures c == '/' || c in value
    {
      JoinParts(kept, c);
    }
    JoinSplit(value, '/');
    PartsShorter(parts);
    NormalSplit(kept);
    SplitStart(value);
    JoinParts(kept, '/');
    PartsAreNormal(kept);
    PartsSkipEmpty(kept);
    assert forall p | p in Split(n, '/') :: p == "" || p in kept;
  }

  lemma SplitStart(value: string)
    requires value != "" && value[0] == '/'
    ensures |Split(value, '/')| > 1 && Split(value, '/')[0] == ""
  {
  }

  lemma PartsSkipEmpty(kept: seq<string>)
    ensures Parts([""] + kept) == Parts(kept) && Parts([""] + [""]) == []
  {
    assert ([""] + kept)[1..] == kept;
    assert ([""] + [""])[1..] == [""] && [""][1..] == [];
  }

  /** Splitting a rendered path gives an empty part and then the parts. */
  lemma NormalSplit(kept: seq<string>)
    requires NormalParts(kept)
    ensures Split("/" + Join(kept, '/'), '/') == [""] + if kept == [] then [""] else kept
  {
    var path := "/" + Join(kept, '/');
    assert path[1..] == Join(kept, '/');
    if kept == [] {
      assert Join(kept, '/') == "";
    } else {
      SplitJoin(kept, '/');
    }
  }

  // Snapshot tree targets

  /** Length of the text before the first colon. */
  function BeforeColon(s: string): (k: nat)
    ensures k <= |s| && ':' !in s[..k] && (k < |s| ==> s[k] == ':')
  {
    if s == "" || s[0] == ':' then 0
    else
      var k := 1 + BeforeColon(s[1..]);
      assert s[..k] == [s[0]] + s[1..][..k - 1];
      k
  }

  /** `snapshot_tree_arguments`: an id alone means the root; a path must not be the root. */
  function TreeArguments(value: string): Option<(string, string)> {
    var k := BeforeColon(value);
    if !SnapshotId(value[..k]) then None
    else if k == |value| then Some((value, "/"))
    else match NormalizePath(value[k + 1..])
      case Some(path) => if path == "/" then None else Some((value[..k], path))
      case None => None
  }

  function TreeText(id: string, path: string): string {
    if path == "/" then id else id + ":" + path
  }

  lemma ColonAfterId(id: string, rest: string)
    requires SnapshotId(id)
    ensures BeforeColon(id) == |id| && BeforeColon(id + ":" + rest) == |id|
  {
    var s := id + ":" + rest;
    assert forall i | 0 <= i < |id| :: id[i] != ':';
    assert s[..|id|] == id == id[..|id|];
    FirstColon(id, |id|);
    FirstColon(s, |id|);
  }

  lemma {:induction false} FirstColon(s: string, k: nat)
    requires k <= |s| && ':' !in s[..k] && (k < |s| ==> s[k] == ':')
    ensures BeforeColon(s) == k
  {
    if k > 0 {
      assert s[..k] == [s[0]] + s[1..][..k - 1];
      FirstColon(s[1..], k - 1);
    }
  }

  /** The rewritten target names the same snapshot and path. */
  lemma TreeTextIsFixed(value: string)
    requires TreeArguments(value).Some?
    ensures var (id, path) := TreeArguments(value).value;
            && SnapshotId(id) && NormalizePath(path) == Some(path) && TreeArguments(TreeText(id, path)) == Some((id, path))
            && forall c | c in TreeText(id, path) :: c == '/' || c in value
  {
    hide Normal, PathText;
    var (id, path) := TreeArguments(value).value;
    var k := BeforeColon(value);
    ColonAfterId(id, path);
    assert forall c | c in id :: c in value;
    RootIsFixed();
    if k < |value| {
      var raw := value[k + 1..];
      assert raw != "" && PathText(raw);
      NormalIsFixed(raw);
      NormalIsSlashed(raw);
      var text := id + ":" + path;
      assert text[..|id|] == id && text[|id| + 1..] == path;
      assert forall c | c in raw :: c in value;
      assert value[k] in value;
    }
  }

  lemma NormalIsSlashed(value: string)
    ensures Normal(value) != "" && Normal(value)[0] == '/'
  {
  }

  lemma RootIsFixed()
    ensures NormalizePath("/") == Some("/")
  {
    hide Normal;
    NormalOfRoot();
    SplitRoot();
  }

  lemma SplitRoot()
    ensures Split("/", '/') == ["", ""]
  {
    assert "/"[1..] == "";
  }

  lemma NormalOfRoot()
    ensures Normal("/") == "/"
  {
    SplitRoot();
    assert ["", ""][1..] == [""] && [""][1..] == [];
  }

  // Accepted argument lists

  predicate ReadOnly(argv: seq<string>) {
    |argv| > 1 && argv[0] == "restic" && argv[1] in {"snapshots", "ls", "cat", "dump", "find", "stats"}
  }

  function WithoutNoLock(argv: seq<string>): seq<string> {
    if argv == [] then [] else (if argv[0] == NO_LOCK then [] else [argv[0]]) + WithoutNoLock(argv[1..])
  }

  predicate Alphanumeric(c: char) {
    'A' <= c <= 'Z' || 'a' <= c <= 'z' || '0' <= c <= '9'
  }

  /** `[A-Za-z0-9][A-Za-z0-9._-]*:` */
  predicate Remote(s: string) {
    && |s| >= 2 && s[|s| - 1] == ':' && Alphanumeric(s[0])
    && forall i | 0 <= i < |s| - 1 :: Alphanumeric(s[i]) || s[i] in {'.', '_', '-'}
  }

  predicate Keep(option: string) {
    option in {"--keep-last", "--keep-hourly", "--keep-daily", "--keep-weekly", "--keep-monthly", "--keep-yearly"}
  }

  /** What is left of a `forget` command from `index` on: prune flags and counted keep options. */
  predicate Retention(argv: seq<string>, index: nat)
    decreases |argv| - index
  {
    if index >= |argv| then true
    else if argv[index] == "--prune" then Retention(argv, index + 1)
    else Keep(argv[index]) && index + 1 < |argv| && IsDigitText(argv[index + 1]) && Retention(argv, index + 2)
  }

  /** An id and perhaps a path, at the end of an argument list. */
  function WithPath(argv: seq<string>, id: nat, path: nat): Option<seq<string>>
    requires id < path == |argv| - 1
  {
    if !SnapshotId(argv[id]) then None
    else match NormalizePath(argv[path])
      case Some(p) => Some(argv[path := p])
      case None => None
  }

  function Stats(argv: seq<string>): Option<seq<string>>
    requires |argv| > 1
  {
    if argv == ["restic", "stats", "--mode", "raw-data", "--json"] || argv == ["restic", "stats", "--mode", "blobs-per-file", "--json"]
    then Some(argv)
    else if |argv| == 6 && argv[2..5] == ["--mode", "restore-size", "--json"] && SnapshotId(argv[5]) then Some(argv)
    else None
  }

  function Cat(argv: seq<string>): Option<seq<string>>
    requires |argv| > 1
  {
    if |argv| == 4 && argv[2] == "tree" then
      match TreeArguments(argv[3])
      case Some((id, path)) => Some(argv[3 := TreeText(id, path)])
      case None => None
    else None
  }

  /** `ls` and `find` */
  function List(argv: seq<string>): Option<seq<string>>
    requires |argv| > 1
  {
    if |argv| == 4 && argv[2] == "--json" && SnapshotId(argv[3]) then Some(argv)
    else if |argv| == 5 && argv[2] == "--json" then WithPath(argv, 3, 4)
    else None
  }

  function Dump(argv: seq<string>): Option<seq<string>>
    requires |argv| > 1
  {
    if |argv| == 4 then WithPath(argv, 2, 3)
    else if |argv| == 6 && argv[2] in {"-a", "--archive"} && argv[3] == "zip" then WithPath(argv, 4, 5)
    else None
  }

  function Restic(argv: seq<string>): Option<seq<string>>
    requires |argv| > 0
  {
    if |argv| == 1 then None
    else if argv[1] == "snapshots" then (if argv == ["restic", "snapshots", "--json"] then Some(argv) else None)
    else if argv[1] == "stats" then Stats(argv)
    else if argv[1] == "cat" then Cat(argv)
    else if argv[1] == "ls" || argv[1] == "find" then List(argv)
    else if argv[1] == "dump" then Dump(argv)
    else if argv[1] == "forget" then (if |argv| >= 3 && Retention(argv, 2) then Some(argv) else None)
    else if argv[1] == "prune" && |argv| == 2 then Some(argv)
    else None
  }

  function Accept(argv: seq<string>): Option<seq<string>> {
    if argv == [BACKUP] then Some(argv)
    else if argv == [] then None
    else if argv[0] == "rclone" then
      if |argv| == 4 && argv[1] == "about" && argv[3] == "--json" && Remote(argv[2]) then Some(argv) else None
    else if argv[0] == "restic" then Restic(argv)
    else None
  }

  /** The argument list a command stands for. */
  function Items(command: Command): Option<seq<string>> {
    match command
    case NoCommand => Some([BACKUP])
    case Argv(items) => if items != [] then Some(items) else None
    case Line(text) => if text == "" then Some([BACKUP]) else if Clean(text) then Some(Words(text)) else None
    case Unsupported => None
  }

  /** `validate`: the argument list in normal form, None where it raises. */
  function Validate(command: Command): Option<seq<string>> {
    var items := Items(command);
    if items.None? || (exists item | item in items.value :: item == "" || !Clean(item)) then None
    else if NO_LOCK in items.value then
      var argv := WithoutNoLock(items.value);
      if ReadOnly(argv) then Accept(argv) else None
    else Accept(items.value)
  }

  /** `apply_lock_policy` */
  function ApplyLock(argv: seq<string>, noLock: bool): seq<string> {
    if !noLock || !ReadOnly(argv) || NO_LOCK in argv then argv else argv + [NO_LOCK]
  }

  // Stability

  /** What an accepted list is made of: clean items, none of them the lock flag. */
  ghost predicate Settled(argv: seq<string>) {
    && (forall item | item in argv :: item != "" && Clean(item) && item != NO_LOCK) && Accept(argv) == Some(argv)
  }

  ghost predicate Proper(argv: seq<string>) {
    forall item | item in argv :: item != "" && Clean(item) && item != NO_LOCK
  }

  lemma PathIsProper(value: string)
    requires Clean(value) && NormalizePath(value).Some?
    ensures var p := NormalizePath(value).value;
            p != "" && Clean(p) && p != NO_LOCK && p[0] == '/' && NormalizePath(p) == Some(p)
  {
    hide Normal, PathText;
    RootIsFixed();
    if value != "" {
      NormalIsFixed(value);
      NormalIsSlashed(value);
    }
  }

  lemma TreeIsProper(value: string)
    requires Clean(value) && TreeArguments(value).Some?
    ensures var (id, path) := TreeArguments(value).value;
            TreeText(id, path) != "" && Clean(TreeText(id, path)) && TreeText(id, path) != NO_LOCK
            && TreeArguments(TreeText(id, path)) == Some((id, path))
  {
    hide TreeArguments;
    TreeTextIsFixed(value);
    var (id, path) := TreeArguments(value).value;
    assert TreeText(id, path)[0] == id[0];
  }

  lemma ReplacedIsProper(argv: seq<string>, i: nat, item: string)
    requires Proper(argv) && i < |argv| && item != "" && Clean(item) && item != NO_LOCK
    ensures Proper(argv[i := item])
  {
    hide Clean;
    var r := argv[i := item];
    forall k | 0 <= k < |r|
      ensures r[k] != "" && Clean(r[k]) && r[k] != NO_LOCK
    {
      if k != i {
        assert r[k] == argv[k] && argv[k] in argv;
      }
    }
  }

  lemma WithPathSettles(argv: seq<string>, id: nat, path: nat)
    requires Proper(argv) && id < path == |argv| - 1 && WithPath(argv, id, path).Some?
    ensures var r := WithPath(argv, id, path).value;
            Proper(r) && |r| == |argv| && r[..path] == argv[..path] && WithPath(r, id, path) == Some(r)
            && SnapshotId(r[id]) && NormalizePath(r[path]) == Some(r[path])
  {
    hide NormalizePath, Clean, SnapshotId;
    assert argv[path] in argv;
    PathIsProper(argv[path]);
    ReplacedIsProper(argv, path, NormalizePath(argv[path]).value);
    var r := argv[path := NormalizePath(argv[path]).value];
    assert r[path := r[path]] == r;
  }

  lemma CatSettles(argv: seq<string>)
    requires Proper(argv) && |argv| > 1 && Cat(argv).Some?
    ensures var r := Cat(argv).value; Proper(r) && |r| == |argv| && r[..2] == argv[..2] && Cat(r) == Some(r)
  {
    hide TreeArguments, TreeText, Clean;
    assert argv[3] in argv;
    TreeIsProper(argv[3]);
    var (id, path) := TreeArguments(argv[3]).value;
    ReplacedIsProper(argv, 3, TreeText(id, path));
    var r := argv[3 := TreeText(id, path)];
    assert r[3 := r[3]] == r;
  }

  lemma ListSettles(argv: seq<string>)
    requires Proper(argv) && |argv| > 1 && List(argv).Some?
    ensures |argv| >= 4
    ensures var r := List(argv).value; Proper(r) && |r| == |argv| && r[..3] == argv[..3] && List(r) == Some(r)
  {
    hide WithPath, SnapshotId;
    if |argv| == 5 {
      WithPathSettles(argv, 3, 4);
      var r := List(argv).value;
      assert r[..4][2] == r[2] && argv[..4][2] == argv[2];
      assert r[..3] == r[..4][..3] && argv[..3] == argv[..4][..3];
    }
  }

  lemma DumpSettles(argv: seq<string>)
    requires Proper(argv) && |argv| > 1 && Dump(argv).Some?
    ensures var r := Dump(argv).value; Proper(r) && |r| == |argv| && r[..2] == argv[..2] && Dump(r) == Some(r)
  {
    hide WithPath, SnapshotId;
    var r := Dump(argv).value;
    if |argv| == 4 {
      WithPathSettles(argv, 2, 3);
      assert r[..2] == r[..3][..2] && argv[..2] == argv[..3][..2];
    } else {
      WithPathSettles(argv, 4, 5);
      assert r[..2] == r[..5][..2] && argv[..2] == argv[..5][..2];
      assert r[2] == r[..5][2] && r[3] == r[..5][3] && argv[2] == argv[..5][2] && argv[3] == argv[..5][3];
    }
  }

  lemma AcceptSettles(argv: seq<string>)
    requires Proper(argv) && Accept(argv).Some?
    ensures Proper(Accept(argv).value) && Accept(Accept(argv).value) == Accept(argv)
  {
    hide Cat, List, Dump, Stats, Retention, Remote, Clean;
    if argv != [BACKUP] && argv[0] == "restic" {
      var r := Accept(argv).value;
      if argv[1] == "cat" {
        CatSettles(argv);
        SameHead(argv, r, 2);
      } else if argv[1] == "ls" || argv[1] == "find" {
        ListSettles(argv);
        SameHead(argv, r, 3);
      } else if argv[1] == "dump" {
        DumpSettles(argv);
        SameHead(argv, r, 2);
      } else if argv[1] == "stats" {
        StatsSettles(argv);
      }
    }
  }

  lemma SameHead(a: seq<string>, b: seq<string>, n: nat)
    requires 2 <= n <= |a| && n <= |b| && a[..n] == b[..n]
    ensures a[0] == b[0] && a[1] == b[1]
  {
    assert a[..n][0] == b[..n][0] && a[..n][1] == b[..n][1];
  }

  lemma StatsSettles(argv: seq<string>)
    requires |argv| > 1
    ensures Stats(argv).Some? ==> Stats(argv).value == argv
  {
  }

  lemma {:induction false} WithoutHas(argv: seq<string>)
    ensures forall item :: item in WithoutNoLock(argv) <==> item in argv && item != NO_LOCK
    ensures NO_LOCK !in argv ==> WithoutNoLock(argv) == argv
  {
    if argv != [] {
      WithoutHas(argv[1..]);
      assert argv == [argv[0]] + argv[1..];
    }
  }

  lemma WithoutAppended(argv: seq<string>)
    requires NO_LOCK !in argv
    ensures WithoutNoLock(argv + [NO_LOCK]) == argv
  {
    WithoutHas(argv);
    AppendedFlag(argv);
  }

  lemma {:induction false} AppendedFlag(argv: seq<string>)
    ensures WithoutNoLock(argv + [NO_LOCK]) == WithoutNoLock(argv)
  {
    if argv == [] {
      assert [NO_LOCK][1..] == [] && [] + [NO_LOCK] == [NO_LOCK];
    } else {
      assert (argv + [NO_LOCK])[1..] == argv[1..] + [NO_LOCK];
      AppendedFlag(argv[1..]);
    }
  }

  lemma ValidateIsSettled(command: Command)
    requires Validate(command).Some?
    ensures Settled(Validate(command).value) && Validate(command).value != []
  {
    hide Accept, Clean, Words;
    var items := Items(command).value;
    assert forall item | item in items :: item != "" && Clean(item);
    WithoutHas(items);
    var argv := if NO_LOCK in items then WithoutNoLock(items) else items;
    AcceptSettles(argv);
    AcceptsSomething(argv);
  }

  lemma AcceptsSomething(argv: seq<string>)
    ensures Accept(argv).Some? ==> Accept(argv).value != []
  {
    hide TreeArguments, NormalizePath;
  }

  /** Validating an accepted command again changes nothing. */
  lemma ValidateIdempotent(command: Command)
    requires Validate(command).Some?
    ensures Validate(Argv(Validate(command).value)) == Validate(command)
  {
    hide Accept, Clean, Words;
    ValidateIsSettled(command);
  }

  /** The lock flag does not survive validation: with or without it the same list is accepted. */
  lemma RevalidateAfterLock(command: Command, noLock: bool)
    requires Validate(command).Some?
    ensures Validate(Argv(ApplyLock(Validate(command).value, noLock))) == Validate(command)
  {
    hide Accept, Clean, Words;
    ValidateIsSettled(command);
    ValidateIdempotent(command);
    var argv := Validate(command).value;
    if ApplyLock(argv, noLock) != argv {
      var locked := argv + [NO_LOCK];
      assert locked[|argv|] == NO_LOCK;
      WithoutAppended(argv);
      FlagIsClean();
      assert forall item | item in locked :: item != "" && Clean(item);
    }
  }

  lemma FlagIsClean()
    ensures Clean(NO_LOCK) && NO_LOCK != ""
  {
  }

  // Snapshot scope

  datatype Scope = Raises | Scope(id: Option<string>, path: Option<string>)

  const NOTHING := Scope(None, None)

  /** `snapshot_arguments` */
  function SnapshotArguments(argv: seq<string>): Scope {
    var a := WithoutNoLock(argv);
    if |a| < 2 || a[0] != "restic" then NOTHING
    else
      var op: nat := if |a| >= 4 && a[1] == "--cache-dir" then 3 else 1;
      var n := |a| - op;
      if n <= 0 then NOTHING
      else if a[op] == "ls" || a[op] == "find" then
        if n == 3 then Scope(Some(a[op + 2]), Some("/"))
        else if n == 4 then Scope(Some(a[op + 2]), Some(a[op + 3]))
        else NOTHING
      else if a[op] == "cat" && n == 3 && a[op + 1] == "tree" then
        match TreeArguments(a[op + 2])
        case Some((id, path)) => Scope(Some(id), Some(path))
        case None => Raises
      else if a[op] == "dump" && n == 3 then Scope(Some(a[op + 1]), Some(a[op + 2]))
      else if a[op] == "dump" && n == 5 then Scope(Some(a[op + 3]), Some(a[op + 4]))
      else if a[op] == "stats" && n == 5 && a[op + 1..op + 4] == ["--mode", "restore-size", "--json"] then Scope(Some(a[op + 4]), Some("/"))
      else NOTHING
  }

  /** The operations that read one snapshot. */
  predicate ReadsSnapshot(argv: seq<string>) {
    |argv| > 1 && argv[0] == "restic"
    && (argv[1] in {"ls", "find", "cat", "dump"} || (argv[1] == "stats" && |argv| == 6))
  }

  /** An accepted snapshot command names a valid id and an absolute path in normal form; no other command names any. */
  lemma AcceptedScope(argv: seq<string>)
    requires Settled(argv)
    ensures var s := SnapshotArguments(argv);
            if ReadsSnapshot(argv) then s.Scope? && s.id.Some? && s.path.Some? && SnapshotId(s.id.value)
              && s.path.value != "" && s.path.value[0] == '/' && NormalizePath(s.path.value) == Some(s.path.value)
            else s == NOTHING
  {
    hide NormalizePath, TreeArguments, Clean, SnapshotId, Retention, Remote;
    WithoutHas(argv);
    RootIsFixed();
    if ReadsSnapshot(argv) {
      if argv[1] == "cat" {
        TreeScope(argv[3]);
      } else if argv[1] == "dump" {
        PathScope(argv[|argv| - 1], argv);
      } else if |argv| == 5 {
        PathScope(argv[4], argv);
      }
    }
  }

  lemma TreeScope(value: string)
    ensures TreeArguments(value).Some? ==>
      var (id, path) := TreeArguments(value).value;
      SnapshotId(id) && path != "" && path[0] == '/' && NormalizePath(path) == Some(path)
  {
    hide Normal, PathText, NormalizePath;
    if TreeArguments(value).Some? {
      TreeTextIsFixed(value);
      NormalStart(TreeArguments(value).value.1);
    }
  }

  lemma NormalStart(path: string)
    ensures NormalizePath(path) == Some(path) ==> path != "" && path[0] == '/'
  {
    NormalIsSlashed(path);
  }

  lemma PathScope(path: string, argv: seq<string>)
    requires path in argv && Settled(argv)
    ensures NormalizePath(path) == Some(path) ==> path != "" && path[0] == '/'
  {
    hide Accept, Clean, NormalizePath;
    NormalStart(path);
  }

  /** Both hold with and without the lock flag. */
  lemma SnapshotScopeIsValid(command: Command, noLock: bool)
    requires Validate(command).Some?
    ensures var argv := Validate(command).value; var s := SnapshotArguments(ApplyLock(argv, noLock));
            && s == SnapshotArguments(argv)
            && if ReadsSnapshot(argv) then s.Scope? && s.id.Some? && s.path.Some? && SnapshotId(s.id.value)
                 && s.path.value != "" && s.path.value[0] == '/' && NormalizePath(s.path.value) == Some(s.path.value)
               else s == NOTHING
  {
    hide Accept, Clean, Validate, NormalizePath, SnapshotId;
    ValidateIsSettled(command);
    var argv := Validate(command).value;
    AcceptedScope(argv);
    assert NO_LOCK !in argv;
    WithoutHas(argv);
    if ApplyLock(argv, noLock) != argv {
      WithoutAppended(argv);
    }
  }

  // The loop

  /** The retention loop: an index over flags and counted options. */
  method CheckRetention(argv: seq<string>) returns (ok: bool)
    requires |argv| >= 2
    ensures ok <==> Retention(argv, 2)
  {
    var index := 2;
    while index < |argv|
      invariant 2 <= index && (Retention(argv, 2) <==> Retention(argv, index))
    {
      if argv[index] == "--prune" {
        index := index + 1;
      } else if Keep(argv[index]) && index + 1 < |argv| && IsDigitText(argv[index + 1]) {
        index := index + 2;
      } else {
        return false;
      }
    }
    return true;
  }

  /** `validate`, rewriting the argument list as it goes. */
  method ValidateCommand(command: Command) returns (r: Option<seq<string>>)
    ensures r == Validate(command)
    ensures r.Some? ==> Settled(r.value)
  {
    hide Accept, Clean, Words, Restic, Settled;
    if Validate(command).Some? {
      ValidateIsSettled(command);
    }
    var argv: seq<string>;
    match command {
      case NoCommand => argv := [BACKUP];
      case Argv(items) =>
        if items == [] {
          return None;
        }
        argv := items;
      case Line(text) =>
        if text != "" && !Clean(text) {
          return None;
        }
        argv := if text == "" then [BACKUP] else Words(text);
      case Unsupported => return None;
    }
    if exists item | item in argv :: item == "" || !Clean(item) {
      return None;
    }
    var explicitNoLock := NO_LOCK in argv;
    if explicitNoLock {
      argv := WithoutNoLock(argv);
      if !ReadOnly(argv) {
        return None;
      }
    }
    r := AcceptArgv(argv);
  }

  method AcceptArgv(items: seq<string>) returns (r: Option<seq<string>>)
    ensures r == Accept(items)
  {
    hide TreeArguments, TreeText, NormalizePath, SnapshotId, Remote, Retention;
    var argv := items;
    if argv == [BACKUP] {
      return Some(argv);
    }
    if argv == [] {
      return None;
    }
    if argv[0] == "rclone" {
      if |argv| != 4 || argv[1] != "about" || argv[3] != "--json" || !Remote(argv[2]) {
        return None;
      }
      return Some(argv);
    }
    if argv[0] != "restic" || |argv| == 1 {
      return None;
    }
    var operation := argv[1];
    if operation == "snapshots" && argv == ["restic", "snapshots", "--json"] {
      return Some(argv);
    }
    if operation == "stats" {
      return Stats(argv);
    }
    if operation == "cat" && |argv| == 4 && argv[2] == "tree" {
      var target := TreeArguments(argv[3]);
      if target.None? {
        return None;
      }
      argv := argv[3 := TreeText(target.value.0, target.value.1)];
      return Some(argv);
    }
    if operation == "ls" || operation == "find" {
      if !(4 <= |argv| <= 5 && argv[2] == "--json" && SnapshotId(argv[3])) {
        return None;
      }
      if |argv| == 5 {
        var path := NormalizePath(argv[4]);
        if path.None? {
          return None;
        }
        argv := argv[4 := path.value];
      }
      return Some(argv);
    }
    if operation == "dump" && (|argv| == 4 || (|argv| == 6 && argv[2] in {"-a", "--archive"} && argv[3] == "zip")) {
      var last := |argv| - 1;
      var path := NormalizePath(argv[last]);
      if !SnapshotId(argv[last - 1]) || path.None? {
        return None;
      }
      argv := argv[last := path.value];
      return Some(argv);
    }
    if operation == "forget" && |argv| >= 3 {
      var ok := CheckRetention(argv);
      return if ok then Some(argv) else None;
    }
    if operation == "prune" && |argv| == 2 {
      return Some(argv);
    }
    return None;
  }
}
