/** The forms a runtime command may have, written out, and the proof that `validate` accepts exactly these. */
module CommandForms {
  import opened Text
  import opened Decimal
  import opened CommandPolicy

  datatype Rule = Unneeded | KeepSome(option: string, count: string)

  /** A command as it is given; paths are as they were written. */
  datatype Form =
    | Backup
    | About(remote: string)
    | Snapshots
    | Usage(mode: string)
    | RestoreSize(id: string)
    | Tree(id: string, place: Option<string>)
    | Listing(operation: string, id: string, place: Option<string>)
    | DumpFile(id: string, path: string)
    | DumpFolder(flag: string, id: string, path: string)
    | Forget(rules: seq<Rule>)
    | Prune

  // Places in a snapshot

  /** The parts of a path that name something, in order. */
  function Names(parts: seq<string>): seq<string> {
    if parts == [] then []
    else
      var last := parts[|parts| - 1];
      Names(parts[..|parts| - 1]) + if last == "" || last == "." then [] else [last]
  }

  function PlaceOf(path: string): seq<string> {
    Names(Split(path, '/'))
  }

  /** A path from the root without steps upwards, of at most 4096 printable characters; no path is the root. */
  predicate PlaceAllowed(path: string) {
    path == "" ||
    (&& |path| <= 4096 && path[0] == '/' && (|path| > 1 ==> path[1] != '/') && ".." !in Split(path, '/')
     && forall c | c in path :: c != '\\' && ' ' <= c)
  }

  function Rendered(path: string): string {
    "/" + Join(PlaceOf(path), '/')
  }

  lemma {:induction false} NamesJoin(a: seq<string>, b: seq<string>)
    ensures Names(a + b) == Names(a) + Names(b)
  {
    if b == [] {
      assert a + b == a;
    } else {
      assert (a + b)[..|a + b| - 1] == a + b[..|b| - 1];
      NamesJoin(a, b[..|b| - 1]);
    }
  }

  lemma {:induction false} PartsAreNames(parts: seq<string>)
    ensures Parts(parts) == Names(parts)
  {
    if parts != [] {
      PartsAreNames(parts[1..]);
      assert parts == [parts[0]] + parts[1..];
      NamesJoin([parts[0]], parts[1..]);
      assert [parts[0]][..0] == [];
    }
  }

  /** A normal path names the same place as the path it was made from: the same parts in the same order. */
  lemma NormalNamesSamePlace(value: string)
    requires PathText(value)
    ensures PlaceOf(Normal(value)) == PlaceOf(value)
    ensures Normal(value) == Rendered(value)
  {
    hide PathText, Names, Parts;
    NormalIsFixed(value);
    NamesWithoutUps(value);
    var kept := Parts(Split(value, '/'));
    PartsAreNames(Split(value, '/'));
    NormalSplit(kept);
    PartsSkipEmpty(kept);
    PartsSkipEmpty([]);
    PartsAreNormal(kept);
    PartsAreNames(Split(Normal(value), '/'));
  }

  lemma NamesWithoutUps(value: string)
    requires PathText(value)
    ensures var kept := Parts(Split(value, '/')); NormalParts(kept) && forall p | p in kept :: p != ".." && '/' !in p
  {
    hide Names, Parts;
    var parts := Split(value, '/');
    assert forall p | p in parts :: p != ".." && '/' !in p;
    PartsAreNormal(parts);
  }

  lemma PlaceRead(path: string)
    ensures NormalizePath(path) == if PlaceAllowed(path) then Some(Rendered(path)) else None
  {
    hide Names, Normal;
    if path == "" {
      RootRendered();
    } else {
      assert PathText(path) <==> PlaceAllowed(path) by { SameTexts(path); }
      if PathText(path) {
        NormalNamesSamePlace(path);
      }
    }
  }

  lemma RootRendered()
    ensures PlaceOf("") == [] && Rendered("") == "/"
  {
    assert Split("", '/') == [""] && [""][..0] == [];
    assert Join([], '/') == "";
  }

  lemma SameTexts(path: string)
    requires path != ""
    ensures PathText(path) <==> PlaceAllowed(path)
  {
  }

  // What a form is written as and becomes

  const RESTIC := "restic"

  function RuleText(rule: Rule): seq<string> {
    match rule
    case Unneeded => ["--prune"]
    case KeepSome(option, count) => [option, count]
  }

  function RulesText(rules: seq<Rule>): seq<string> {
    if rules == [] then [] else RuleText(rules[0]) + RulesText(rules[1..])
  }

  function TargetText(id: string, place: Option<string>): string {
    if place.Some? then id + ":" + place.value else id
  }

  function Given(f: Form): seq<string> {
    match f
    case Backup => ["/root/backup.sh"]
    case About(remote) => ["rclone", "about", remote + ":", "--json"]
    case Snapshots => [RESTIC, "snapshots", "--json"]
    case Usage(mode) => [RESTIC, "stats", "--mode", mode, "--json"]
    case RestoreSize(id) => [RESTIC, "stats", "--mode", "restore-size", "--json", id]
    case Tree(id, place) => [RESTIC, "cat", "tree", TargetText(id, place)]
    case Listing(operation, id, place) => [RESTIC, operation, "--json", id] + if place.Some? then [place.value] else []
    case DumpFile(id, path) => [RESTIC, "dump", id, path]
    case DumpFolder(flag, id, path) => [RESTIC, "dump", flag, "zip", id, path]
    case Forget(rules) => [RESTIC, "forget"] + RulesText(rules)
    case Prune => [RESTIC, "prune"]
  }

  function Plainly(place: Option<string>): Option<string> {
    match place
    case Some(path) => Some(Rendered(path))
    case None => None
  }

  /** The same command with its path written plainly. */
  function Canonical(f: Form): Form {
    match f
    case Tree(id, place) => Tree(id, Plainly(place))
    case Listing(operation, id, place) => Listing(operation, id, Plainly(place))
    case DumpFile(id, path) => DumpFile(id, Rendered(path))
    case DumpFolder(flag, id, path) => DumpFolder(flag, id, Rendered(path))
    case _ => f
  }

  predicate IdAllowed(id: string) {
    8 <= |id| <= 64 && forall i | 0 <= i < |id| :: id[i] in "0123456789abcdefABCDEF"
  }

  predicate NameCharacter(c: char) {
    '0' <= c <= '9' || 'A' <= c <= 'Z' || 'a' <= c <= 'z'
  }

  predicate RemoteAllowed(remote: string) {
    remote != "" && NameCharacter(remote[0]) && forall i | 0 <= i < |remote| :: NameCharacter(remote[i]) || remote[i] in "._-"
  }

  predicate RuleAllowed(rule: Rule) {
    rule.KeepSome? ==>
      rule.option in {"--keep-last", "--keep-hourly", "--keep-daily", "--keep-weekly", "--keep-monthly", "--keep-yearly"}
      && IsDigitText(rule.count)
  }

  predicate Allowed(f: Form) {
    match f
    case Backup => true
    case About(remote) => RemoteAllowed(remote)
    case Snapshots => true
    case Usage(mode) => mode in {"raw-data", "blobs-per-file"}
    case RestoreSize(id) => IdAllowed(id)
    case Tree(id, place) => IdAllowed(id) && (place.Some? ==> PlaceAllowed(place.value) && PlaceOf(place.value) != [])
    case Listing(operation, id, place) =>
      operation in {"ls", "find"} && IdAllowed(id) && (place.Some? ==> PlaceAllowed(place.value))
    case DumpFile(id, path) => IdAllowed(id) && PlaceAllowed(path)
    case DumpFolder(flag, id, path) => flag in {"-a", "--archive"} && IdAllowed(id) && PlaceAllowed(path)
    case Forget(rules) => rules != [] && forall i | 0 <= i < |rules| :: RuleAllowed(rules[i])
    case Prune => true
  }

  /** The commands that only read the repository. */
  predicate OnlyReads(f: Form) {
    f.Snapshots? || f.Usage? || f.RestoreSize? || f.Tree? || f.Listing? || f.DumpFile? || f.DumpFolder?
  }

  // Ids, remotes and targets

  lemma IdRead(s: string)
    ensures SnapshotId(s) <==> IdAllowed(s)
  {
    forall c: char
      ensures Hex(c) <==> c in "0123456789abcdefABCDEF"
    {
      HexDigit(c);
    }
  }

  lemma HexDigit(c: char)
    ensures Hex(c) <==> c in "0123456789abcdefABCDEF"
  {
    var digits := "0123456789abcdefABCDEF";
    if '0' <= c <= '9' {
      assert digits[c as int - '0' as int] == c;
    } else if 'a' <= c <= 'f' {
      assert digits[10 + c as int - 'a' as int] == c;
    } else if 'A' <= c <= 'F' {
      assert digits[16 + c as int - 'A' as int] == c;
    }
  }

  lemma RemoteRead(s: string)
    ensures Remote(s) ==> s == s[..|s| - 1] + ":" && RemoteAllowed(s[..|s| - 1])
    ensures RemoteAllowed(s) ==> Remote(s + ":")
  {
    if Remote(s) {
      var name := s[..|s| - 1];
      assert forall i | 0 <= i < |name| :: name[i] == s[i];
    }
  }

  lemma RenderedRoot(path: string)
    requires PlaceAllowed(path)
    ensures Rendered(path) == "/" <==> PlaceOf(path) == []
  {
    hide Names;
    var names := PlaceOf(path);
    if names != [] {
      PlaceRead(path);
      NamesAreNormal(path);
      JoinParts(names, '/');
    }
  }

  lemma NamesAreNormal(path: string)
    requires PlaceAllowed(path)
    ensures NormalParts(PlaceOf(path))
  {
    hide Names;
    if path == "" {
      RootRendered();
    } else {
      SameTexts(path);
      PartsAreNames(Split(path, '/'));
      NamesWithoutUps(path);
    }
  }

  // A form is accepted

  lemma {:induction false} RulesAccepted(before: seq<string>, rules: seq<Rule>)
    requires forall i | 0 <= i < |rules| :: RuleAllowed(rules[i])
    ensures Retention(before + RulesText(rules), |before|)
    decreases |rules|
  {
    hide IsDigitText;
    if rules != [] {
      var argv := before + RulesText(rules);
      var head := before + RuleText(rules[0]);
      assert argv == head + RulesText(rules[1..]);
      RulesAccepted(head, rules[1..]);
      assert argv[|before|] == RuleText(rules[0])[0];
      if rules[0].KeepSome? {
        assert argv[|before| + 1] == rules[0].count;
      }
    }
  }

  lemma TreeAccepted(id: string, place: Option<string>)
    requires Allowed(Tree(id, place))
    ensures TreeArguments(TargetText(id, place)) == Some((id, if place.Some? then Rendered(place.value) else "/"))
    ensures place.Some? ==> Rendered(place.value) != "/"
  {
    hide Rendered, PlaceOf, PlaceAllowed, NormalizePath, BeforeColon;
    IdRead(id);
    var s := TargetText(id, place);
    match place
    case Some(path) =>
      ColonAfterId(id, path);
      assert s[..|id|] == id && s[|id| + 1..] == path;
      PlaceRead(path);
      RenderedRoot(path);
    case None =>
      ColonAfterId(id, "");
      assert id[..|id|] == id;
  }

  /** What a form becomes when it is accepted. */
  lemma ReadingAccepted(f: Form)
    requires Allowed(f) && (f.Tree? || f.Listing? || f.DumpFile? || f.DumpFolder?)
    ensures Accept(Given(f)) == Some(Given(Canonical(f)))
  {
    hide Rendered, PlaceAllowed, PlaceOf, NormalizePath, SnapshotId, IdAllowed, TreeArguments, Remote, Retention;
    IdRead(f.id);
    match f
    case Tree(id, place) =>
      TreeAccepted(id, place);
      var argv := Given(f);
      var path := if place.Some? then Rendered(place.value) else "/";
      assert argv[3] == TargetText(id, place) && TreeText(id, path) == TargetText(id, Plainly(place));
      assert argv[3 := TreeText(id, path)] == Given(Canonical(f));
    case Listing(operation, id, place) =>
      if place.Some? {
        PlaceRead(place.value);
        assert Given(f)[4 := Rendered(place.value)] == Given(Canonical(f));
      }
    case DumpFile(id, path) =>
      PlaceRead(path);
      assert Given(f)[3 := Rendered(path)] == Given(Canonical(f));
    case DumpFolder(flag, id, path) =>
      PlaceRead(path);
      assert Given(f)[5 := Rendered(path)] == Given(Canonical(f));
  }

  lemma FormAccepted(f: Form)
    requires Allowed(f)
    ensures Accept(Given(f)) == Some(Given(Canonical(f)))
  {
    hide Rendered, PlaceAllowed, PlaceOf, NormalizePath, SnapshotId, IdAllowed, TreeArguments, Remote, RemoteAllowed, Retention;
    match f
    case About(remote) => RemoteRead(remote);
    case RestoreSize(id) => IdRead(id);
    case Forget(rules) =>
      RulesAccepted([RESTIC, "forget"], rules);
      assert RulesText(rules) != [];
    case Backup =>
    case Snapshots =>
    case Usage(mode) =>
    case Prune =>
    case _ => ReadingAccepted(f);
  }

  // An accepted list has a form

  lemma {:induction false} RulesRead(argv: seq<string>, index: nat) returns (rules: seq<Rule>)
    requires index <= |argv| && Retention(argv, index)
    ensures argv[index..] == RulesText(rules) && forall i | 0 <= i < |rules| :: RuleAllowed(rules[i])
    decreases |argv| - index
  {
    hide IsDigitText;
    if index == |argv| {
      rules := [];
    } else {
      var first := if argv[index] == "--prune" then Unneeded else KeepSome(argv[index], argv[index + 1]);
      var next := index + |RuleText(first)|;
      var rest := RulesRead(argv, next);
      rules := [first] + rest;
      assert rules[1..] == rest;
      assert argv[index..next] == RuleText(first);
      assert argv[index..] == argv[index..next] + argv[next..];
    }
  }

  /** The form of a list of length `n` that its elements spell. */
  lemma Spelled(argv: seq<string>, f: Form)
    requires |argv| == |Given(f)| && forall i | 0 <= i < |argv| :: argv[i] == Given(f)[i]
    ensures argv == Given(f)
  {
    hide Given;
  }

  lemma TreeForm(argv: seq<string>) returns (f: Form)
    requires |argv| > 1 && argv[0] == RESTIC && argv[1] == "cat" && Cat(argv).Some?
    ensures Allowed(f) && Given(f) == argv
  {
    hide Rendered, PlaceOf, PlaceAllowed, NormalizePath, SnapshotId, IdAllowed;
    var value := argv[3];
    var k := BeforeColon(value);
    IdRead(value[..k]);
    if k == |value| {
      f := Tree(value, None);
      assert value[..k] == value;
    } else {
      var path := value[k + 1..];
      PlaceRead(path);
      RenderedRootIf(path);
      f := Tree(value[..k], Some(path));
      assert value == value[..k] + ":" + path;
    }
    Spelled(argv, f);
  }

  lemma RenderedRootIf(path: string)
    ensures PlaceAllowed(path) ==> (Rendered(path) == "/" <==> PlaceOf(path) == [])
  {
    hide PlaceAllowed, Rendered, PlaceOf;
    if PlaceAllowed(path) {
      RenderedRoot(path);
    }
  }

  lemma ReadingForm(argv: seq<string>) returns (f: Form)
    requires |argv| > 1 && argv[0] == RESTIC
    requires (argv[1] in {"ls", "find"} && List(argv).Some?) || (argv[1] == "dump" && Dump(argv).Some?)
    ensures Allowed(f) && Given(f) == argv
  {
    hide Rendered, PlaceOf, PlaceAllowed, NormalizePath, SnapshotId, IdAllowed;
    var n := |argv|;
    PlaceRead(argv[n - 1]);
    if argv[1] == "dump" {
      IdRead(argv[n - 2]);
      f := if n == 4 then DumpFile(argv[2], argv[3]) else DumpFolder(argv[2], argv[4], argv[5]);
    } else {
      IdRead(argv[3]);
      f := Listing(argv[1], argv[3], if n == 5 then Some(argv[4]) else None);
    }
    Spelled(argv, f);
  }

  lemma StatsForm(argv: seq<string>) returns (f: Form)
    requires |argv| > 1 && argv[0] == RESTIC && argv[1] == "stats" && Stats(argv).Some?
    ensures Allowed(f) && Given(f) == argv
  {
    hide SnapshotId, IdAllowed;
    if |argv| == 6 {
      IdRead(argv[5]);
      assert argv[2..5][0] == argv[2] && argv[2..5][1] == argv[3] && argv[2..5][2] == argv[4];
      f := RestoreSize(argv[5]);
      Spelled(argv, f);
    } else {
      f := Usage(argv[3]);
    }
  }

  lemma ResticForm(argv: seq<string>) returns (f: Form)
    requires argv != [] && argv[0] == RESTIC && Restic(argv).Some?
    ensures Allowed(f) && Given(f) == argv
  {
    hide Cat, List, Dump, Stats, Retention, Given;
    if argv[1] == "snapshots" {
      f := Snapshots;
      SnapshotsText();
    } else if argv[1] == "stats" {
      f := StatsForm(argv);
    } else if argv[1] == "cat" {
      f := TreeForm(argv);
    } else if argv[1] in {"ls", "find", "dump"} {
      f := ReadingForm(argv);
    } else if argv[1] == "forget" {
      var rules := RulesRead(argv, 2);
      f := Forget(rules);
      ForgetText(argv, rules);
    } else {
      f := Prune;
      PruneText(argv);
    }
  }

  lemma SnapshotsText()
    ensures Given(Snapshots) == [RESTIC, "snapshots", "--json"]
  {
  }

  lemma PruneText(argv: seq<string>)
    requires |argv| == 2 && argv[0] == RESTIC && argv[1] == "prune"
    ensures Given(Prune) == argv
  {
  }

  lemma ForgetText(argv: seq<string>, rules: seq<Rule>)
    requires |argv| >= 3 && argv[0] == RESTIC && argv[1] == "forget" && argv[2..] == RulesText(rules)
    ensures Given(Forget(rules)) == argv && rules != []
  {
    assert argv == argv[..2] + argv[2..];
    assert argv[..2] == [RESTIC, "forget"];
  }

  lemma FormOf(argv: seq<string>) returns (f: Form)
    requires Accept(argv).Some?
    ensures Allowed(f) && Given(f) == argv
  {
    hide Restic, RemoteAllowed, Remote;
    if argv[0] == "rclone" {
      RemoteRead(argv[2]);
      f := About(argv[2][..|argv[2]| - 1]);
      Spelled(argv, f);
    } else if argv[0] == RESTIC {
      f := ResticForm(argv);
    } else {
      f := Backup;
    }
  }

  // `validate`

  /** The items a command stands for: a list as it is, a line between its blanks, nothing for the backup script. */
  predicate StandsFor(command: Command, items: seq<string>) {
    match command
    case NoCommand => items == ["/root/backup.sh"]
    case Argv(list) => list != [] && items == list
    case Line(text) => items == if text == "" then ["/root/backup.sh"] else Words(text)
    case Unsupported => false
  }

  /** No item is empty or holds a shell character, nor does a line. */
  predicate NoShell(command: Command, items: seq<string>) {
    && (forall i | 0 <= i < |items| :: items[i] != "" && Harmless(items[i]))
    && (command.Line? ==> Harmless(command.text))
  }

  predicate Harmless(text: string) {
    forall i | 0 <= i < |text| :: text[i] !in ";|&`$><\\\"'\n\r\0(){}[]*?!"
  }

  /** The items that are not lock flags. */
  function Unflagged(items: seq<string>): seq<string> {
    if items == [] then []
    else
      var last := items[|items| - 1];
      Unflagged(items[..|items| - 1]) + if last == "--no-lock" then [] else [last]
  }

  lemma {:induction false} UnflaggedJoin(a: seq<string>, b: seq<string>)
    ensures Unflagged(a + b) == Unflagged(a) + Unflagged(b)
  {
    if b == [] {
      assert a + b == a;
    } else {
      assert (a + b)[..|a + b| - 1] == a + b[..|b| - 1];
      UnflaggedJoin(a, b[..|b| - 1]);
    }
  }

  lemma {:induction false} FlagsDropped(items: seq<string>)
    ensures WithoutNoLock(items) == Unflagged(items)
  {
    if items != [] {
      FlagsDropped(items[1..]);
      assert items == [items[0]] + items[1..];
      UnflaggedJoin([items[0]], items[1..]);
      assert [items[0]][..0] == [];
    }
  }

  /** The command is of this form: harmless items, of which only a reading command may carry lock flags. */
  predicate IsForm(command: Command, items: seq<string>, f: Form) {
    && StandsFor(command, items) && NoShell(command, items) && Allowed(f) && Unflagged(items) == Given(f)
    && ("--no-lock" in items ==> OnlyReads(f))
  }

  lemma ReadingForms(f: Form)
    requires Allowed(f)
    ensures ReadOnly(Given(f)) <==> OnlyReads(f)
  {
    hide PlaceAllowed, IdAllowed, RemoteAllowed, RuleAllowed;
  }

  lemma HarmlessIsClean(text: string)
    ensures Clean(text) <==> Harmless(text)
  {
    forall i | 0 <= i < |text|
      ensures Meta(text[i]) <==> text[i] in ";|&`$><\\\"'\n\r\0(){}[]*?!"
    {
      ShellCharacter(text[i]);
    }
    assert forall i | 0 <= i < |text| :: text[i] in text;
  }

  lemma ShellCharacter(c: char)
    ensures Meta(c) <==> c in ";|&`$><\\\"'\n\r\0(){}[]*?!"
  {
    var characters := ";|&`$><\\\"'\n\r\0(){}[]*?!";
    assert characters == [';', '|', '&', '`', '$', '>', '<', '\\', '"', '\'', '\n', '\r', '\0', '(', ')', '{', '}', '[', ']', '*', '?', '!'];
  }

  lemma ItemsRead(command: Command, items: seq<string>)
    ensures StandsFor(command, items) && NoShell(command, items)
       <==> Items(command) == Some(items) && !(exists item | item in items :: item == "" || !Clean(item))
  {
    hide Clean, Harmless, Words;
    if command.Line? {
      HarmlessIsClean(command.text);
    }
    forall i | 0 <= i < |items| {
      HarmlessIsClean(items[i]);
    }
    BackupIsHarmless();
  }

  lemma BackupIsHarmless()
    ensures Harmless("") && Harmless("/root/backup.sh")
  {
  }

  /** A command of an allowed form is accepted, with its lock flags dropped and its path written plainly. */
  lemma ValidateAccepts(command: Command, items: seq<string>, f: Form)
    requires IsForm(command, items, f)
    ensures Validate(command) == Some(Given(Canonical(f)))
  {
    hide StandsFor, NoShell, Given, Canonical, Accept, Items, Clean, ReadOnly, OnlyReads, Allowed;
    ItemsRead(command, items);
    FlagsDropped(items);
    WithoutHas(items);
    FormAccepted(f);
    ReadingForms(f);
  }

  /** Every accepted command is of an allowed form. */
  lemma AcceptedHasForm(command: Command) returns (items: seq<string>, f: Form)
    requires Validate(command).Some?
    ensures IsForm(command, items, f) && Validate(command) == Some(Given(Canonical(f)))
  {
    hide StandsFor, NoShell, Given, Canonical, Accept, Items, Clean, ReadOnly, OnlyReads, Allowed;
    items := Items(command).value;
    ItemsRead(command, items);
    FlagsDropped(items);
    WithoutHas(items);
    f := FormOf(Unflagged(items));
    ReadingForms(f);
    FormAccepted(f);
  }

  /** The lock policy adds its flag to reading commands only. */
  lemma LockFlagIff(command: Command, items: seq<string>, f: Form, noLock: bool)
    requires IsForm(command, items, f)
    ensures Validate(command).Some?
    ensures ApplyLock(Validate(command).value, noLock) == Given(Canonical(f)) + if noLock && OnlyReads(f) then ["--no-lock"] else []
  {
    hide StandsFor, NoShell, Given, Canonical, Accept, Validate, Items, Clean, ReadOnly, OnlyReads, Allowed;
    ValidateAccepts(command, items, f);
    ValidateIsSettled(command);
    CanonicalAllowed(f);
    ReadingForms(Canonical(f));
    assert Given(Canonical(f)) + [] == Given(Canonical(f));
  }

  /** Writing the path plainly leaves an allowed form that names the same snapshot and place. */
  lemma CanonicalAllowed(f: Form)
    requires Allowed(f)
    ensures Allowed(Canonical(f)) && (OnlyReads(Canonical(f)) <==> OnlyReads(f))
  {
    hide PlaceAllowed, PlaceOf, IdAllowed, RemoteAllowed, RuleAllowed, Rendered;
    match f
    case Tree(id, place) => PlainlyAllowed(place);
    case Listing(operation, id, place) => PlainlyAllowed(place);
    case DumpFile(id, path) => PlainlyAllowed(Some(path));
    case DumpFolder(flag, id, path) => PlainlyAllowed(Some(path));
    case _ =>
  }

  lemma PlainlyAllowed(place: Option<string>)
    requires place.Some? ==> PlaceAllowed(place.value)
    ensures place.Some? ==> PlaceAllowed(Rendered(place.value)) && PlaceOf(Rendered(place.value)) == PlaceOf(place.value)
  {
    hide PlaceOf, Normal;
    if place.Some? {
      PlaceRead(place.value);
      if place.value == "" {
        RootRendered();
        RootPlace();
      } else {
        SameTexts(place.value);
        NormalNamesSamePlace(place.value);
        NormalIsFixed(place.value);
        NormalIsSlashed(place.value);
        SameTexts(Normal(place.value));
      }
    }
  }

  lemma RootPlace()
    ensures PlaceOf("/") == [] && PlaceAllowed("/")
  {
    SplitRoot();
    assert ["", ""][..1] == [""] && [""][..0] == [];
  }

  /** What reading commands start with. */
  predicate StartsReading(argv: seq<string>) {
    |argv| >= 2 && argv[..2] in {[RESTIC, "snapshots"], [RESTIC, "ls"], [RESTIC, "cat"], [RESTIC, "dump"], [RESTIC, "find"], [RESTIC, "stats"]}
  }

  /** Of any list, the lock policy adds its flag once, at the end, when asked to, to one that starts as a reading command. */
  lemma LockAdded(argv: seq<string>, noLock: bool)
    ensures ApplyLock(argv, noLock) == argv + if noLock && StartsReading(argv) && "--no-lock" !in argv then ["--no-lock"] else []
  {
    assert argv + [] == argv;
    if |argv| >= 2 {
      assert argv[..2] == [argv[0], argv[1]];
    }
  }

  // The snapshot a command names

  function PlainOrRoot(place: Option<string>): string {
    if place.Some? then Rendered(place.value) else "/"
  }

  /** The snapshot and the plainly written place that a form names. */
  function ScopeOf(f: Form): Scope {
    match f
    case RestoreSize(id) => Scope(Some(id), Some("/"))
    case Tree(id, place) => Scope(Some(id), Some(PlainOrRoot(place)))
    case Listing(_, id, place) => Scope(Some(id), Some(PlainOrRoot(place)))
    case DumpFile(id, path) => Scope(Some(id), Some(Rendered(path)))
    case DumpFolder(_, id, path) => Scope(Some(id), Some(Rendered(path)))
    case _ => Scope(None, None)
  }

  /** The same arguments with a cache directory, as the worker adds one. */
  function WithCache(argv: seq<string>, dir: string): seq<string>
    requires argv != []
  {
    [argv[0], "--cache-dir", dir] + argv[1..]
  }

  lemma TreeScoped(id: string, place: Option<string>)
    requires Allowed(Tree(id, place))
    ensures TreeArguments(TargetText(id, Plainly(place))) == Some((id, PlainOrRoot(place)))
  {
    hide Rendered, PlaceOf, PlaceAllowed, NormalizePath, BeforeColon, TreeArguments, IdAllowed;
    PlainlyAllowed(place);
    TreeAccepted(id, Plainly(place));
    if place.Some? {
      TreeAccepted(id, place);
      RenderedAgain(place.value);
    }
  }

  lemma RenderedAgain(path: string)
    requires PlaceAllowed(path)
    ensures Rendered(Rendered(path)) == Rendered(path)
  {
    hide PlaceAllowed, PlaceOf;
    PlainlyAllowed(Some(path));
  }

  lemma ScopeOfForm(f: Form)
    requires Allowed(f) && NO_LOCK !in Given(Canonical(f))
    ensures SnapshotArguments(Given(Canonical(f))) == ScopeOf(f)
  {
    hide Rendered, PlaceOf, PlaceAllowed, NormalizePath, TreeArguments, IdAllowed, RemoteAllowed, RuleAllowed, TargetText;
    hide WithoutNoLock, RulesText, Plainly;
    var argv := Given(Canonical(f));
    WithoutHas(argv);
    if f.Tree? {
      TreeScoped(f.id, f.place);
    } else {
      PlainlyIs(f);
    }
  }

  lemma PlainlyIs(f: Form)
    ensures f.Listing? ==> (f.place.Some? <==> Plainly(f.place).Some?) && (f.place.Some? ==> Plainly(f.place).value == Rendered(f.place.value))
  {
    hide Rendered;
  }

  /** What is read of the arguments is the same with a cache directory. */
  lemma ScopeWithCache(argv: seq<string>, dir: string)
    requires |argv| > 1 && argv[0] == "restic" && argv[1] != "--cache-dir" && NO_LOCK !in argv && dir != NO_LOCK
    ensures SnapshotArguments(WithCache(argv, dir)) == SnapshotArguments(argv)
  {
    hide TreeArguments;
    var cached := WithCache(argv, dir);
    WithoutHas(argv);
    WithoutHas(cached);
    assert forall i | 1 <= i < |argv| :: cached[i + 2] == argv[i];
    if |argv| == 6 {
      assert cached[4..7] == argv[2..5];
    }
  }

  lemma ResticForms(f: Form)
    requires Allowed(f) && f != Backup && !f.About?
    ensures var argv := Given(Canonical(f)); |argv| > 1 && argv[0] == "restic" && argv[1] != "--cache-dir"
  {
    hide Rendered, PlaceOf, PlaceAllowed, IdAllowed, RuleAllowed, TargetText, RulesText, Plainly;
  }

  /** An accepted command names exactly the snapshot and place of its form, with a lock flag or a cache directory as without. */
  lemma ScopeOfCommand(command: Command, items: seq<string>, f: Form, noLock: bool, dir: string)
    requires IsForm(command, items, f) && dir != NO_LOCK
    ensures Validate(command).Some?
    ensures var argv := Validate(command).value;
            && SnapshotArguments(ApplyLock(argv, noLock)) == ScopeOf(f)
            && (f != Backup && !f.About? ==> argv != [] && SnapshotArguments(WithCache(argv, dir)) == ScopeOf(f))
  {
    hide StandsFor, NoShell, Given, Canonical, Accept, Validate, Items, Clean, Allowed, SnapshotArguments, ApplyLock;
    ValidateAccepts(command, items, f);
    ValidateIsSettled(command);
    SnapshotScopeIsValid(command, noLock);
    ScopeOfForm(f);
    if f != Backup && !f.About? {
      ResticForms(f);
      ScopeWithCache(Given(Canonical(f)), dir);
    }
  }

  // Of any argument list

  /** The arguments without lock flags and without a cache directory. */
  function Bare(argv: seq<string>): seq<string> {
    var a := Unflagged(argv);
    if |a| >= 4 && a[1] == "--cache-dir" then a[..1] + a[3..] else a
  }

  /** A bare command that names this snapshot and place. */
  predicate NamesPlace(a: seq<string>, id: string, place: string) {
    |a| >= 4 && a[0] == RESTIC &&
    (|| (a[1] in {"ls", "find"} && id == a[3] && ((|a| == 4 && place == "/") || (|a| == 5 && place == a[4])))
     || (a[1] == "cat" && |a| == 4 && a[2] == "tree" && TreeArguments(a[3]) == Some((id, place)))
     || (a[1] == "dump" && (|a| == 4 || |a| == 6) && id == a[|a| - 2] && place == a[|a| - 1])
     || (a == [RESTIC, "stats", "--mode", "restore-size", "--json", id] && place == "/"))
  }

  predicate BadTree(a: seq<string>) {
    |a| == 4 && a[..3] == [RESTIC, "cat", "tree"] && TreeArguments(a[3]).None?
  }

  /** Of any list the scope is what its bare command names; a tree target that cannot be read raises; any other list names
      none. */
  lemma ScopeIff(argv: seq<string>, id: string, place: string)
    ensures SnapshotArguments(argv) == Scope(Some(id), Some(place)) <==> NamesPlace(Bare(argv), id, place)
    ensures SnapshotArguments(argv) == Raises <==> BadTree(Bare(argv))
    ensures SnapshotArguments(argv).Raises? || SnapshotArguments(argv) == Scope(None, None)
         || (SnapshotArguments(argv).id.Some? && SnapshotArguments(argv).path.Some?)
  {
    hide TreeArguments, Unflagged, WithoutNoLock;
    FlagsDropped(argv);
    var a, b := Unflagged(argv), Bare(argv);
    if |a| >= 4 && a[1] == "--cache-dir" {
      assert b[0] == a[0] && forall i | 1 <= i < |b| :: b[i] == a[i + 2];
    }
    var op: nat := if |a| >= 4 && a[1] == "--cache-dir" then 3 else 1;
    if |b| == 6 {
      assert a[op + 1..op + 4] == b[2..5] == [b[2], b[3], b[4]];
      assert b == [b[0], b[1], b[2], b[3], b[4], b[5]];
    }
    if |b| == 4 {
      assert b[..3] == [b[0], b[1], b[2]];
    }
  }
}
