/** Which destinations can be browsed, told by their parts, and how the folder of one is spelled. */
module MountNames {
  import opened Text
  import Decimal
  import opened MountFolders

  // Trimming

  function Repeated(c: char, n: nat): (s: string)
    ensures |s| == n && forall i | 0 <= i < n :: s[i] == c
  {
    seq(n, _ => c)
  }

  lemma {:induction false} TrimLeftOf(s: string, c: char, n: nat)
    requires s == "" || s[0] != c
    ensures MountFolders.TrimLeft(Repeated(c, n) + s, c) == s
  {
    if n == 0 {
      assert Repeated(c, 0) + s == s;
    } else {
      assert (Repeated(c, n) + s)[1..] == Repeated(c, n - 1) + s;
      TrimLeftOf(s, c, n - 1);
    }
  }

  lemma {:induction false} TrimRightOf(s: string, c: char, n: nat)
    requires s == "" || s[|s| - 1] != c
    ensures MountFolders.TrimRight(s + Repeated(c, n), c) == s
  {
    if n == 0 {
      assert s + Repeated(c, 0) == s;
    } else {
      var t := s + Repeated(c, n);
      assert t[..|t| - 1] == s + Repeated(c, n - 1);
      TrimRightOf(s, c, n - 1);
    }
  }

  lemma TrimOf(before: nat, s: string, after: nat, c: char)
    requires s != "" && s[0] != c && s[|s| - 1] != c
    ensures Trim(Repeated(c, before) + s + Repeated(c, after), c) == s
  {
    hide MountFolders.TrimLeft, MountFolders.TrimRight;
    assert Repeated(c, before) + s + Repeated(c, after) == Repeated(c, before) + (s + Repeated(c, after));
    TrimLeftOf(s + Repeated(c, after), c, before);
    TrimRightOf(s, c, after);
  }

  lemma {:induction false} TrimRightPiece(s: string, c: char)
    ensures var t := MountFolders.TrimRight(s, c); t == s[..|t|] && forall i | |t| <= i < |s| :: s[i] == c
  {
    if s != "" && s[|s| - 1] == c {
      TrimRightPiece(s[..|s| - 1], c);
    }
  }

  lemma {:induction false} TrimLeftPiece(s: string, c: char)
    ensures var t := MountFolders.TrimLeft(s, c); |t| <= |s| && t == s[|s| - |t|..] && forall i | 0 <= i < |s| - |t| :: s[i] == c
  {
    if s != "" && s[0] == c {
      TrimLeftPiece(s[1..], c);
    }
  }

  // Spelling

  predicate Letter(c: char) {
    '0' <= c <= '9' || 'A' <= c <= 'Z' || 'a' <= c <= 'z' || c in "_-"
  }

  /** Letters stay, and the last character of every run of others is a dash. */
  function Dashed(s: string, followed: bool): string
    decreases |s|
  {
    if s == "" then ""
    else
      var c := s[|s| - 1];
      if Letter(c) then Dashed(s[..|s| - 1], false) + [c]
      else if followed then Dashed(s[..|s| - 1], true)
      else Dashed(s[..|s| - 1], true) + "-"
  }

  predicate EndsInRun(s: string, inRun: bool) {
    if s == "" then inRun else !Letter(s[|s| - 1])
  }

  lemma SameLetters(c: char)
    ensures Letter(c) <==> Allowed(c)
  {
    assert "_-"[0] == '_' && "_-"[1] == '-';
  }

  /** What one character adds. */
  function Mark(c: char, inRun: bool): string {
    if Letter(c) then [c] else if inRun then "" else "-"
  }

  lemma SlugCons(c: char, rest: string, inRun: bool)
    ensures Slug([c] + rest, inRun) == Mark(c, inRun) + Slug(rest, !Letter(c))
  {
    SameLetters(c);
    assert ([c] + rest)[1..] == rest;
  }

  lemma {:induction false} SlugNext(s: string, c: char, inRun: bool)
    ensures Slug(s + [c], inRun) == Slug(s, inRun) + Mark(c, EndsInRun(s, inRun))
    decreases |s|
  {
    hide Letter, Slug, Mark;
    if s == "" {
      assert "" + [c] == [c] + "";
      SlugCons(c, "", inRun);
      SlugOfNothing(inRun);
      SlugOfNothing(!Letter(c));
    } else {
      var rest, after := s[1..], !Letter(s[0]);
      assert s == [s[0]] + rest && s + [c] == [s[0]] + (rest + [c]);
      SlugCons(s[0], rest + [c], inRun);
      SlugCons(s[0], rest, inRun);
      SlugNext(rest, c, after);
      assert EndsInRun(rest, after) == EndsInRun(s, inRun);
    }
  }

  lemma SlugOfNothing(inRun: bool)
    ensures Slug("", inRun) == ""
  {
  }

  lemma {:induction false} SlugIsDashed(s: string)
    ensures Slug(s, false) == Dashed(s, false)
    ensures Slug(s, false) == Dashed(s, true) + if EndsInRun(s, false) then "-" else ""
    decreases |s|
  {
    hide Letter, Slug;
    if s == "" {
      NothingSlug();
    } else {
      var n := |s| - 1;
      assert s == s[..n] + [s[n]];
      SlugNext(s[..n], s[n], false);
      SlugIsDashed(s[..n]);
    }
  }

  lemma NothingSlug()
    ensures Slug("", false) == "" && Dashed("", false) == "" && Dashed("", true) == ""
  {
  }

  ghost predicate OnlyDashes(s: string, from: nat, to: nat) {
    forall i | from <= i < to && i < |s| :: s[i] == '-'
  }

  /** What is left of a text without outer dashes, cut to 64 characters, and without the dashes that then end it. */
  ghost predicate CutFrom(w: string, r: string, i: nat) {
    && i + |r| <= |w| && 1 <= |r| <= 64 && r == w[i..i + |r|] && OnlyDashes(w, 0, i)
    && r[0] != '-' && r[|r| - 1] != '-' && OnlyDashes(w, i + |r|, i + 64)
  }

  /** The folder for a text that leaves a name. */
  lemma FolderCut(w: string) returns (i: nat)
    requires Trim(w, '-') != ""
    ensures CutFrom(w, MountFolders.TrimRight(Take(Trim(w, '-'), LENGTH), '-'), i)
  {
    hide MountFolders.TrimLeft, MountFolders.TrimRight;
    var left := MountFolders.TrimLeft(w, '-');
    TrimLeftPiece(w, '-');
    TrimRightPiece(left, '-');
    var kept := Trim(w, '-');
    var r := MountFolders.TrimRight(Take(kept, LENGTH), '-');
    TrimRightPiece(Take(kept, LENGTH), '-');
    i := |w| - |left|;
    assert kept == w[i..i + |kept|];
    assert kept[0] == left[0];
    assert r == w[i..i + |r|];
    forall k | i + |r| <= k < i + 64 && k < |w|
      ensures w[k] == '-'
    {
      if k < i + |kept| {
        assert w[k] == Take(kept, LENGTH)[k - i];
      } else {
        assert w[k] == left[k - i];
      }
    }
  }

  // Destinations by their parts

  predicate Slashless(parts: seq<string>) {
    parts != [] && forall i | 0 <= i < |parts| :: '/' !in parts[i]
  }

  /** The parts of a path without outer slashes. */
  predicate Inner(parts: seq<string>) {
    Slashless(parts) && parts[0] != "" && parts[|parts| - 1] != ""
  }

  /** A destination with these parts, between this many slashes. */
  function Destination(before: nat, parts: seq<string>, after: nat): string {
    Repeated('/', before) + Join(parts, '/') + Repeated('/', after)
  }

  /** Kernel and Docker directories, and everything below them. */
  predicate System(parts: seq<string>) {
    (|parts| > 0 && parts[0] in {"proc", "sys", "dev"}) || (|parts| > 2 && parts[0] == "var" && parts[1] == "lib" && parts[2] == "docker")
  }

  predicate Named(part: string) {
    part != "" && part != "." && part != ".."
  }

  predicate Printable(s: string) {
    forall i | 0 <= i < |s| :: ' ' <= s[i] && s[i] != '\\'
  }

  /** A character that makes a name. */
  predicate Telling(c: char) {
    Letter(c) && c != '-'
  }

  /** The destination has a folder: a path of named parts outside the system directories, no socket, with a letter. */
  predicate Browsable(before: nat, parts: seq<string>, after: nat) {
    var d := Destination(before, parts, after);
    && before > 0 && |d| <= 4096 && Printable(d) && (forall i | 0 <= i < |parts| :: Named(parts[i])) && !System(parts)
    && (parts != [] ==> !EndsWith(parts[|parts| - 1], ".sock") && !EndsWith(parts[|parts| - 1], ".socket"))
    && exists i | 0 <= i < |d| :: Telling(d[i])
  }

  lemma JoinCons(parts: seq<string>)
    requires parts != []
    ensures |parts| == 1 ==> Join(parts, '/') == parts[0]
    ensures |parts| > 1 ==> Join(parts, '/') == parts[0] + "/" + Join(parts[1..], '/')
  {
  }

  lemma {:induction false} JoinLast(parts: seq<string>) returns (head: string)
    requires parts != []
    ensures Join(parts, '/') == head + parts[|parts| - 1] && (head != "" ==> head[|head| - 1] == '/')
  {
    JoinCons(parts);
    if |parts| == 1 {
      head := "";
      assert "" + parts[0] == parts[0];
    } else {
      var rest := JoinLast(parts[1..]);
      head := parts[0] + "/" + rest;
      assert parts[0] + "/" + (rest + parts[|parts| - 1]) == head + parts[|parts| - 1];
    }
  }

  lemma PathEnds(parts: seq<string>)
    requires Inner(parts)
    ensures var t := Join(parts, '/'); t != "" && t[0] != '/' && t[|t| - 1] != '/' && Split(t, '/') == parts
  {
    hide Join, Split;
    JoinCons(parts);
    var head := JoinLast(parts);
    var first, last := parts[0], parts[|parts| - 1];
    assert first[0] in first && last[|last| - 1] in last;
    assert forall p | p in parts :: '/' !in p;
    SplitJoin(parts, '/');
  }

  lemma LastEnds(parts: seq<string>, end: string)
    requires Inner(parts) && end != "" && '/' !in end
    ensures EndsWith(Join(parts, '/'), end) <==> EndsWith(parts[|parts| - 1], end)
  {
    hide Join, EndsWith;
    var head := JoinLast(parts);
    EndAfterSlash(head, parts[|parts| - 1], end);
  }

  lemma EndAfterSlash(head: string, last: string, end: string)
    requires '/' !in end && (head != "" ==> head[|head| - 1] == '/')
    ensures EndsWith(head + last, end) <==> EndsWith(last, end)
  {
    var t := head + last;
    if |last| < |end| <= |t| {
      var k := |end| - |last| - 1;
      assert t[|t| - |end|..][k] == '/' && end[k] in end;
    } else if |end| <= |last| {
      assert t[|t| - |end|..] == last[|last| - |end|..];
    }
  }

  /** The path is this directory or below it. */
  predicate Within(t: string, name: string) {
    t == name || name + "/" <= t
  }

  lemma SplitsBack(parts: seq<string>)
    requires Slashless(parts)
    ensures parts != [] && Split(Join(parts, '/'), '/') == parts
  {
    hide Join, Split;
    assert forall p | p in parts :: '/' !in p;
    SplitJoin(parts, '/');
  }

  lemma WithinFirst(parts: seq<string>, name: string)
    requires Slashless(parts) && '/' !in name
    ensures Within(Join(parts, '/'), name) <==> parts[0] == name
    ensures |parts| > 1 && parts[0] == name ==> Join(parts, '/')[|name| + 1..] == Join(parts[1..], '/')
  {
    hide Join, Split, Slashless;
    var t := Join(parts, '/');
    SplitsBack(parts);
    JoinCons(parts);
    SplitPrefix(name, "", '/');
    if parts[0] == name && |parts| > 1 {
      FirstThenRest(t, name, Join(parts[1..], '/'));
    }
    if name + "/" <= t {
      var rest := t[|name| + 1..];
      assert t == name + "/" + rest;
      SplitPrefix(name, rest, '/');
    }
  }

  lemma FirstThenRest(t: string, name: string, rest: string)
    requires t == name + "/" + rest
    ensures name + "/" <= t && t[|name| + 1..] == rest
  {
  }

  lemma PrefixTransitive(a: string, b: string, c: string)
    ensures a <= b && b <= c ==> a <= c
  {
    if a <= b && b <= c {
      assert a == b[..|a|] == c[..|a|];
    }
  }

  lemma WithinBelow(t: string, a: string, b: string)
    ensures Within(t, a + "/" + b) <==> a + "/" <= t && Within(t[|a| + 1..], b)
  {
    var whole := a + "/" + b;
    assert whole[..|a| + 1] == a + "/";
    if a + "/" <= t {
      var u := t[|a| + 1..];
      assert t == a + "/" + u;
      if t == a + "/" + b {
        assert u == b;
      }
      if a + "/" + b + "/" <= t {
        assert u[..|b| + 1] == t[|a| + 1..|a| + 1 + |b| + 1] == b + "/";
      }
      if b + "/" <= u {
        assert t[..|a| + 1 + |b| + 1] == a + "/" + u[..|b| + 1];
      }
    }
    PrefixTransitive(a + "/", whole, t);
    PrefixTransitive(whole, whole + "/", t);
  }

  lemma ReservedIsSystem(parts: seq<string>)
    requires Inner(parts)
    ensures Reserved("/" + Join(parts, '/')) <==> System(parts)
  {
    hide Join;
    var t := Join(parts, '/');
    WithinFirst(parts, "proc");
    WithinFirst(parts, "sys");
    WithinFirst(parts, "dev");
    DockerDirectory(parts);
    ReservedWithin(t);
  }

  lemma DockerDirectory(parts: seq<string>)
    requires Slashless(parts)
    ensures Within(Join(parts, '/'), "var/lib/docker")
       <==> |parts| > 2 && parts[0] == "var" && parts[1] == "lib" && parts[2] == "docker"
  {
    hide Join, Within;
    DockerText();
    BelowFirst(parts, "var", "lib/docker");
    if |parts| > 1 {
      BelowFirst(parts[1..], "lib", "docker");
      if |parts| > 2 {
        WithinFirst(parts[1..][1..], "docker");
      }
    }
  }

  lemma DockerText()
    ensures "var/lib/docker" == "var" + "/" + "lib/docker" && "lib/docker" == "lib" + "/" + "docker"
    ensures '/' !in "var" && '/' !in "lib" && '/' !in "docker"
  {
  }

  /** Below a directory named by the first part is what the other parts say. */
  lemma BelowFirst(parts: seq<string>, name: string, below: string)
    requires Slashless(parts) && '/' !in name
    ensures Within(Join(parts, '/'), name + "/" + below) <==> |parts| > 1 && parts[0] == name && Within(Join(parts[1..], '/'), below)
    ensures |parts| > 1 ==> Slashless(parts[1..])
  {
    hide Join, Within;
    WithinFirst(parts, name);
    NotBelow(parts, name);
    WithinBelow(Join(parts, '/'), name, below);
  }

  lemma NotBelow(parts: seq<string>, name: string)
    requires Slashless(parts)
    ensures name + "/" <= Join(parts, '/') ==> |parts| > 1 && Within(Join(parts, '/'), name)
    ensures |parts| > 1 && parts[0] == name ==> name + "/" <= Join(parts, '/')
  {
    hide Join;
    JoinCons(parts);
    if name + "/" <= Join(parts, '/') {
      assert Join(parts, '/')[|name|] == '/';
      assert Join(parts, '/')[|name|] in Join(parts, '/');
    }
  }

  lemma ReservedWithin(t: string)
    ensures Reserved("/" + t) <==> Within(t, "proc") || Within(t, "sys") || Within(t, "dev") || Within(t, "var/lib/docker")
  {
    SlashBefore(t, "proc");
    SlashBefore(t, "sys");
    SlashBefore(t, "dev");
    SlashBefore(t, "var/lib/docker");
    ReservedTexts();
    PrefixTransitive("/var/lib/docker/", "/var/lib/docker/volumes", "/" + t);
  }

  lemma ReservedTexts()
    ensures "/" + "proc" == "/proc" && "/" + "sys" == "/sys" && "/" + "dev" == "/dev" && "/" + "var/lib/docker" == "/var/lib/docker"
    ensures "/" + "proc" + "/" == "/proc/" && "/" + "sys" + "/" == "/sys/" && "/" + "dev" + "/" == "/dev/"
    ensures "/" + "var/lib/docker" + "/" == "/var/lib/docker/" && "/var/lib/docker/" <= "/var/lib/docker/volumes"
  {
  }

  lemma SlashBefore(t: string, name: string)
    ensures "/" + t == "/" + name <==> t == name
    ensures "/" + name + "/" <= "/" + t <==> name + "/" <= t
  {
    assert ("/" + t)[1..] == t && ("/" + name)[1..] == name;
    assert ("/" + name + "/")[1..] == name + "/";
    if name + "/" <= t {
      assert "/" + t == "/" + name + "/" + t[|name| + 1..];
    }
    if "/" + name + "/" <= "/" + t {
      assert t == name + "/" + ("/" + t)[|name| + 2..];
    }
  }

  // The folder

  lemma {:induction false} SlugTells(s: string, inRun: bool)
    ensures (exists i | 0 <= i < |s| :: Telling(s[i])) <==> exists i | 0 <= i < |Slug(s, inRun)| :: Slug(s, inRun)[i] != '-'
  {
    hide Letter;
    if s != "" {
      var rest := s[1..];
      SameLetters(s[0]);
      SlugTells(rest, !Allowed(s[0]));
      Cons(s, Telling);
      var w := Slug(s, inRun);
      if w != Slug(rest, !Allowed(s[0])) {
        assert w[1..] == Slug(rest, !Allowed(s[0]));
        Cons(w, c => c != '-');
      }
    }
  }

  /** Some character passes: the first or a later one. */
  lemma Cons(s: string, p: char -> bool)
    requires s != ""
    ensures (exists i | 0 <= i < |s| :: p(s[i])) <==> p(s[0]) || exists i | 0 <= i < |s[1..]| :: p(s[1..][i])
  {
    if i :| 0 <= i < |s| && p(s[i]) {
      if i > 0 {
        assert s[1..][i - 1] == s[i];
      }
    }
  }

  lemma TrimTells(w: string)
    ensures Trim(w, '-') != "" <==> exists i | 0 <= i < |w| :: w[i] != '-'
  {
    hide MountFolders.TrimLeft, MountFolders.TrimRight;
    TrimLeftPiece(w, '-');
    TrimRightPiece(MountFolders.TrimLeft(w, '-'), '-');
  }

  lemma Trimmed(before: nat, parts: seq<string>, after: nat)
    requires Inner(parts)
    ensures var d := Destination(before, parts, after); var t := Join(parts, '/');
            && Trim(d, '/') == t && d != "" && (d[0] == '/' <==> before > 0)
            && ((exists i | 0 <= i < |d| :: Telling(d[i])) <==> exists i | 0 <= i < |t| :: Telling(t[i]))
  {
    hide Join, Trim, Letter;
    PathEnds(parts);
    var d, t := Destination(before, parts, after), Join(parts, '/');
    TrimOf(before, t, after, '/');
    assert !Telling('/') by { SlashTells(); }
    assert forall i | 0 <= i < |d| :: d[i] == if before <= i < before + |t| then t[i - before] else '/';
    forall i | 0 <= i < |t| && Telling(t[i])
      ensures exists j | 0 <= j < |d| :: Telling(d[j])
    {
      assert d[before + i] == t[i];
    }
  }

  lemma SlashTells()
    ensures !Telling('/')
  {
  }

  lemma NamedParts(parts: seq<string>)
    ensures (exists part | part in parts :: BadPart(part)) <==> !(forall i | 0 <= i < |parts| :: Named(parts[i]))
  {
    assert forall i | 0 <= i < |parts| :: parts[i] in parts && (Named(parts[i]) <==> !BadPart(parts[i]));
  }

  lemma PrintableText(d: string)
    ensures Printable(d) <==> '\\' !in d && !(exists c | c in d :: c < ' ')
  {
    assert forall i | 0 <= i < |d| :: d[i] in d;
  }

  lemma SocketEnds()
    ensures '/' !in ".sock" && '/' !in ".socket"
  {
  }

  /** When a destination that trims to `t` has a folder. */
  lemma TrimmedFolder(d: string, t: string)
    requires d != "" && Trim(d, '/') == t && t != ""
    ensures MountFolder(d).Some? <==>
      && |d| <= 4096 && Printable(d) && d[0] == '/' && !(exists part | part in Split(t, '/') :: BadPart(part))
      && !Reserved("/" + t) && !EndsWith(t, ".sock") && !EndsWith(t, ".socket") && Trim(Slug(t, false), '-') != ""
  {
    hide Trim, Split, Slug, Reserved, EndsWith, Printable, BadPart, MountFolders.TrimRight;
    PrintableText(d);
  }

  /** Exactly the browsable destinations have a folder. */
  lemma FolderIff(before: nat, parts: seq<string>, after: nat)
    requires Inner(parts)
    ensures MountFolder(Destination(before, parts, after)).Some? <==> Browsable(before, parts, after)
  {
    hide Join, Trim, Split, Slug, Reserved, System, EndsWith, Printable, Destination, Named, BadPart, Letter, Telling, MountFolder;
    var d, t := Destination(before, parts, after), Join(parts, '/');
    Trimmed(before, parts, after);
    PathEnds(parts);
    TrimmedFolder(d, t);
    NamedParts(parts);
    ReservedIsSystem(parts);
    SocketEnds();
    LastEnds(parts, ".sock");
    LastEnds(parts, ".socket");
    SlugTells(t, false);
    TrimTells(Slug(t, false));
  }

  /** The folder of a destination is cut from its path with every run of other characters made one dash. */
  lemma FolderText(before: nat, parts: seq<string>, after: nat) returns (i: nat)
    requires Inner(parts) && Browsable(before, parts, after)
    ensures MountFolder(Destination(before, parts, after)).Some?
    ensures CutFrom(Dashed(Join(parts, '/'), false), MountFolder(Destination(before, parts, after)).value, i)
  {
    hide Join, Trim, Split, Slug, Dashed, Reserved, System, EndsWith, Printable, Destination, Named, BadPart, MountFolders.TrimRight, Browsable;
    var t := Join(parts, '/');
    FolderIff(before, parts, after);
    Trimmed(before, parts, after);
    SlugIsDashed(t);
    i := FolderCut(Slug(t, false));
  }

  /** A destination with some parts that is browsable. */
  ghost predicate BrowsableText(d: string) {
    exists before, parts, after :: Inner(parts) && d == Destination(before, parts, after) && Browsable(before, parts, after)
  }

  /** A volume can be shown exactly when its source is a text of 1 to 4096 characters without NUL, it is described, and it is
      mounted at a browsable destination. */
  lemma UsableIff(v: Volume)
    ensures Usable(v) <==>
      1 <= |v.source| <= 4096 && (forall i | 0 <= i < |v.source| :: v.source[i] != '\0') && v.described
      && v.bind.Some? && BrowsableText(v.bind.value)
  {
    hide MountFolder, Destination, Browsable, Inner;
    assert forall i | 0 <= i < |v.source| :: v.source[i] in v.source;
    if v.bind.Some? {
      BrowsableIff(v.bind.value);
    }
  }

  lemma BrowsableIff(d: string)
    ensures BrowsableText(d) <==> MountFolder(d).Some?
  {
    hide MountFolder, Destination, Browsable, Inner;
    if MountFolder(d).Some? {
      var before, parts, after := EveryDestination(d);
      FolderIff(before, parts, after);
    }
    if before, parts, after :| Inner(parts) && d == Destination(before, parts, after) && Browsable(before, parts, after) {
      FolderIff(before, parts, after);
    }
  }

  /** The worker's pattern: 1 to 64 letters, digits, underscores and dashes. */
  lemma PatternIff(s: string)
    ensures Folder(s) <==> 1 <= |s| <= 64 && forall i | 0 <= i < |s| :: Letter(s[i])
  {
    hide Letter, Allowed;
    forall i | 0 <= i < |s| {
      SameLetters(s[i]);
    }
  }

  /** Every text is a destination with some parts, or has only slashes, if anything, and no folder. */
  lemma EveryDestination(d: string) returns (before: nat, parts: seq<string>, after: nat)
    ensures (Inner(parts) && d == Destination(before, parts, after))
         || ((forall i | 0 <= i < |d| :: d[i] == '/') && MountFolder(d).None?)
  {
    hide MountFolders.TrimLeft, MountFolders.TrimRight, Split, Join, Slug, Reserved, EndsWith, Telling;
    var left := MountFolders.TrimLeft(d, '/');
    TrimLeftPiece(d, '/');
    TrimRightPiece(left, '/');
    var t := Trim(d, '/');
    before, parts, after := |d| - |left|, Split(t, '/'), |left| - |t|;
    if t != "" {
      JoinSplit(t, '/');
      assert d == Repeated('/', before) + t + Repeated('/', after);
      assert t[0] == left[0];
      OuterParts(t);
    }
  }

  lemma OuterParts(t: string)
    requires t != "" && t[0] != '/' && t[|t| - 1] != '/'
    ensures Inner(Split(t, '/'))
  {
    hide Split, Join, Slashless;
    JoinSplit(t, '/');
    FirstPart(t);
    LastPart(Split(t, '/'));
    NoSlashes(t);
  }

  lemma NoSlashes(t: string)
    ensures Slashless(Split(t, '/'))
  {
    hide Split;
    var parts := Split(t, '/');
    forall i | 0 <= i < |parts|
      ensures '/' !in parts[i]
    {
      assert parts[i] in parts;
    }
  }

  lemma FirstPart(t: string)
    requires t != "" && t[0] != '/'
    ensures Split(t, '/')[0] != ""
  {
  }

  lemma LastPart(parts: seq<string>)
    requires parts != []
    ensures parts[|parts| - 1] == "" ==> Join(parts, '/') == "" || Join(parts, '/')[|Join(parts, '/')| - 1] == '/'
  {
    hide Join;
    var head := JoinLast(parts);
    assert head + "" == head;
  }

  /** A numbered name is the base, cut to leave room and without the dashes that then end it, a dash, and the number. */
  lemma CandidateText(base: string, suffix: nat) returns (k: nat)
    requires suffix < 100
    ensures var digits := Decimal.Render(suffix);
            && k <= |base| && Candidate(base, suffix) == base[..k] + "-" + digits && k + 1 + |digits| <= 64
            && (k > 0 ==> base[k - 1] != '-') && OnlyDashes(base, k, 64 - 1 - |digits|)
  {
    hide MountFolders.TrimRight, Decimal.Render;
    Decimal.RenderLength(suffix);
    var room := LENGTH - |"-" + Decimal.Render(suffix)|;
    TrimRightPiece(Take(base, room), '-');
    var kept := MountFolders.TrimRight(Take(base, room), '-');
    k := |kept|;
    assert kept == base[..k];
    assert kept + ("-" + Decimal.Render(suffix)) == kept + "-" + Decimal.Render(suffix);
    forall i | k <= i < room && i < |base|
      ensures base[i] == '-'
    {
      assert Take(base, room)[i] == base[i];
    }
  }
}
