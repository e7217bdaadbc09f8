/** How the progress reporter cuts a stream of text chunks into lines. */
module LineSplitter {

  const MAX_LINE := 16 * 1024

  predicate IsCrLf(c: char) {
    c == '\r' || c == '\n'
  }

  /** The other characters at which `str.splitlines` ends a line: VT, FF, FS, GS, RS, NEL, LS, PS. */
  predicate IsOtherBreak(c: char) {
    c in {'\U{0B}', '\U{0C}', '\U{1C}', '\U{1D}', '\U{1E}', '\U{85}', '\U{2028}', '\U{2029}'}
  }

  predicate IsBreak(c: char) {
    IsCrLf(c) || IsOtherBreak(c)
  }

  function Emitted(run: string): seq<string> {
    if run == [] then [] else [run]
  }

  /** The lines of a whole text that continues the unfinished line `run`, read character by character:
      CR and LF end a line and are dropped, any other break ends a line and stays in it. */
  function LinesFrom(run: string, text: string): seq<string>
    decreases |text|
  {
    if text == [] then Emitted(run)
    else if IsCrLf(text[0]) then Emitted(run) + LinesFrom([], text[1..])
    else if IsOtherBreak(text[0]) then [run + [text[0]]] + LinesFrom([], text[1..])
    else LinesFrom(run + [text[0]], text[1..])
  }

  function Lines(text: string): seq<string> {
    LinesFrom([], text)
  }

  /** The maximal runs of characters other than CR and LF. */
  function RunsFrom(run: string, text: string): seq<string>
    decreases |text|
  {
    if text == [] then Emitted(run)
    else if IsCrLf(text[0]) then Emitted(run) + RunsFrom([], text[1..])
    else RunsFrom(run + [text[0]], text[1..])
  }

  function Runs(text: string): seq<string> {
    RunsFrom([], text)
  }

  /** A break other than CR and LF has more of its run behind it. */
  predicate BreaksInside(text: string) {
    exists i :: 0 <= i < |text| - 1 && IsOtherBreak(text[i]) && !IsCrLf(text[i + 1])
  }

  lemma {:induction false} NeverFewerLines(run: string, run': string, text: string)
    requires run != [] ==> run' != []
    ensures |RunsFrom(run', text)| <= |LinesFrom(run, text)| + (if run == [] && run' != [] then 1 else 0)
    decreases |text|
  {
    if text != [] {
      var rest := text[1..];
      if IsCrLf(text[0]) {
        NeverFewerLines([], [], rest);
      } else if IsOtherBreak(text[0]) {
        NeverFewerLines([], run' + [text[0]], rest);
      } else {
        NeverFewerLines(run + [text[0]], run' + [text[0]], rest);
      }
    }
  }

  lemma {:induction false} MoreLines(run: string, run': string, text: string)
    requires (run != [] ==> run' != []) && BreaksInside(text)
    ensures |RunsFrom(run', text)| < |LinesFrom(run, text)| + (if run == [] && run' != [] then 1 else 0)
    decreases |text|
  {
    var c, rest := text[0], text[1..];
    if IsOtherBreak(c) && !IsCrLf(text[1]) {
      var d := text[1];
      if IsOtherBreak(d) {
        NeverFewerLines([], run' + [c] + [d], rest[1..]);
      } else {
        NeverFewerLines([] + [d], run' + [c] + [d], rest[1..]);
      }
    } else {
      var i :| 0 <= i < |text| - 1 && IsOtherBreak(text[i]) && !IsCrLf(text[i + 1]);
      assert IsOtherBreak(rest[i - 1]) && !IsCrLf(rest[i]);
      if IsCrLf(c) {
        MoreLines([], [], rest);
      } else if IsOtherBreak(c) {
        MoreLines([], run' + [c], rest);
      } else {
        MoreLines(run + [c], run' + [c], rest);
      }
    }
  }

  lemma TailBreaks(text: string)
    requires text != [] && BreaksInside(text[1..])
    ensures BreaksInside(text)
  {
    var rest := text[1..];
    var i :| 0 <= i < |rest| - 1 && IsOtherBreak(rest[i]) && !IsCrLf(rest[i + 1]);
    assert IsOtherBreak(text[i + 1]) && !IsCrLf(text[i + 2]);
  }

  lemma {:induction false} SameLines(run: string, text: string)
    requires !BreaksInside(text)
    ensures RunsFrom(run, text) == LinesFrom(run, text)
    decreases |text|
  {
    if text != [] {
      var rest := text[1..];
      if BreaksInside(rest) {
        TailBreaks(text);
      }
      if IsCrLf(text[0]) {
        SameLines([], rest);
      } else if IsOtherBreak(text[0]) {
        if rest != [] {
          assert IsCrLf(text[1]);
          if BreaksInside(rest[1..]) {
            TailBreaks(rest);
          }
          SameLines([], rest[1..]);
        }
      } else {
        SameLines(run + [text[0]], rest);
      }
    }
  }

  /** Lines are the maximal runs between CR and LF exactly when no other break has text behind it. */
  lemma LinesAreRunsIff(text: string)
    ensures Lines(text) == Runs(text) <==> !BreaksInside(text)
  {
    if BreaksInside(text) {
      MoreLines([], [], text);
    } else {
      SameLines([], text);
    }
  }

  // The splitter

  function LineLength(s: string): (k: nat)
    requires s != []
    ensures 0 < k <= |s|
  {
    if s[0] == '\r' && |s| > 1 && s[1] == '\n' then 2
    else if IsBreak(s[0]) || |s| == 1 then 1
    else 1 + LineLength(s[1..])
  }

  /** `s.splitlines(keepends=True)` */
  function SplitLines(s: string): seq<string> {
    if s == [] then [] else [s[..LineLength(s)]] + SplitLines(s[LineLength(s)..])
  }

  /** `part.rstrip("\r\n")` */
  function RStrip(part: string): string {
    if part != [] && IsCrLf(part[|part| - 1]) then RStrip(part[..|part| - 1]) else part
  }

  function EndsLine(part: string): bool {
    part != [] && IsCrLf(part[|part| - 1])
  }

  function Clip(line: string): string {
    if |line| <= MAX_LINE then line else line[..MAX_LINE]
  }

  function ClipAll(lines: seq<string>): (r: seq<string>)
    ensures |r| == |lines| && forall i | 0 <= i < |lines| :: r[i] == Clip(lines[i])
  {
    if lines == [] then [] else [Clip(lines[0])] + ClipAll(lines[1..])
  }

  /** Of each line its start is kept, at most 16384 characters. */
  lemma ClippedStarts(lines: seq<string>, i: nat)
    requires i < |lines|
    ensures ClipAll(lines)[i] <= lines[i]
    ensures |ClipAll(lines)[i]| == if |lines[i]| < 16384 then |lines[i]| else 16384
  {
  }

  lemma ClipAllConcat(a: seq<string>, b: seq<string>)
    ensures ClipAll(a + b) == ClipAll(a) + ClipAll(b)
  {
  }

  function PartLines(parts: seq<string>): seq<string> {
    if parts == [] then []
    else PartLines(parts[..|parts| - 1]) + Emitted(RStrip(parts[|parts| - 1]))
  }

  /** The finished pieces of a text. */
  function Pieces(text: string): seq<string> {
    var parts := SplitLines(text);
    if parts != [] && !EndsLine(parts[|parts| - 1]) then parts[..|parts| - 1] else parts
  }

  datatype Step = Step(lines: seq<string>, partial: string)

  /** What one chunk adds: finished lines, and the unfinished one kept for the next chunk. */
  function Feed(partial: string, chunk: string): Step {
    var parts := SplitLines(partial + chunk);
    if parts != [] && !EndsLine(parts[|parts| - 1])
    then Step(PartLines(parts[..|parts| - 1]), parts[|parts| - 1])
    else Step(PartLines(parts), [])
  }

  /** The lines a chunk finishes are those of its finished pieces. */
  lemma FinishedPieces(partial: string, chunk: string)
    ensures Feed(partial, chunk).lines == PartLines(Pieces(partial + chunk))
    ensures var parts := SplitLines(partial + chunk);
            parts == Pieces(partial + chunk) + if Feed(partial, chunk).partial == [] then [] else [Feed(partial, chunk).partial]
  {
    hide PartLines, EndsLine;
    var parts := SplitLines(partial + chunk);
    PiecesNotEmpty(partial + chunk);
    assert parts + [] == parts;
  }

  lemma {:induction false} PiecesNotEmpty(s: string)
    ensures forall i | 0 <= i < |SplitLines(s)| :: SplitLines(s)[i] != []
  {
    if s != [] {
      PiecesNotEmpty(s[LineLength(s)..]);
    }
  }

  /** One piece of `splitlines`: nothing breaks inside it. */
  predicate IsPart(part: string) {
    part == [] || (part[|part| - 1] == '\n' && |part| > 1 && part[|part| - 2] == '\r' && NoBreak(part[..|part| - 2]))
    || NoBreak(part[..|part| - 1])
  }

  predicate NoBreak(s: string) {
    forall i | 0 <= i < |s| :: !IsBreak(s[i])
  }

  lemma {:induction false} RunOn(run: string, s: string, rest: string)
    requires NoBreak(s)
    ensures LinesFrom(run, s + rest) == LinesFrom(run + s, rest)
    decreases |s|
  {
    if s == [] {
      assert s + rest == rest && run + s == run;
    } else {
      assert (s + rest)[1..] == s[1..] + rest && run + [s[0]] + s[1..] == run + s;
      RunOn(run + [s[0]], s[1..], rest);
    }
  }

  lemma {:induction false} FirstPart(s: string)
    requires s != []
    ensures IsPart(s[..LineLength(s)])
    ensures LineLength(s) < |s| ==> IsBreak(s[LineLength(s) - 1])
    decreases |s|
  {
    var k := LineLength(s);
    if !(s[0] == '\r' && |s| > 1 && s[1] == '\n') && !IsBreak(s[0]) && |s| > 1 {
      FirstPart(s[1..]);
      var tail := s[1..][..k - 1];
      assert s[..k] == [s[0]] + tail;
      assert s[..k][..k - 1] == [s[0]] + tail[..k - 2];
      if k > 2 {
        assert s[..k][..k - 2] == [s[0]] + tail[..k - 3];
      }
    }
  }

  lemma StripPart(part: string)
    requires part != [] && IsPart(part)
    ensures !IsCrLf(part[|part| - 1]) ==> RStrip(part) == part
    ensures IsCrLf(part[|part| - 1]) ==> RStrip(part) == (if part[|part| - 1] == '\n' && |part| > 1 && part[|part| - 2] == '\r' then part[..|part| - 2] else part[..|part| - 1])
  {
    var n := |part|;
    if IsCrLf(part[n - 1]) {
      if part[n - 1] == '\n' && n > 1 && part[n - 2] == '\r' {
        assert part[..n - 1][..n - 2] == part[..n - 2];
        assert n > 2 ==> !IsBreak(part[..n - 2][n - 3]);
      } else {
        assert n > 1 ==> !IsBreak(part[..n - 1][n - 2]);
      }
    }
  }

  lemma EndAtBreak(body: string, c: char, rest: string)
    requires NoBreak(body) && IsBreak(c)
    ensures Lines(body + [c] + rest) == (if IsCrLf(c) then Emitted(body) else [body + [c]]) + Lines(rest)
  {
    RunOn([], body, [c] + rest);
    assert [] + body == body && body + [c] + rest == body + ([c] + rest);
    assert ([c] + rest)[1..] == rest;
  }

  lemma EndAtCrLf(body: string, rest: string)
    requires NoBreak(body)
    ensures Lines(body + "\r\n" + rest) == Emitted(body) + Lines(rest)
  {
    hide Lines, NoBreak;
    EmptyHasNoBreak();
    EndAtBreak(body, '\r', "\n" + rest);
    EndAtBreak([], '\n', rest);
    assert body + "\r\n" + rest == body + ['\r'] + ("\n" + rest);
    assert "\n" + rest == [] + ['\n'] + rest;
  }

  lemma EmptyHasNoBreak()
    ensures NoBreak([]) && Lines([]) == []
  {
  }

  lemma Terminator(part: string) returns (body: string, c: char, crlf: bool)
    requires part != [] && IsPart(part) && IsBreak(part[|part| - 1])
    ensures NoBreak(body) && IsBreak(c)
    ensures crlf ==> part == body + "\r\n" && RStrip(part) == body
    ensures !crlf ==> part == body + [c] && RStrip(part) == if IsCrLf(c) then body else part
  {
    hide RStrip;
    StripPart(part);
    var n := |part|;
    c := part[n - 1];
    crlf := c == '\n' && n > 1 && part[n - 2] == '\r';
    if crlf {
      body := part[..n - 2];
      assert IsBreak(part[..n - 1][n - 2]);
      assert part == body + "\r\n";
    } else {
      body := part[..n - 1];
      assert part == body + [c];
    }
  }

  /** A piece that ends in a break contributes its own line and nothing else. */
  lemma PartThenRest(part: string, rest: string)
    requires part != [] && IsPart(part) && IsBreak(part[|part| - 1])
    ensures Lines(part + rest) == Emitted(RStrip(part)) + Lines(rest)
  {
    hide Lines, RStrip, IsBreak, NoBreak, IsPart;
    var body, c, crlf := Terminator(part);
    if crlf {
      EndAtCrLf(body, rest);
    } else {
      EndAtBreak(body, c, rest);
    }
  }

  /** A last piece without CR or LF at its end is one line. */
  lemma UnfinishedPart(part: string)
    requires part != [] && IsPart(part) && !EndsLine(part)
    ensures Lines(part) == [part]
  {
    var n := |part|;
    var body, c := part[..n - 1], part[n - 1];
    assert part == body + [c] + [] == body + ([c] + []);
    EmptyHasNoBreak();
    if IsBreak(c) {
      EndAtBreak(body, c, []);
      assert body + [c] == part;
      assert [part] + [] == [part];
    } else {
      assert NoBreak(part);
      RunOn([], part, []);
      assert part + [] == part && [] + part == part;
    }
  }

  ghost predicate GoodParts(parts: seq<string>) {
    forall i | 0 <= i < |parts| :: parts[i] != [] && IsPart(parts[i]) && (i < |parts| - 1 ==> IsBreak(parts[i][|parts[i]| - 1]))
  }

  function Flatten(parts: seq<string>): string {
    if parts == [] then [] else parts[0] + Flatten(parts[1..])
  }

  lemma NoPartsGood()
    ensures GoodParts([])
  {
  }

  lemma GoodCons(part: string, parts: seq<string>)
    requires GoodParts(parts) && part != [] && IsPart(part) && (parts != [] ==> IsBreak(part[|part| - 1]))
    ensures GoodParts([part] + parts) && Flatten([part] + parts) == part + Flatten(parts)
  {
    hide IsPart, IsBreak;
    var all := [part] + parts;
    assert all[1..] == parts;
    assert forall i | 0 <= i < |parts| :: all[i + 1] == parts[i];
  }

  lemma SplitLinesCons(s: string)
    requires s != []
    ensures SplitLines(s) == [s[..LineLength(s)]] + SplitLines(s[LineLength(s)..])
    ensures SplitLines(s[LineLength(s)..]) != [] <==> LineLength(s) < |s|
  {
    hide LineLength;
  }

  lemma {:induction false} SplitLinesGood(s: string)
    ensures Flatten(SplitLines(s)) == s && GoodParts(SplitLines(s))
    decreases |s|
  {
    hide IsPart, IsBreak, LineLength, GoodParts;
    if s == [] {
      NoPartsGood();
    } else {
      hide SplitLines, Flatten;
      var k := LineLength(s);
      FirstPart(s);
      SplitLinesCons(s);
      SplitLinesGood(s[k..]);
      GoodCons(s[..k], SplitLines(s[k..]));
      assert s[..k] + s[k..] == s;
    }
  }

  lemma {:induction false} PartLinesCons(parts: seq<string>)
    requires parts != []
    ensures PartLines(parts) == Emitted(RStrip(parts[0])) + PartLines(parts[1..])
    decreases |parts|
  {
    var n := |parts| - 1;
    if n > 0 {
      PartLinesCons(parts[..n]);
      assert parts[..n][1..] == parts[1..][..n - 1];
    }
  }

  ghost predicate AllBroken(parts: seq<string>) {
    forall i | 0 <= i < |parts| :: parts[i] != [] && IsBreak(parts[i][|parts[i]| - 1])
  }

  lemma NoParts()
    ensures Flatten([]) == [] && PartLines([]) == []
  {
  }

  lemma GoodRest(parts: seq<string>)
    requires GoodParts(parts) && AllBroken(parts) && parts != []
    ensures GoodParts(parts[1..]) && AllBroken(parts[1..])
    ensures parts[0] != [] && IsPart(parts[0]) && IsBreak(parts[0][|parts[0]| - 1])
  {
    hide IsPart, IsBreak;
    assert forall i | 0 <= i < |parts| - 1 :: parts[1..][i] == parts[i + 1];
  }

  /** All pieces but the last, followed by any text. */
  lemma {:induction false} PartsThenRest(parts: seq<string>, rest: string)
    requires GoodParts(parts) && AllBroken(parts)
    ensures Lines(Flatten(parts) + rest) == PartLines(parts) + Lines(rest)
    decreases |parts|
  {
    hide Lines, IsPart, RStrip, IsBreak, GoodParts, AllBroken, PartLines, Flatten;
    if parts == [] {
      NoParts();
      assert [] + rest == rest;
    } else {
      GoodRest(parts);
      PartsThenRest(parts[1..], rest);
      PartLinesCons(parts);
      FlattenCons(parts);
      assert Flatten(parts) + rest == parts[0] + (Flatten(parts[1..]) + rest);
      PartThenRest(parts[0], Flatten(parts[1..]) + rest);
    }
  }

  lemma FlattenCons(parts: seq<string>)
    requires parts != []
    ensures Flatten(parts) == parts[0] + Flatten(parts[1..])
    ensures |parts| == 1 ==> Flatten(parts[1..]) == [] && Flatten(parts[..0]) == []
  {
  }

  lemma {:induction false} FlattenSnoc(parts: seq<string>)
    requires parts != []
    ensures Flatten(parts) == Flatten(parts[..|parts| - 1]) + parts[|parts| - 1]
    decreases |parts|
  {
    hide Flatten;
    var n := |parts| - 1;
    FlattenCons(parts);
    if n > 0 {
      var rest, init := parts[1..], parts[..n];
      FlattenSnoc(rest);
      FlattenCons(init);
      assert rest[..n - 1] == init[1..] && rest[n - 1] == parts[n];
    }
  }

  /** The last piece continues in the next chunk, the others are finished. */
  lemma GoodSplit(parts: seq<string>)
    requires GoodParts(parts) && parts != []
    ensures var init, last := parts[..|parts| - 1], parts[|parts| - 1];
            GoodParts(init) && AllBroken(init) && IsPart(last) && (EndsLine(last) ==> AllBroken(parts))
  {
    hide IsPart, IsOtherBreak;
    var init := parts[..|parts| - 1];
    assert forall i | 0 <= i < |init| :: init[i] == parts[i];
  }

  /** Feeding a chunk moves finished lines out of the unfinished text and loses nothing. */
  lemma FeedKeepsLines(partial: string, chunk: string, rest: string)
    ensures var step := Feed(partial, chunk);
            Lines(partial + chunk + rest) == step.lines + Lines(step.partial + rest)
    ensures Feed(partial, chunk).partial == [] || (IsPart(Feed(partial, chunk).partial) && !EndsLine(Feed(partial, chunk).partial))
  {
    hide Lines, PartLines, SplitLines, Flatten, IsPart, GoodParts, EndsLine;
    var s := partial + chunk;
    var parts := SplitLines(s);
    SplitLinesGood(s);
    if parts != [] {
      GoodSplit(parts);
    }
    if parts != [] && !EndsLine(parts[|parts| - 1]) {
      var init, last := parts[..|parts| - 1], parts[|parts| - 1];
      FlattenSnoc(parts);
      assert s + rest == Flatten(init) + (last + rest);
      PartsThenRest(init, last + rest);
    } else {
      PartsThenRest(parts, rest);
      assert [] + rest == rest;
    }
  }

  /** Lines entered while the chunks arrive, then the unfinished one when the stream ends. */
  function Entered(partial: string, chunks: seq<string>): seq<string>
    decreases |chunks|
  {
    if chunks == [] then Emitted(partial)
    else var step := Feed(partial, chunks[0]); step.lines + Entered(step.partial, chunks[1..])
  }

  lemma {:induction false} ChunkedLines(partial: string, chunks: seq<string>)
    requires partial == [] || (IsPart(partial) && !EndsLine(partial))
    ensures Entered(partial, chunks) == Lines(partial + Flatten(chunks))
    decreases |chunks|
  {
    hide Lines, IsPart, Feed;
    if chunks == [] {
      EmptyHasNoBreak();
      assert partial + Flatten(chunks) == partial;
      if partial != [] {
        UnfinishedPart(partial);
      }
    } else {
      var rest := Flatten(chunks[1..]);
      FeedKeepsLines(partial, chunks[0], rest);
      ChunkedLines(Feed(partial, chunks[0]).partial, chunks[1..]);
      assert partial + Flatten(chunks) == partial + chunks[0] + rest;
    }
  }

  /** However a text is cut into chunks, the same lines enter the buffer. */
  lemma ChunkingIsIrrelevant(chunks: seq<string>)
    ensures Entered([], chunks) == Lines(Flatten(chunks))
    ensures !BreaksInside(Flatten(chunks)) ==> Entered([], chunks) == Runs(Flatten(chunks))
  {
    ChunkedLines([], chunks);
    assert [] + Flatten(chunks) == Flatten(chunks);
    LinesAreRunsIff(Flatten(chunks));
  }
}
