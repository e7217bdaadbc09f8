/** The worker's progress reporter: buffers output lines and sends numbered progress messages. */
module ProgressReporter {
  import opened Text
  import opened LineSplitter

  const MAX_PENDING := 32

  const FLUSH_INTERVAL := 0.25

  /** What a line or a caller says of the progress; an empty phase stands for none. */
  datatype Progress = Progress(phase: string, data: string)

  const NO_PROGRESS := Progress("", "")

  datatype Message = Message(sequence: nat, progress: Progress, lines: seq<string>)

  /** `lines[-MAX_PENDING_LINES:]` */
  function Newest(lines: seq<string>): (kept: seq<string>)
    ensures |kept| <= MAX_PENDING
  {
    if |lines| <= MAX_PENDING then lines else lines[|lines| - MAX_PENDING..]
  }

  /** Whatever text follows, the lines of the stream are those that entered plus those of the unfinished text. */
  ghost predicate Tracks(received: string, entered: seq<string>, partial: string) {
    && (partial == [] || (IsPart(partial) && !EndsLine(partial)))
    && forall rest: string :: ClipAll(Lines(received + rest)) == entered + ClipAll(Lines(partial + rest))
  }

  lemma TracksFeedAt(received: string, entered: seq<string>, partial: string, chunk: string, rest: string)
    requires ClipAll(Lines(received + (chunk + rest))) == entered + ClipAll(Lines(partial + (chunk + rest)))
    ensures var step := Feed(partial, chunk);
            ClipAll(Lines(received + chunk + rest)) == entered + ClipAll(step.lines) + ClipAll(Lines(step.partial + rest))
  {
    hide Feed, Lines, IsPart, ClipAll;
    var step := Feed(partial, chunk);
    FeedKeepsLines(partial, chunk, rest);
    assert received + chunk + rest == received + (chunk + rest);
    assert partial + chunk + rest == partial + (chunk + rest);
    ClipAllConcat(step.lines, Lines(step.partial + rest));
    assert entered + ClipAll(step.lines) + ClipAll(Lines(step.partial + rest))
        == entered + (ClipAll(step.lines) + ClipAll(Lines(step.partial + rest)));
  }

  lemma TracksFeed(received: string, entered: seq<string>, partial: string, chunk: string)
    requires Tracks(received, entered, partial)
    ensures var step := Feed(partial, chunk); Tracks(received + chunk, entered + ClipAll(step.lines), step.partial)
  {
    hide Feed, Lines, IsPart, ClipAll;
    var step := Feed(partial, chunk);
    FeedKeepsLines(partial, chunk, []);
    forall rest: string
      ensures ClipAll(Lines(received + chunk + rest)) == entered + ClipAll(step.lines) + ClipAll(Lines(step.partial + rest))
    {
      TracksFeedAt(received, entered, partial, chunk, rest);
    }
  }

  lemma TracksEnd(received: string, entered: seq<string>, partial: string)
    requires Tracks(received, entered, partial)
    ensures ClipAll(Lines(received)) == entered + ClipAll(Emitted(partial))
  {
    hide Lines, IsPart;
    assert received + [] == received && partial + [] == partial;
    EmptyHasNoBreak();
    if partial != [] {
      UnfinishedPart(partial);
    }
  }

  lemma TracksNothing()
    ensures Tracks([], [], [])
  {
    hide Lines;
    forall rest: string
      ensures ClipAll(Lines([] + rest)) == [] + ClipAll(Lines([] + rest))
    {
    }
  }

  lemma ClipOne(line: string)
    requires line != []
    ensures ClipAll(Emitted(line)) == [Clip(line)]
  {
  }

  lemma ClipNone()
    ensures ClipAll([]) == [] && PartLines([]) == []
  {
  }

  lemma OneMoreClipped(parts: seq<string>, i: nat)
    requires i < |parts|
    ensures ClipAll(PartLines(parts[..i + 1]))
      == ClipAll(PartLines(parts[..i])) + if RStrip(parts[i]) != [] then [Clip(RStrip(parts[i]))] else []
  {
    hide RStrip, ClipAll, Clip;
    var line := RStrip(parts[i]);
    assert parts[..i + 1][..i] == parts[..i] && parts[..i + 1][i] == parts[i];
    ClipAllConcat(PartLines(parts[..i]), Emitted(line));
    if line != [] {
      ClipOne(line);
    } else {
      ClipNone();
    }
  }

  // Phases

  /** The last phase met, the latest progress, and whether the phase changed on the way. */
  datatype Detection = Detection(phase: string, latest: Progress, changed: bool)

  function DetectOne(parse: string -> Option<Progress>, d: Detection, line: string): Detection {
    match parse(line)
    case None => d
    case Some(p) => if p.phase != "" && p.phase != d.phase then Detection(p.phase, p, true) else d.(latest := p)
  }

  function Detect(parse: string -> Option<Progress>, d: Detection, parts: seq<string>): Detection {
    if parts == [] then d else DetectOne(parse, Detect(parse, d, parts[..|parts| - 1]), RStrip(parts[|parts| - 1]))
  }

  /** The latest progress is that of the last line that has any. */
  lemma {:induction false} LatestIsLast(parse: string -> Option<Progress>, d: Detection, parts: seq<string>, i: nat)
    requires i < |parts| && parse(RStrip(parts[i])).Some? && forall k | i < k < |parts| :: parse(RStrip(parts[k])).None?
    ensures Some(Detect(parse, d, parts).latest) == parse(RStrip(parts[i]))
    decreases |parts|
  {
    hide RStrip;
    if i < |parts| - 1 {
      LatestIsLast(parse, d, parts[..|parts| - 1], i);
    }
  }

  lemma {:induction false} NothingDetected(parse: string -> Option<Progress>, d: Detection, parts: seq<string>)
    requires forall i | 0 <= i < |parts| :: parse(RStrip(parts[i])).None?
    ensures Detect(parse, d, parts) == d
  {
    hide RStrip;
    if parts != [] {
      NothingDetected(parse, d, parts[..|parts| - 1]);
    }
  }

  /** Some line names this phase. */
  ghost predicate PhaseNamed(parse: string -> Option<Progress>, parts: seq<string>, phase: string) {
    phase != "" && exists i | 0 <= i < |parts| :: NamesAt(parse, parts[i], phase)
  }

  predicate NamesAt(parse: string -> Option<Progress>, part: string, phase: string) {
    parse(RStrip(part)).Some? && parse(RStrip(part)).value.phase == phase
  }

  lemma OneMoreNamed(parse: string -> Option<Progress>, parts: seq<string>, part: string, phase: string)
    ensures PhaseNamed(parse, parts + [part], phase) <==> PhaseNamed(parse, parts, phase) || (phase != "" && NamesAt(parse, part, phase))
  {
    hide NamesAt;
    var all := parts + [part];
    assert all[|parts|] == part && forall i | 0 <= i < |parts| :: all[i] == parts[i];
    if i :| 0 <= i < |parts| && NamesAt(parse, parts[i], phase) {
      assert NamesAt(parse, all[i], phase);
    }
  }

  /** A chunk counts as changing the phase exactly when some line names another than the one before the chunk; the phase
      after it is then one that was named. */
  lemma {:induction false} PhaseChangedIff(parse: string -> Option<Progress>, d: Detection, parts: seq<string>)
    ensures var after := Detect(parse, d, parts);
            && (after.changed <==> d.changed || exists phase :: PhaseNamed(parse, parts, phase) && phase != d.phase)
            && (after.phase == d.phase || PhaseNamed(parse, parts, after.phase))
  {
    hide RStrip;
    if parts != [] {
      hide PhaseNamed;
      var n := |parts| - 1;
      PhaseChangedIff(parse, d, parts[..n]);
      assert parts == parts[..n] + [parts[n]];
      forall phase {
        OneMoreNamed(parse, parts[..n], parts[n], phase);
      }
      var p := parse(RStrip(parts[n]));
      if p.Some? && p.value.phase != "" {
        assert PhaseNamed(parse, parts, p.value.phase);
      }
    }
  }

  /** The phase after a chunk is the one its last naming line names. */
  lemma {:induction false} PhaseIsLast(parse: string -> Option<Progress>, d: Detection, parts: seq<string>, i: nat, phase: string)
    requires i < |parts| && phase != "" && NamesAt(parse, parts[i], phase)
    requires forall k, other | i < k < |parts| && other != "" :: !NamesAt(parse, parts[k], other)
    ensures Detect(parse, d, parts).phase == phase
    decreases |parts|
  {
    hide RStrip;
    if i < |parts| - 1 {
      var n := |parts| - 1;
      PhaseIsLast(parse, d, parts[..n], i, phase);
      var p := parse(RStrip(parts[n]));
      assert p.Some? ==> NamesAt(parse, parts[n], p.value.phase);
    }
  }

  /** The newest lines are the last 32, or all. */
  lemma NewestAreLast(lines: seq<string>)
    ensures var kept := Newest(lines);
            |kept| <= |lines| && kept == lines[|lines| - |kept|..] && |kept| == if |lines| < 32 then |lines| else 32
  {
  }

  // Which lines are sent

  /** What one call of `emit` adds to the buffer, and whether it sends. */
  datatype Turn = Turn(lines: seq<string>, flushed: bool)

  function Waiting(turns: seq<Turn>): seq<string> {
    if turns == [] || turns[|turns| - 1].flushed then []
    else Newest(Waiting(turns[..|turns| - 1]) + turns[|turns| - 1].lines)
  }

  function Delivered(turns: seq<Turn>): seq<string> {
    if turns == [] then []
    else
      var before, last := turns[..|turns| - 1], turns[|turns| - 1];
      Delivered(before) + if last.flushed then Newest(Waiting(before) + last.lines) else []
  }

  function EnteredBy(turns: seq<Turn>): seq<string> {
    if turns == [] then [] else EnteredBy(turns[..|turns| - 1]) + turns[|turns| - 1].lines
  }

  /** Some turn takes the buffer above its limit. */
  predicate Overflows(turns: seq<Turn>) {
    exists i | 0 <= i < |turns| :: |Waiting(turns[..i]) + turns[i].lines| > MAX_PENDING
  }

  lemma NextTurn(turns: seq<Turn>, t: Turn)
    ensures Waiting(turns + [t]) == if t.flushed then [] else Newest(Waiting(turns) + t.lines)
    ensures Delivered(turns + [t]) == Delivered(turns) + if t.flushed then Newest(Waiting(turns) + t.lines) else []
    ensures EnteredBy(turns + [t]) == EnteredBy(turns) + t.lines
    ensures Overflows(turns + [t]) <==> Overflows(turns) || |Waiting(turns) + t.lines| > MAX_PENDING
  {
    hide Newest;
    var all := turns + [t];
    assert all[..|turns|] == turns && all[|turns|] == t;
    assert forall i | 0 <= i < |turns| :: all[..i] == turns[..i] && all[i] == turns[i];
    if i :| 0 <= i < |turns| && |Waiting(turns[..i]) + turns[i].lines| > MAX_PENDING {
      assert |Waiting(all[..i]) + all[i].lines| > MAX_PENDING;
    }
    if |Waiting(turns) + t.lines| > MAX_PENDING {
      assert |Waiting(all[..|turns|]) + all[|turns|].lines| > MAX_PENDING;
    }
  }

  /** One turn sends or keeps all but what is above the limit. */
  lemma TurnKeeps(d: seq<string>, w: seq<string>, lines: seq<string>, flushed: bool)
    ensures var kept := Newest(w + lines);
            var d', w' := d + if flushed then kept else [], if flushed then [] else kept;
            if |w + lines| <= MAX_PENDING then d' + w' == d + w + lines else |d'| + |w'| < |d| + |w| + |lines|
  {
    assert d + (w + lines) + [] == d + w + lines && d + [] == d;
  }

  /** What was sent and what waits is everything that entered exactly when no turn took the buffer above its limit; otherwise
      lines are missing. */
  lemma {:induction false} SentIsEnteredIff(turns: seq<Turn>)
    ensures !Overflows(turns) ==> Delivered(turns) + Waiting(turns) == EnteredBy(turns)
    ensures Overflows(turns) ==> |Delivered(turns)| + |Waiting(turns)| < |EnteredBy(turns)|
  {
    if turns != [] {
      hide Waiting, Delivered, EnteredBy, Overflows, Newest;
      var before, last := turns[..|turns| - 1], turns[|turns| - 1];
      assert turns == before + [last];
      SentIsEnteredIff(before);
      NextTurn(before, last);
      TurnKeeps(Delivered(before), Waiting(before), last.lines, last.flushed);
      if !Overflows(before) {
        assert |Delivered(before)| + |Waiting(before)| == |Delivered(before) + Waiting(before)|;
      }
      if |Waiting(before) + last.lines| <= MAX_PENDING {
        assert |Delivered(turns)| + |Waiting(turns)| == |Delivered(turns) + Waiting(turns)|;
      }
    }
  }

  function LinesOf(messages: seq<Message>): seq<string> {
    if messages == [] then [] else LinesOf(messages[..|messages| - 1]) + messages[|messages| - 1].lines
  }

  lemma NextMessage(messages: seq<Message>, mark: nat, m: Message)
    requires mark <= |messages|
    ensures LinesOf((messages + [m])[mark..]) == LinesOf(messages[mark..]) + m.lines
  {
    var all := messages[mark..] + [m];
    assert (messages + [m])[mark..] == all && all[..|all| - 1] == messages[mark..];
  }

  lemma NoMessages(messages: seq<Message>)
    ensures LinesOf(messages[|messages|..]) == []
  {
  }

  class JobProgressReporter {
    /** Reads progress out of one line of output. */
    const parse: string -> Option<Progress>
    var sequence: nat
    var latest: Progress
    var phase: string
    var pending: seq<string>
    var partial: string
    var lastSent: real
    /** All text given to `Emit` since the last `Finish`, the lines cut from it, the calls, and every message sent. */
    ghost var received: string
    ghost var entered: seq<string>
    ghost var turns: seq<Turn>
    ghost var sent: seq<Message>
    /** How many messages had been sent at the last `Finish`. */
    ghost var mark: nat

    ghost predicate Valid()
      reads this
    {
      && |pending| < MAX_PENDING
      && Tracks(received, entered, partial)
      && (sequence == |sent| && forall i | 0 <= i < |sent| :: sent[i].sequence == i + 1)
      && pending == Waiting(turns) && entered == EnteredBy(turns) && mark <= |sent| && LinesOf(sent[mark..]) == Delivered(turns)
    }

    constructor (parse: string -> Option<Progress>)
      ensures Valid() && received == [] && entered == [] && sent == [] && pending == [] && turns == [] && this.parse == parse
    {
      this.parse, sequence, latest, phase, pending, partial, lastSent := parse, 0, NO_PROGRESS, "", [], [], 0.0;
      received, entered, turns, sent, mark := [], [], [], [], 0;
      TracksNothing();
    }

    /** Appends the lines of complete pieces, clipped. */
    static method AppendLines(before: seq<string>, parts: seq<string>) returns (r: seq<string>)
      ensures r == before + ClipAll(PartLines(parts))
    {
      hide RStrip, ClipAll, Clip, PartLines;
      ClipNone();
      r := before;
      for i := 0 to |parts|
        invariant r == before + ClipAll(PartLines(parts[..i]))
      {
        var line := RStrip(parts[i]);
        OneMoreClipped(parts, i);
        if line != [] {
          r := r + [Clip(line)];
        }
      }
      assert parts[..|parts|] == parts;
    }

    /** The phases and progress the complete pieces speak of. */
    method DetectLines(parts: seq<string>) returns (changed: bool)
      modifies this`latest, this`phase
      ensures Detection(phase, latest, changed) == Detect(parse, Detection(old(phase), old(latest), false), parts)
    {
      hide RStrip;
      changed := false;
      ghost var start := Detection(phase, latest, false);
      for i := 0 to |parts|
        invariant Detection(phase, latest, changed) == Detect(parse, start, parts[..i])
      {
        assert parts[..i + 1][..i] == parts[..i];
        var parsed := parse(RStrip(parts[i]));
        if parsed.Some? {
          if parsed.value.phase != "" && parsed.value.phase != phase {
            phase := parsed.value.phase;
            changed := true;
          }
          latest := parsed.value;
        }
      }
      assert parts[..|parts|] == parts;
    }

    /** The first half of `emit`: cut the chunk, clip the lines, keep the newest, and look for progress. */
    method TakeChunk(chunk: string) returns (changed: bool)
      requires Valid()
      modifies this`pending, this`partial, this`latest, this`phase, this`received, this`entered
      ensures Tracks(received, entered, partial) && received == old(received) + chunk
      ensures var lines := ClipAll(Feed(old(partial), chunk).lines);
              pending == Newest(old(pending) + lines) && entered == old(entered) + lines
      ensures partial == Feed(old(partial), chunk).partial
      ensures Detection(phase, latest, changed)
           == Detect(parse, Detection(old(phase), old(latest), false), Pieces(old(partial) + chunk))
    {
      hide Tracks, SplitLines, PartLines, ClipAll, EndsLine, Newest, Waiting, Delivered, EnteredBy, Detect;
      TracksFeed(received, entered, partial, chunk);
      var text := partial + chunk;
      var parts := SplitLines(text);
      partial := [];
      if parts != [] && !EndsLine(parts[|parts| - 1]) {
        partial := parts[|parts| - 1];
        parts := parts[..|parts| - 1];
      }
      pending := AppendLines(pending, parts);
      pending := Newest(pending);
      changed := DetectLines(parts);
      received, entered := received + chunk, entered + ClipAll(PartLines(parts));
    }

    /** What waits is sent. */
    method Flush(now: real) returns (message: Message)
      requires mark <= |sent|
      modifies this`pending, this`sequence, this`lastSent, this`sent
      ensures message == Message(old(sequence) + 1, latest, old(pending)) && sequence == old(sequence) + 1
      ensures pending == [] && lastSent == now && sent == old(sent) + [message]
      ensures LinesOf(sent[mark..]) == LinesOf(old(sent)[mark..]) + old(pending)
    {
      hide LinesOf;
      message := Message(sequence + 1, latest, pending);
      NextMessage(sent, mark, message);
      pending, sequence, lastSent, sent := [], sequence + 1, now, sent + [message];
    }

    /** `now` is the monotonic clock. */
    method Emit(chunk: string, progress: Option<Progress>, force: bool, now: real) returns (message: Option<Message>)
      requires Valid()
      modifies this
      ensures Valid() && mark == old(mark)
      ensures received == old(received) + chunk
      ensures partial == if chunk == [] then old(partial) else Feed(old(partial), chunk).partial
      ensures entered == old(entered) + if chunk == [] then [] else ClipAll(Feed(old(partial), chunk).lines)
      ensures var buffer := if chunk == [] then old(pending) else Newest(old(pending) + ClipAll(Feed(old(partial), chunk).lines));
              var d := Met(old(phase), old(latest), old(partial), chunk);
              && (message.Some? <==> force || d.changed || |buffer| >= MAX_PENDING || now - old(lastSent) >= FLUSH_INTERVAL)
              && (message.Some? ==> message.value == Message(old(sequence) + 1, latest, buffer) && pending == [] && lastSent == now)
              && (message.None? ==> pending == buffer && lastSent == old(lastSent))
              && phase == d.phase && latest == if progress.Some? then progress.value else d.latest
      ensures sent == old(sent) + if message.Some? then [message.value] else []
      ensures turns == old(turns) + [Turn(if chunk == [] then [] else ClipAll(Feed(old(partial), chunk).lines), message.Some?)]
    {
      hide Tracks, Feed, ClipAll, Waiting, Delivered, EnteredBy, LinesOf, Detect, Pieces;
      var changed := false;
      ghost var lines: seq<string> := [];
      if chunk != [] {
        changed := TakeChunk(chunk);
        lines := ClipAll(Feed(old(partial), chunk).lines);
      } else {
        assert received + chunk == received;
        assert entered + [] == entered && pending + [] == pending;
      }
      if progress.Some? {
        latest := progress.value;
      }
      var shouldFlush := force || changed || |pending| >= MAX_PENDING || now - lastSent >= FLUSH_INTERVAL;
      NextTurn(turns, Turn(lines, shouldFlush));
      turns := turns + [Turn(lines, shouldFlush)];
      if !shouldFlush {
        return None;
      }
      var m := Flush(now);
      return Some(m);
    }

    ghost function Met(phase: string, latest: Progress, partial: string, chunk: string): Detection {
      var d := Detection(phase, latest, false);
      if chunk == [] then d else Detect(parse, d, Pieces(partial + chunk))
    }

    /** At the end of the stream the unfinished line enters the buffer and everything left is sent: all lines of the text have
        then been sent exactly when no call took the buffer above its limit. */
    method Finish(now: real) returns (message: Message, ghost lines: seq<string>)
      requires Valid()
      modifies this
      ensures Valid() && pending == [] && partial == [] && received == [] && turns == [] && mark == |sent| && lastSent == now
      ensures lines == ClipAll(LineSplitter.Lines(old(received)))
      ensures lines == old(entered) + ClipAll(Emitted(old(partial)))
      ensures message == Message(old(sequence) + 1, old(latest), old(pending) + ClipAll(Emitted(old(partial))))
      ensures sent == old(sent) + [message] && phase == old(phase) && latest == old(latest)
      ensures LinesOf(sent[old(mark)..]) == lines <==> !Overflows(old(turns))
    {
      hide Tracks, Clip, ClipAll, Waiting, Delivered, EnteredBy, LinesOf, Overflows;
      TracksEnd(received, entered, partial);
      assert pending + [] == pending;
      ClipNone();
      if partial != [] {
        ClipOne(partial);
        pending := pending + [Clip(partial)];
        partial := [];
      }
      lines := ClipAll(LineSplitter.Lines(received));
      // `emit("", force=True)`
      SentIsEnteredIff(turns);
      message := Flush(now);
      NoMessages(sent);
      received, entered, turns, mark := [], [], [], |sent|;
      NothingYet();
      TracksNothing();
    }
  }

  lemma NothingYet()
    ensures Waiting([]) == [] && Delivered([]) == [] && EnteredBy([]) == []
  {
  }
}
