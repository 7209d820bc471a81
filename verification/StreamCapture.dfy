// The stream that splits captured output into log lines, and the gate that
// silences it during prompts.
// Source: connector/delivery/cli/stream_capture.py, connector/common/interactive_io.py
module StreamCapture {
  import opened Basics
  import opened PyText

  // ----- lines ------------------------------------------------------------------------

  datatype Redaction = Redaction(apply: string -> string)

  function Sanitize(e: Redaction, line: string): string {
    e.apply(RStrip(line))
  }

  // What one line adds to the log.
  function Emit(e: Redaction, line: string): seq<string> {
    if Blank(line) then [] else [Sanitize(e, line)]
  }

  // `text.split("\n")`
  ghost function Split(text: string): (parts: seq<string>)
    ensures parts != []
  {
    if '\n' !in text then [text] else
      var i := Find(text, '\n');
      [text[..i]] + Split(text[i + 1..])
  }

  ghost function EmitAll(e: Redaction, lines: seq<string>): seq<string> {
    if lines == [] then [] else Emit(e, lines[0]) + EmitAll(e, lines[1..])
  }

  // The complete lines of a text, and what follows the last newline.
  ghost function Lines(text: string): seq<string> {
    Split(text)[..|Split(text)| - 1]
  }

  ghost function Tail(text: string): string {
    Last(Split(text))
  }

  lemma {:induction false} EmitAllAppend(e: Redaction, a: seq<string>, b: seq<string>)
    ensures EmitAll(e, a + b) == EmitAll(e, a) + EmitAll(e, b)
  {
    if a == [] {
      assert a + b == b;
    } else {
      assert (a + b)[1..] == a[1..] + b;
      EmitAllAppend(e, a[1..], b);
    }
  }

  // Each line that is not blank gives one entry, in order: the line without what trails it,
  // redacted.
  ghost predicate EmittedAt(e: Redaction, lines: seq<string>, i: int, k: nat, x: string) {
    && 0 <= i < |lines| && !Blank(lines[i]) && |Places(lines[..i], (line: string) => !Blank(line))| == k
    && x == e.apply(RStrip(lines[i]))
  }

  ghost predicate Emitted(e: Redaction, lines: seq<string>, k: nat, x: string) {
    exists i :: EmittedAt(e, lines, i, k, x)
  }

  lemma {:induction false} EmitAllMeans(e: Redaction, lines: seq<string>)
    ensures |EmitAll(e, lines)| == |Places(lines, (line: string) => !Blank(line))|
    ensures forall k :: 0 <= k < |EmitAll(e, lines)| ==> Emitted(e, lines, k, EmitAll(e, lines)[k])
  {
    if lines == [] {
    } else {
      var front, last := lines[..|lines| - 1], Last(lines);
      assert lines == front + [last] && [last][1..] == [];
      EmitAllMeans(e, front);
      EmitAllAppend(e, front, [last]);
      PlacesSnoc(front, last, (line: string) => !Blank(line));
      assert EmitAll(e, lines) == EmitAll(e, front) + Emit(e, last);
      forall k | 0 <= k < |EmitAll(e, lines)| ensures Emitted(e, lines, k, EmitAll(e, lines)[k]) {
        if k < |EmitAll(e, front)| {
          var i :| EmittedAt(e, front, i, k, EmitAll(e, front)[k]);
          assert lines[..i] == front[..i];
          assert EmittedAt(e, lines, i, k, EmitAll(e, lines)[k]);
        } else {
          assert EmittedAt(e, lines, |front|, k, EmitAll(e, lines)[k]);
        }
      }
    }
  }

  // Joining the parts with newlines gives the text back, and no part holds one.
  ghost function Join(parts: seq<string>): string
    requires parts != []
  {
    if |parts| == 1 then parts[0] else parts[0] + "\n" + Join(parts[1..])
  }

  lemma {:induction false} SplitSpellsText(text: string)
    ensures Join(Split(text)) == text
    ensures forall p :: p in Split(text) ==> '\n' !in p
    decreases |text|
  {
    if '\n' in text {
      var i := Find(text, '\n');
      SplitSpellsText(text[i + 1..]);
      assert text == text[..i] + "\n" + text[i + 1..];
    }
  }

  // The first newline of a text.
  ghost predicate FirstBreak(text: string, i: int) {
    0 <= i < |text| && text[i] == '\n' && '\n' !in text[..i]
  }

  lemma BreakIsFound(text: string, i: int)
    requires FirstBreak(text, i)
    ensures '\n' in text && Find(text, '\n') == i
  {
    var j := Find(text, '\n');
    assert forall k :: 0 <= k < j ==> text[..j][k] == text[k];
    assert forall k :: 0 <= k < i ==> text[..i][k] == text[k];
  }

  lemma SplitAtBreak(text: string, i: int)
    requires FirstBreak(text, i)
    ensures Split(text) == [text[..i]] + Split(text[i + 1..])
  {
    BreakIsFound(text, i);
  }

  lemma LinesAtBreak(text: string, i: int)
    requires FirstBreak(text, i)
    ensures Lines(text) == [text[..i]] + Lines(text[i + 1..]) && Tail(text) == Tail(text[i + 1..])
  {
    SplitAtBreak(text, i);
    ButLast([text[..i]], Split(text[i + 1..]));
  }

  lemma ButLast(a: seq<string>, b: seq<string>)
    requires b != []
    ensures (a + b)[..|a + b| - 1] == a + b[..|b| - 1] && Last(a + b) == Last(b)
  {}

  lemma WithoutBreak(text: string)
    requires '\n' !in text
    ensures Split(text) == [text] && Lines(text) == [] && Tail(text) == text
  {}

  lemma BreakInPrefix(a: string, b: string, i: int)
    requires FirstBreak(a, i)
    ensures FirstBreak(a + b, i) && (a + b)[..i] == a[..i] && (a + b)[i + 1..] == a[i + 1..] + b
  {}

  // Cutting a text anywhere: the first piece's last part runs on into the rest.
  lemma {:induction false} SplitAppend(a: string, b: string)
    ensures Split(a + b) == Lines(a) + Split(Tail(a) + b)
    decreases |a|
  {
    if '\n' !in a {
      WithoutBreak(a);
      assert [] + Split(a + b) == Split(a + b);
    } else {
      var i := Find(a, '\n');
      var line, rest := a[..i], a[i + 1..];
      BreakInPrefix(a, b, i);
      SplitAtBreak(a + b, i);
      LinesAtBreak(a, i);
      SplitAppend(rest, b);
      ConcatAssoc([line], Lines(rest), Split(Tail(rest) + b));
    }
  }

  lemma LinesAppend(a: string, b: string)
    ensures Lines(a + b) == Lines(a) + Lines(Tail(a) + b)
    ensures Tail(a + b) == Tail(Tail(a) + b)
  {
    SplitAppend(a, b);
    ButLast(Lines(a), Split(Tail(a) + b));
  }

  lemma TailHasNoNewline(text: string)
    ensures '\n' !in Tail(text)
    ensures '\n' !in text ==> Lines(text) == [] && Tail(text) == text
  {
    SplitSpellsText(text);
  }

  // ----- what each call does --------------------------------------------------------------

  datatype Event = Write(text: string) | Flush | Enter | Exit

  datatype Capture = Capture(buffer: string, log: seq<string>, depth: nat)

  ghost function Step(e: Redaction, s: Capture, event: Event): Capture {
    match event
    case Write(text) =>
      if text == "" then s
      else if s.depth > 0 then s.(buffer := "")
      else Capture(Tail(s.buffer + text), s.log + EmitAll(e, Lines(s.buffer + text)), s.depth)
    case Flush => if s.depth > 0 then s.(buffer := "") else Capture("", s.log + Emit(e, s.buffer), s.depth)
    case Enter => s.(depth := s.depth + 1)
    case Exit => s.(depth := if s.depth == 0 then 0 else s.depth - 1)
  }

  ghost function Run(e: Redaction, s: Capture, events: seq<Event>): Capture {
    if events == [] then s else Step(e, Run(e, s, events[..|events| - 1]), Last(events))
  }

  // ----- the classes ------------------------------------------------------------------------

  class InteractiveIoGate {
    var activeDepth: nat

    constructor ()
      ensures activeDepth == 0
    {
      activeDepth := 0;
    }

    method EnterSection()
      modifies this
      ensures activeDepth == old(activeDepth) + 1
    {
      activeDepth := activeDepth + 1;
    }

    method ExitSection()
      modifies this
      ensures activeDepth == if old(activeDepth) == 0 then 0 else old(activeDepth) - 1
    {
      activeDepth := if activeDepth - 1 > 0 then activeDepth - 1 else 0;
    }

    predicate IsActive()
      reads this
    {
      activeDepth > 0
    }
  }

  class StdStreamToLogger {
    const gate: InteractiveIoGate?
    const redaction: Redaction
    var buffer: string
    var log: seq<string>

    constructor (gate: InteractiveIoGate?, redaction: Redaction)
      ensures this.gate == gate && this.redaction == redaction && buffer == "" && log == []
    {
      this.gate, this.redaction, this.buffer, this.log := gate, redaction, "", [];
    }

    ghost function View(): Capture
      reads this, gate
    {
      Capture(buffer, log, if gate == null then 0 else gate.activeDepth)
    }

    predicate CaptureSuppressed()
      reads this, gate
    {
      gate != null && gate.IsActive()
    }

    method Write(value: string) returns (written: nat)
      modifies this
      ensures View() == Step(redaction, old(View()), Event.Write(value))
      ensures written == |value|
    {
      if value == "" { return 0; }
      if CaptureSuppressed() {
        buffer := "";
        return |value|;
      }
      ghost var log0 := log;
      buffer := buffer + value;
      ghost var text := buffer;
      while '\n' in buffer
        invariant log + EmitAll(redaction, Lines(buffer)) == log0 + EmitAll(redaction, Lines(text))
        invariant Tail(buffer) == Tail(text)
        decreases |buffer|
      {
        var i := Find(buffer, '\n');
        ghost var before, logBefore := buffer, log;
        var line := buffer[..i];
        buffer := buffer[i + 1..];
        FirstLine(redaction, before, i);
        ConcatAssoc(logBefore, Emit(redaction, line), EmitAll(redaction, Lines(buffer)));
        EmitIfNotBlank(line);
      }
      TailHasNoNewline(buffer);
      assert log + [] == log;
      return |value|;
    }

    method FlushBuffer()
      modifies this
      ensures View() == Step(redaction, old(View()), Flush)
    {
      if CaptureSuppressed() {
        buffer := "";
        return;
      }
      EmitIfNotBlank(buffer);
      buffer := "";
    }

    method EmitIfNotBlank(line: string)
      modifies this`log
      ensures log == old(log) + Emit(redaction, line)
    {
      if !Blank(line) {
        log := log + [redaction.apply(RStrip(line))];
      }
    }
  }

  lemma FirstLine(e: Redaction, text: string, i: nat)
    requires FirstBreak(text, i)
    ensures Tail(text) == Tail(text[i + 1..])
    ensures EmitAll(e, Lines(text)) == Emit(e, text[..i]) + EmitAll(e, Lines(text[i + 1..]))
  {
    LinesAtBreak(text, i);
    EmitCons(e, text[..i], Lines(text[i + 1..]));
  }

  lemma EmitCons(e: Redaction, line: string, lines: seq<string>)
    ensures EmitAll(e, [line] + lines) == Emit(e, line) + EmitAll(e, lines)
  {
    assert ([line] + lines)[1..] == lines;
  }

  // ----- chunking ------------------------------------------------------------------------------

  ghost function Concat(chunks: seq<string>): string {
    if chunks == [] then "" else Concat(chunks[..|chunks| - 1]) + Last(chunks)
  }

  ghost function WritesOf(chunks: seq<string>): seq<Event> {
    if chunks == [] then [] else WritesOf(chunks[..|chunks| - 1]) + [Event.Write(Last(chunks))]
  }

  // One more chunk after a text: what a write adds is what the longer text adds.
  lemma ChunkStep(e: Redaction, s: Capture, log: seq<string>, text: string, chunk: string)
    requires s == Capture(Tail(text), log + EmitAll(e, Lines(text)), 0)
    ensures Step(e, s, Event.Write(chunk)) == Capture(Tail(text + chunk), log + EmitAll(e, Lines(text + chunk)), 0)
  {
    if chunk == "" {
      assert text + chunk == text;
    } else {
      var more := Lines(Tail(text) + chunk);
      LinesAppend(text, chunk);
      EmitAllAppend(e, Lines(text), more);
      ConcatAssoc(log, EmitAll(e, Lines(text)), EmitAll(e, more));
    }
  }

  // With the gate closed, only the concatenation of the chunks matters.
  lemma {:induction false} ChunkingIrrelevant(e: Redaction, s: Capture, chunks: seq<string>)
    requires s.depth == 0 && '\n' !in s.buffer
    ensures var text := s.buffer + Concat(chunks);
      Run(e, s, WritesOf(chunks)) == Capture(Tail(text), s.log + EmitAll(e, Lines(text)), 0)
  {
    if chunks == [] {
      WithoutBreak(s.buffer);
      assert s.buffer + "" == s.buffer;
      assert s.log + [] == s.log;
    } else {
      var front, chunk := chunks[..|chunks| - 1], Last(chunks);
      ChunkingIrrelevant(e, s, front);
      var before := Run(e, s, WritesOf(front));
      ChunkStep(e, before, s.log, s.buffer + Concat(front), chunk);
      ConcatAssoc(s.buffer, Concat(front), chunk);
      RunSnoc(e, s, WritesOf(front), Event.Write(chunk));
    }
  }

  lemma RunSnoc(e: Redaction, s: Capture, events: seq<Event>, event: Event)
    ensures Run(e, s, events + [event]) == Step(e, Run(e, s, events), event)
  {
    assert (events + [event])[..|events|] == events;
  }

  // Any cutting of a text, then a flush, logs exactly its non-blank lines.
  lemma CuttingsLogTheLines(e: Redaction, chunks: seq<string>)
    ensures Run(e, Capture("", [], 0), WritesOf(chunks) + [Flush]) == Capture("", EmitAll(e, Split(Concat(chunks))), 0)
  {
    var start, text := Capture("", [], 0), Concat(chunks);
    ChunkingIrrelevant(e, start, chunks);
    assert "" + text == text;
    RunSnoc(e, start, WritesOf(chunks), Flush);
    EmitSplit(e, text);
    assert [] + EmitAll(e, Lines(text)) == EmitAll(e, Lines(text));
  }

  lemma EmitSplit(e: Redaction, text: string)
    ensures EmitAll(e, Split(text)) == EmitAll(e, Lines(text)) + Emit(e, Tail(text))
  {
    EmitAllAppend(e, Lines(text), [Tail(text)]);
    assert Split(text) == Lines(text) + [Tail(text)];
    EmitCons(e, Tail(text), []);
    assert [Tail(text)] + [] == [Tail(text)];
  }

  lemma {:induction false} BufferNeverKeepsNewline(e: Redaction, s: Capture, events: seq<Event>)
    requires '\n' !in s.buffer
    ensures '\n' !in Run(e, s, events).buffer
  {
    if events == [] {
    } else {
      var before := Run(e, s, events[..|events| - 1]);
      BufferNeverKeepsNewline(e, s, events[..|events| - 1]);
      if Last(events).Write? { TailHasNoNewline(before.buffer + Last(events).text); }
    }
  }

  // ----- the gate -------------------------------------------------------------------------------

  ghost function DepthAfter(depth: nat, events: seq<Event>): nat {
    if events == [] then depth else
      var d := DepthAfter(depth, events[..|events| - 1]);
      match Last(events)
      case Enter => d + 1
      case Exit => if d == 0 then 0 else d - 1
      case _ => d
  }

  lemma {:induction false} DepthIs(e: Redaction, s: Capture, events: seq<Event>)
    ensures Run(e, s, events).depth == DepthAfter(s.depth, events)
  {
    if events == [] {
    } else {
      DepthIs(e, s, events[..|events| - 1]);
    }
  }

  // The text written while the gate was closed.
  ghost function Visible(depth: nat, events: seq<Event>): string {
    if events == [] then "" else
      var front := events[..|events| - 1];
      Visible(depth, front) + if Last(events).Write? && DepthAfter(depth, front) == 0 then Last(events).text else ""
  }

  // `x` is a logged piece of `text`.
  ghost predicate LoggedFrom(e: Redaction, text: string, x: string) {
    exists i, j :: IsPiece(e, text, x, i, j)
  }

  ghost predicate IsPiece(e: Redaction, text: string, x: string, i: int, j: int) {
    0 <= i <= j <= |text| && x == e.apply(RStrip(text[i..j]))
  }

  lemma {:induction false} LinesArePieces(e: Redaction, text: string, rest: string, from: nat, x: string)
    requires from <= |text| && rest == text[from..] && x in EmitAll(e, Split(rest))
    ensures LoggedFrom(e, text, x)
    decreases |rest|
  {
    if '\n' !in rest {
      assert Split(rest) == [rest] && [rest][1..] == [];
      assert rest == text[from..|text|];
      assert IsPiece(e, text, x, from, |text|);
    } else {
      var i := Find(rest, '\n');
      assert Split(rest)[1..] == Split(rest[i + 1..]);
      assert rest[..i] == text[from..from + i];
      if x in Emit(e, rest[..i]) {
        assert IsPiece(e, text, x, from, from + i);
      } else {
        LinesArePieces(e, text, rest[i + 1..], from + i + 1, x);
      }
    }
  }

  lemma PieceExtends(e: Redaction, text: string, more: string, x: string)
    requires LoggedFrom(e, text, x)
    ensures LoggedFrom(e, text + more, x)
  {
    var i, j :| IsPiece(e, text, x, i, j);
    assert (text + more)[i..j] == text[i..j];
    assert IsPiece(e, text + more, x, i, j);
  }

  ghost predicate IsSuffix(s: string, text: string) {
    |s| <= |text| && s == text[|text| - |s|..]
  }

  lemma EmittedLinesArePieces(e: Redaction, visible: string, pending: string, x: string)
    requires IsSuffix(pending, visible)
    ensures x in EmitAll(e, Lines(pending)) ==> LoggedFrom(e, visible, x)
    ensures x in Emit(e, pending) ==> LoggedFrom(e, visible, x)
    ensures IsSuffix(Tail(pending), visible)
  {
    if x in EmitAll(e, Lines(pending)) {
      EmitSplit(e, pending);
      LinesArePieces(e, visible, pending, |visible| - |pending|, x);
    }
    if x in Emit(e, pending) { SuffixIsPiece(e, visible, pending, x); }
    TailIsSuffix(pending);
    SuffixOfSuffix(Tail(pending), pending, visible);
  }

  lemma SuffixIsPiece(e: Redaction, visible: string, pending: string, x: string)
    requires IsSuffix(pending, visible) && x in Emit(e, pending)
    ensures LoggedFrom(e, visible, x)
  {
    assert visible[|visible| - |pending|..|visible|] == pending;
    assert IsPiece(e, visible, x, |visible| - |pending|, |visible|);
  }

  lemma SuffixOfSuffix(a: string, b: string, c: string)
    requires IsSuffix(a, b) && IsSuffix(b, c)
    ensures IsSuffix(a, c)
  {}

  lemma {:induction false} TailIsSuffix(text: string)
    ensures IsSuffix(Tail(text), text)
    decreases |text|
  {
    if '\n' in text {
      var i := Find(text, '\n');
      var rest := text[i + 1..];
      TailIsSuffix(rest);
      assert Split(text) == [text[..i]] + Split(rest);
      assert Tail(text) == Tail(rest);
    }
  }

  // The buffer ends the visible text, and every log entry is a piece of it.
  ghost predicate FromVisible(e: Redaction, s: Capture, visible: string) {
    IsSuffix(s.buffer, visible) && forall x :: x in s.log ==> LoggedFrom(e, visible, x)
  }

  ghost function Shown(s: Capture, event: Event): string {
    if event.Write? && s.depth == 0 then event.text else ""
  }

  lemma StepFromVisible(e: Redaction, s: Capture, event: Event, seen: string)
    requires FromVisible(e, s, seen)
    ensures FromVisible(e, Step(e, s, event), seen + Shown(s, event))
  {
    var after, added := Step(e, s, event), Shown(s, event);
    var now, pending := seen + added, s.buffer + added;
    assert IsSuffix(pending, now);
    assert added == "" ==> pending == s.buffer;
    forall x | x in after.log ensures LoggedFrom(e, now, x) {
      if x in s.log {
        PieceExtends(e, seen, added, x);
      } else {
        EmittedLinesArePieces(e, now, pending, x);
      }
    }
    EmittedLinesArePieces(e, now, pending, "");
  }

  // Nothing written while the gate is open is ever logged: every log entry is a
  // piece of the text written while it was closed.
  lemma {:induction false} OnlyVisibleTextIsLogged(e: Redaction, depth: nat, events: seq<Event>)
    ensures FromVisible(e, Run(e, Capture("", [], depth), events), Visible(depth, events))
  {
    if events == [] {
    } else {
      var front := events[..|events| - 1];
      var start := Capture("", [], depth);
      OnlyVisibleTextIsLogged(e, depth, front);
      DepthIs(e, start, front);
      StepFromVisible(e, Run(e, start, front), Last(events), Visible(depth, front));
    }
  }

  // ----- the log of a gated run, exactly -----------------------------------------------------------

  // A stretch of visible text; a flush logs what follows its last newline, a hidden
  // write or flush drops it.
  datatype Segment = Segment(text: string, flushed: bool)

  datatype Segments = Segments(closed: seq<Segment>, current: string)
  {
    ghost function Close(flushed: bool): Segments {
      Segments(closed + [Segment(current, flushed)], "")
    }

    ghost function Grow(depth: nat, event: Event): Segments {
      match event
      case Write(text) =>
        if text == "" then this else if depth > 0 then Close(false) else this.(current := current + text)
      case Flush => Close(depth == 0)
      case _ => this
    }
  }

  // The visible text, cut wherever the kept tail is taken away.
  ghost function SegmentsOf(depth: nat, events: seq<Event>): Segments {
    if events == [] then Segments([], "")
    else
      var front := events[..|events| - 1];
      SegmentsOf(depth, front).Grow(DepthAfter(depth, front), Last(events))
  }

  ghost function LogOfClosed(e: Redaction, closed: seq<Segment>): seq<string> {
    if closed == [] then [] else
      LogOfClosed(e, closed[..|closed| - 1])
        + EmitAll(e, if Last(closed).flushed then Split(Last(closed).text) else Lines(Last(closed).text))
  }

  ghost function LogOf(e: Redaction, segments: Segments): seq<string> {
    LogOfClosed(e, segments.closed) + EmitAll(e, Lines(segments.current))
  }

  lemma CloseLogs(e: Redaction, segments: Segments)
    ensures LogOf(e, segments.Close(false)) == LogOf(e, segments)
    ensures LogOf(e, segments.Close(true)) == LogOf(e, segments) + Emit(e, Tail(segments.current))
  {
    EmitSplit(e, segments.current);
    WithoutBreak("");
    forall flushed ensures segments.Close(flushed).closed[..|segments.closed|] == segments.closed {}
    assert EmitAll(e, Lines("")) == [];
    ConcatAssoc(LogOfClosed(e, segments.closed), EmitAll(e, Lines(segments.current)), Emit(e, Tail(segments.current)));
  }

  lemma MoreLogs(e: Redaction, segments: Segments, text: string)
    ensures LogOf(e, segments.(current := segments.current + text))
      == LogOf(e, segments) + EmitAll(e, Lines(Tail(segments.current) + text))
    ensures Tail(segments.current + text) == Tail(Tail(segments.current) + text)
  {
    LinesAppend(segments.current, text);
    EmitAllAppend(e, Lines(segments.current), Lines(Tail(segments.current) + text));
    ConcatAssoc(LogOfClosed(e, segments.closed), EmitAll(e, Lines(segments.current)),
      EmitAll(e, Lines(Tail(segments.current) + text)));
  }

  // After any run the log is the non-blank lines of the segments, in order, each once,
  // and the buffer is what follows the last newline of the current one.
  lemma {:induction false} GatedLogExact(e: Redaction, depth: nat, events: seq<Event>)
    ensures var segments := SegmentsOf(depth, events);
      Run(e, Capture("", [], depth), events)
      == Capture(Tail(segments.current), LogOf(e, segments), DepthAfter(depth, events))
  {
    if events == [] {
      WithoutBreak("");
    } else {
      var front := events[..|events| - 1];
      GatedLogExact(e, depth, front);
      DepthIs(e, Capture("", [], depth), events);
      StepLogs(e, SegmentsOf(depth, front), DepthAfter(depth, front), Last(events));
    }
  }

  // One event, from the segments to the log.
  lemma StepLogs(e: Redaction, before: Segments, depth: nat, event: Event)
    ensures
      var after := before.Grow(depth, event);
      var s := Step(e, Capture(Tail(before.current), LogOf(e, before), depth), event);
      s.buffer == Tail(after.current) && s.log == LogOf(e, after)
  {
    WithoutBreak("");
    match event
    case Write(text) =>
      CloseLogs(e, before);
      MoreLogs(e, before, text);
    case Flush => CloseLogs(e, before);
    case _ =>
  }

  ghost function Spelled(closed: seq<Segment>): string {
    if closed == [] then "" else Spelled(closed[..|closed| - 1]) + Last(closed).text
  }

  lemma CloseSpells(before: Segments, flushed: bool)
    ensures var after := before.Close(flushed);
      Spelled(after.closed) + after.current == Spelled(before.closed) + before.current
  {
    assert before.Close(flushed).closed[..|before.closed|] == before.closed;
  }

  lemma GrowSpells(before: Segments, depth: nat, event: Event)
    ensures var after := before.Grow(depth, event);
      Spelled(after.closed) + after.current
      == Spelled(before.closed) + before.current + if event.Write? && depth == 0 then event.text else ""
  {
    CloseSpells(before, false);
    CloseSpells(before, true);
    if event.Write? { ConcatAssoc(Spelled(before.closed), before.current, event.text); }
  }

  // The segments are the visible text, all of it and in order.
  lemma {:induction false} SegmentsSpellVisible(depth: nat, events: seq<Event>)
    ensures var segments := SegmentsOf(depth, events);
      Spelled(segments.closed) + segments.current == Visible(depth, events)
  {
    if events == [] {
    } else {
      var front := events[..|events| - 1];
      SegmentsSpellVisible(depth, front);
      GrowSpells(SegmentsOf(depth, front), DepthAfter(depth, front), Last(events));
    }
  }

  // The two runs differ only in what is written while the gate is open.
  ghost predicate SameOutside(depth: nat, a: seq<Event>, b: seq<Event>) {
    |a| == |b| &&
    (a == [] ||
      (SameOutside(depth, a[..|a| - 1], b[..|b| - 1]) &&
        (Last(a) == Last(b) ||
          (Last(a).Write? && Last(b).Write? && DepthAfter(depth, a[..|a| - 1]) > 0
            && (Last(a).text == "" <==> Last(b).text == "")))))
  }

  // Then nobody can tell them apart.
  lemma {:induction false} HiddenTextDoesNotInterfere(e: Redaction, s: Capture, a: seq<Event>, b: seq<Event>)
    requires SameOutside(s.depth, a, b)
    ensures Run(e, s, a) == Run(e, s, b)
  {
    if a == [] {
    } else {
      HiddenTextDoesNotInterfere(e, s, a[..|a| - 1], b[..|b| - 1]);
      DepthIs(e, s, a[..|a| - 1]);
    }
  }

  // ----- nesting ----------------------------------------------------------------------------------

  ghost function Opened(events: seq<Event>): int {
    if events == [] then 0 else
      Opened(events[..|events| - 1]) + (if Last(events) == Enter then 1 else if Last(events) == Exit then -1 else 0)
  }

  // While no section is left twice, the counter counts the open sections exactly:
  // the guard against going below zero never cuts in.
  lemma {:induction false} DepthCountsSections(depth: nat, events: seq<Event>)
    requires forall k :: 0 <= k <= |events| ==> depth + Opened(events[..k]) >= 0
    ensures DepthAfter(depth, events) == depth + Opened(events)
  {
    if events == [] {
    } else {
      var front := events[..|events| - 1];
      forall k | 0 <= k <= |front| ensures depth + Opened(front[..k]) >= 0 { assert front[..k] == events[..k]; }
      DepthCountsSections(depth, front);
      assert events[..|events|] == events;
    }
  }
}
