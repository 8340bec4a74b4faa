/** The composition the parser hook offers on top of the escape-sequence
    parser: `parseText`, the guarded entry to `parseAnsi`, and
    `processTerminalOutput`, which removes the cursor sequences, then the
    clear sequences, then reads the colours of what is left, and strips the
    raw input separately for its plain text. */
module AnsiOutput {
  import opened Wrappers
  import opened AnsiParser

  /** What `processTerminalOutput` returns. */
  datatype TerminalOutput = TerminalOutput(
    segments: seq<Segment>,
    cursorCommands: seq<CursorCommand>,
    clearCommands: seq<ClearCommand>,
    cleanText: string)

  const EmptyOutput: TerminalOutput := TerminalOutput([], [], [], [])

  /** `parseText(text)`: its guard is the guard of `parseAnsi`, so it adds nothing. */
  method ParseText(text: Option<string>) returns (segments: seq<Segment>)
    ensures text.None? || text.value == [] ==> segments == []
    ensures segments == AnsiSegments(text)
  {
    if text.None? || text.value == [] {
      return [];
    }
    segments := ParseAnsi(text);
  }

  /** The text left once the cursor and then the clear sequences are gone. */
  function WithoutControls(t: string): string
  {
    Strip(ClearCodes, Strip(CursorCodes, t))
  }

  /** The clear commands found in the text the cursor pass leaves. */
  function ClearCommandsAfterCursor(t: string): seq<ClearCommand>
  {
    var afterCursor := Strip(CursorCodes, t);
    ClearMatchesHaveDigits(afterCursor);
    ClearCommandsOf(Matches(ClearCodes, afterCursor, 0))
  }

  /** What `processTerminalOutput(text)` returns, pass by pass. */
  function OutputOf(text: Option<string>): (o: TerminalOutput)
    ensures text.None? || text.value == [] ==> o == EmptyOutput
  {
    if text.None? || text.value == [] then EmptyOutput
    else
      var t := text.value;
      TerminalOutput(
        AnsiSegments(Some(WithoutControls(t))),
        CursorCommandsIn(t),
        ClearCommandsAfterCursor(t),
        StripAnsi(Some(t)))
  }

  /** `processTerminalOutput(text)`. */
  method ProcessTerminalOutput(text: Option<string>) returns (out: TerminalOutput)
    ensures out == OutputOf(text)
  {
    if text.None? || text.value == [] {
      return EmptyOutput;
    }
    var cursorCommands, afterCursor := ParseCursorAnsi(text);
    var clearCommands, afterClear := ParseClearAnsi(afterCursor);
    var segments := ParseText(afterClear);
    var cleanText := StripAnsi(text);
    out := TerminalOutput(segments, cursorCommands, clearCommands, cleanText);
    if afterCursor.value == [] {
      // the clear pass returned its input: an empty text has no clear sequence
      NoEscapeNoMatch(ClearCodes, [], 0);
    }
  }

  /** One cursor command per cursor sequence of the input, at most one clear
      command per clear sequence of what the cursor pass leaves, and no
      output text longer than the input. */
  lemma OutputCounts(t: string)
    requires t != []
    ensures |OutputOf(Some(t)).cursorCommands| == |Matches(CursorCodes, t, 0)|
    ensures |OutputOf(Some(t)).clearCommands| <= |Matches(ClearCodes, Strip(CursorCodes, t), 0)|
    ensures |OutputOf(Some(t)).cleanText| <= |t|
  {
  }

  /** Every segment has text; when some text survives all three passes the
      segments spell it exactly. */
  lemma OutputSegmentsSpellText(t: string)
    requires t != []
    ensures forall k :: 0 <= k < |OutputOf(Some(t)).segments| ==> OutputOf(Some(t)).segments[k].text != []
    ensures var rest := WithoutControls(t);
      Strip(ColorCodes, rest) != [] ==> Texts(OutputOf(Some(t)).segments) == Strip(ColorCodes, rest)
  {
    var rest := WithoutControls(t);
    if rest != [] {
      SegmentsSpellStripped(rest);
    } else {
      assert OutputOf(Some(t)).segments == [];
    }
  }

  /** Text without any ESC goes through untouched: one default segment, no
      commands, and the text itself as clean text. */
  lemma PlainOutput(t: string)
    requires t != [] && ESC !in t
    ensures OutputOf(Some(t)) == TerminalOutput([Segment(t, DefaultStyle)], [], [], t)
  {
    NoEscapeNoMatch(CursorCodes, t, 0);
    StripUnchangedIff(CursorCodes, t);
    NoEscapeNoMatch(ClearCodes, t, 0);
    StripUnchangedIff(ClearCodes, t);
    NoEscapeNoMatch(AnyEscape, t, 0);
    StripUnchangedIff(AnyEscape, t);
    PlainTextIsOneSegment(t);
  }

  // ---------------------------------------------------------------------
  // The sample of the hook's tests
  // ---------------------------------------------------------------------

  /** A clear-screen, a cursor position, then red text and a reset. */
  function ScreenSample(): string
  {
    "\U{1B}[2J\U{1B}[2;5H" + RedSample()
  }

  /** The run of parameter characters from `k` ends at `j`. */
  lemma {:induction false} RunEndsAt(p: Pattern, t: string, k: nat, j: nat)
    requires k <= j < |t|
    requires forall q :: k <= q < j ==> IsParamChar(p, t[q])
    requires !IsParamChar(p, t[j])
    ensures ParamRunEnd(p, t, k) == j
    decreases j - k
  {
    if k < j {
      RunEndsAt(p, t, k + 1, j);
    }
  }

  /** `ESC [`, parameters, then a character that is no final character: no occurrence. */
  lemma NoMatchAt(p: Pattern, t: string, i: nat, j: nat)
    requires i + 2 <= j < |t| && t[i] == ESC && t[i + 1] == '['
    requires forall q :: i + 2 <= q < j ==> IsParamChar(p, t[q])
    requires !IsParamChar(p, t[j]) && !IsFinalChar(p, t[j])
    ensures MatchAt(p, t, i).None?
  {
    RunEndsAt(p, t, i + 2, j);
  }

  /** `ESC [`, parameters, then a final character: the occurrence ends past it. */
  lemma OneMatchAt(p: Pattern, t: string, i: nat, j: nat)
    requires i + 2 <= j < |t| && t[i] == ESC && t[i + 1] == '['
    requires forall q :: i + 2 <= q < j ==> IsParamChar(p, t[q])
    requires IsFinalChar(p, t[j])
    ensures MatchAt(p, t, i) == Some(Match(i, j + 1, t[i + 2..j], t[j]))
  {
    FinalIsNoParam(p, t[j]);
    RunEndsAt(p, t, i + 2, j);
  }

  /** No final character of a pattern is one of its parameter characters. */
  lemma FinalIsNoParam(p: Pattern, c: char)
    requires IsFinalChar(p, c)
    ensures !IsParamChar(p, c)
  {
  }

  /** The characters of the sample that the passes look at. */
  predicate IsScreenSample(t: string)
  {
    && |t| == 27 && t[10..] == RedSample() && t[15..23] == "Red text"
    && t[0] == ESC && t[1] == '[' && t[2] == '2' && t[3] == 'J'
    && t[4] == ESC && t[5] == '[' && t[6] == '2' && t[7] == ';' && t[8] == '5' && t[9] == 'H'
    && t[10] == ESC && t[11] == '[' && t[12] == '3' && t[13] == '1' && t[14] == 'm'
    && t[23] == ESC && t[24] == '[' && t[25] == '0' && t[26] == 'm'
    && (forall k :: 15 <= k < 23 ==> t[k] != ESC)
  }

  lemma RedSampleChars()
    ensures var r := RedSample();
      && |r| == 17 && r[5..13] == "Red text"
      && r[0] == ESC && r[1] == '[' && r[2] == '3' && r[3] == '1' && r[4] == 'm'
      && r[13] == ESC && r[14] == '[' && r[15] == '0' && r[16] == 'm'
      && (forall k :: 5 <= k < 13 ==> r[k] != ESC)
  {
  }

  lemma ScreenSampleShape()
    ensures IsScreenSample(ScreenSample())
  {
    var t := ScreenSample();
    var r := RedSample();
    assert t[10..] == r;
    assert forall k :: 0 <= k < 17 ==> t[10 + k] == r[k];
    RedSampleChars();
    assert t[15..23] == r[5..13];
  }

  /** No occurrence of `p` starts in the red-text part of a text
      unless `p` accepts the final `m`. */
  lemma RedPartHasNone(p: Pattern, t: string, from: nat)
    requires from + 17 == |t| && t[from..] == RedSample() && !IsFinalChar(p, 'm')
    ensures NextMatch(p, t, from).None?
  {
    RedSampleChars();
    var r := RedSample();
    assert forall k :: 0 <= k < 17 ==> t[from + k] == r[k];
    RedPartHasNoneFrom(p, t, from);
  }

  lemma RedPartHasNoneFrom(p: Pattern, t: string, from: nat)
    requires from + 17 == |t| && !IsFinalChar(p, 'm')
    requires t[from] == ESC && t[from + 1] == '[' && t[from + 2] == '3' && t[from + 3] == '1' && t[from + 4] == 'm'
    requires forall k :: from + 5 <= k < from + 13 ==> t[k] != ESC
    requires t[from + 13] == ESC && t[from + 14] == '[' && t[from + 15] == '0' && t[from + 16] == 'm'
    ensures NextMatch(p, t, from).None?
  {
    NoMatchAt(p, t, from, from + 4);
    NextMatchSkips(p, t, from + 1, from + 13);
    NoMatchAt(p, t, from + 13, from + 16);
    NextMatchSkips(p, t, from + 14, |t|);
  }

  /** The cursor pass finds the one cursor sequence and leaves the clear
      sequence and the red text. */
  lemma ScreenSampleCursorPass(t: string)
    requires IsScreenSample(t)
    ensures Matches(CursorCodes, t, 0) == [Match(4, 10, "2;5", 'H')]
    ensures Strip(CursorCodes, t) == t[..4] + RedSample()
  {
    NoMatchAt(CursorCodes, t, 0, 3);
    NextMatchSkips(CursorCodes, t, 1, 4);
    OneMatchAt(CursorCodes, t, 4, 9);
    assert t[6..9] == "2;5";
    RedPartHasNone(CursorCodes, t, 10);
    assert StripFrom(CursorCodes, t, 10) == t[10..];
    assert t[0..4] == t[..4];
  }

  /** The clear pass finds the one clear sequence and leaves the red text. */
  lemma ScreenSampleClearPass(u: string)
    requires |u| == 21 && u[0] == ESC && u[1] == '[' && u[2] == '2' && u[3] == 'J' && u[4..] == RedSample()
    ensures Matches(ClearCodes, u, 0) == [Match(0, 4, "2", 'J')] && Strip(ClearCodes, u) == RedSample()
  {
    OneMatchAt(ClearCodes, u, 0, 3);
    assert u[2..3] == "2";
    RedPartHasNone(ClearCodes, u, 4);
    assert StripFrom(ClearCodes, u, 4) == u[4..];
    assert u[0..0] + u[4..] == RedSample();
  }

  lemma ScreenSampleEscapes(t: string)
    requires IsScreenSample(t)
    ensures NextMatch(AnyEscape, t, 0) == Some(Match(0, 4, "2", 'J'))
    ensures NextMatch(AnyEscape, t, 4) == Some(Match(4, 10, "2;5", 'H'))
    ensures NextMatch(AnyEscape, t, 10) == Some(Match(10, 15, "31", 'm'))
    ensures NextMatch(AnyEscape, t, 15) == Some(Match(23, 27, "0", 'm'))
  {
    ScreenSampleEscapeAt0(t);
    ScreenSampleEscapeAt4(t);
    ScreenSampleEscapeAt10(t);
    ScreenSampleEscapeAt15(t);
  }

  lemma ScreenSampleEscapeAt0(t: string)
    requires IsScreenSample(t)
    ensures NextMatch(AnyEscape, t, 0) == Some(Match(0, 4, "2", 'J'))
  {
    NextMatchHere(AnyEscape, t, 0, 3);
    assert t[2..3] == "2";
  }

  lemma ScreenSampleEscapeAt4(t: string)
    requires IsScreenSample(t)
    ensures NextMatch(AnyEscape, t, 4) == Some(Match(4, 10, "2;5", 'H'))
  {
    NextMatchHere(AnyEscape, t, 4, 9);
    assert t[6..9] == "2;5";
  }

  lemma ScreenSampleEscapeAt10(t: string)
    requires IsScreenSample(t)
    ensures NextMatch(AnyEscape, t, 10) == Some(Match(10, 15, "31", 'm'))
  {
    NextMatchHere(AnyEscape, t, 10, 14);
    assert t[12..14] == "31";
  }

  lemma ScreenSampleEscapeAt15(t: string)
    requires IsScreenSample(t)
    ensures NextMatch(AnyEscape, t, 15) == Some(Match(23, 27, "0", 'm'))
  {
    NextMatchSkips(AnyEscape, t, 15, 23);
    NextMatchHere(AnyEscape, t, 23, 26);
    assert t[25..26] == "0";
  }

  /** An occurrence at `i` is the next one from `i`. */
  lemma NextMatchHere(p: Pattern, t: string, i: nat, j: nat)
    requires i + 2 <= j < |t| && t[i] == ESC && t[i + 1] == '['
    requires forall q :: i + 2 <= q < j ==> IsParamChar(p, t[q])
    requires IsFinalChar(p, t[j])
    ensures NextMatch(p, t, i) == Some(Match(i, j + 1, t[i + 2..j], t[j]))
  {
    OneMatchAt(p, t, i, j);
  }

  /** Stripping every escape sequence leaves the red text alone. */
  lemma ScreenSampleClean(t: string)
    requires IsScreenSample(t)
    ensures Strip(AnyEscape, t) == "Red text"
  {
    ScreenSampleEscapes(t);
    assert NextMatch(AnyEscape, t, 27) == None;
    assert StripFrom(AnyEscape, t, 27) == [];
    assert StripFrom(AnyEscape, t, 15) == t[15..23];
    assert StripFrom(AnyEscape, t, 10) == t[10..10] + StripFrom(AnyEscape, t, 15);
    assert StripFrom(AnyEscape, t, 4) == t[4..4] + StripFrom(AnyEscape, t, 10);
    assert StripFrom(AnyEscape, t, 0) == t[0..0] + StripFrom(AnyEscape, t, 4);
  }

  lemma ScreenSampleCommands(t: string)
    requires IsScreenSample(t)
    ensures var o := OutputOf(Some(t));
      && |o.clearCommands| == 1 && o.clearCommands[0] == ClearScreen
      && |o.cursorCommands| == 1 && o.cursorCommands[0] == CursorPosition(2, 5)
  {
    var o := OutputOf(Some(t));
    ScreenSampleCursorCommands(t);
    ScreenSampleClearCommands(t);
    assert o.cursorCommands == CursorCommandsIn(t);
    assert o.clearCommands == ClearCommandsAfterCursor(t);
  }

  lemma ScreenSampleCursorCommands(t: string)
    requires IsScreenSample(t)
    ensures CursorCommandsIn(t) == [CursorPosition(2, 5)]
  {
    ScreenSampleCursorPass(t);
    CursorPositionParams(Match(4, 10, "2;5", 'H'), "2", "5", "");
    assert DecimalValue("2") == 2 && DecimalValue("5") == 5;
  }

  lemma ScreenSampleClearCommands(t: string)
    requires IsScreenSample(t)
    ensures ClearCommandsAfterCursor(t) == [ClearScreen]
  {
    ScreenSampleCursorPass(t);
    ScreenSampleClearPass(t[..4] + RedSample());
    assert ClearCommandOf(Match(0, 4, "2", 'J')) == Some(ClearScreen);
  }

  lemma ScreenSampleTexts(t: string)
    requires IsScreenSample(t)
    ensures var o := OutputOf(Some(t));
      && o.cleanText == "Red text"
      && o.segments == [Segment("Red text", DefaultStyle.(color := Some("red")))]
  {
    ScreenSampleCursorPass(t);
    ScreenSampleClearPass(t[..4] + RedSample());
    assert WithoutControls(t) == RedSample();
    ScreenSampleClean(t);
    RedTextIsOneSegment();
  }

  /** `processTerminalOutput` on the sample: one clear command, one cursor
      command, the red text as clean text, and (where the hook test expects
      two) one red segment. */
  lemma ScreenSampleOutput()
    ensures var o := OutputOf(Some(ScreenSample()));
      && |o.clearCommands| == 1 && o.clearCommands[0] == ClearScreen
      && |o.cursorCommands| == 1 && o.cursorCommands[0] == CursorPosition(2, 5)
      && o.cleanText == "Red text"
      && o.segments == [Segment("Red text", DefaultStyle.(color := Some("red")))]
  {
    ScreenSampleShape();
    ScreenSampleCommands(ScreenSample());
    ScreenSampleTexts(ScreenSample());
  }
}
