/** The terminal's line buffer and input editor (`useTerminalState`): the
    scrollback `lines`, the line being typed with its cursor, the scroll
    position and whether the view follows the bottom. Every operation is one
    sequential transition on the latest state. */
module TerminalState {
  import opened Wrappers
  import opened Strings
  import AnsiParser

  /** The scrollback cap of `constants.js`. */
  const MAX_OUTPUT_LINES: nat := 10000

  /** One scrollback line `{ id, content, type }`; the id `line-n` is kept as its number `n`. */
  datatype Line = Line(id: nat, content: string, kind: string)

  // ---------------------------------------------------------------------
  // Appending output
  // ---------------------------------------------------------------------

  /** The pieces `addOutput` makes lines of: `output.split('\n')` without an
      empty last piece; a non-string or empty output has none. */
  function OutputPieces(output: Option<string>): (r: seq<string>)
    ensures output.None? || output.value == [] ==> r == []
    ensures forall k :: 0 <= k < |r| ==> '\n' !in r[k]
  {
    if output.None? then []
    else
      var pieces := Split(output.value, '\n');
      if pieces[|pieces| - 1] == [] then pieces[..|pieces| - 1] else pieces
  }

  /** Joining after one more piece adds the separator and the piece. */
  lemma {:induction false} JoinSnoc(pieces: seq<string>, p: string, sep: char)
    requires |pieces| >= 1
    ensures Join(pieces + [p], sep) == Join(pieces, sep) + [sep] + p
  {
    if |pieces| > 1 {
      assert (pieces + [p])[1..] == pieces[1..] + [p];
      JoinSnoc(pieces[1..], p, sep);
    }
  }

  /** The lines `addOutput` makes spell the output again, joined by line
      breaks, save for one final line break. */
  lemma OutputPiecesJoin(s: string)
    ensures var ends := s != [] && s[|s| - 1] == '\n';
      Join(OutputPieces(Some(s)), '\n') + (if ends then "\n" else "") == s
  {
    var pieces := Split(s, '\n');
    JoinSplit(s, '\n');
    SplitLastPiece(s, '\n');
    if pieces[|pieces| - 1] == [] && |pieces| > 1 {
      var init := pieces[..|pieces| - 1];
      assert pieces == init + [[]];
      JoinSnoc(init, [], '\n');
    }
  }

  /** Text without line breaks becomes one line. */
  lemma OneLineOutput(s: string)
    requires s != [] && '\n' !in s
    ensures OutputPieces(Some(s)) == [s]
  {
    SplitPiece(s, '\n');
  }

  /** Lines numbered from `first` upward, one per piece, in order, all of one type. */
  function NumberedLines(pieces: seq<string>, first: nat, kind: string): (r: seq<Line>)
    ensures |r| == |pieces|
    ensures forall k :: 0 <= k < |r| ==> r[k] == Line(first + k, pieces[k], kind)
  {
    seq(|pieces|, k requires 0 <= k < |pieces| => Line(first + k, pieces[k], kind))
  }

  /** `lines.slice(-MAX_OUTPUT_LINES)` when there are more lines than the cap. */
  function Newest(ls: seq<Line>): (r: seq<Line>)
    ensures |r| == if |ls| > MAX_OUTPUT_LINES then MAX_OUTPUT_LINES else |ls|
    ensures r == ls[|ls| - |r|..]
  {
    if |ls| > MAX_OUTPUT_LINES then ls[|ls| - MAX_OUTPUT_LINES..] else ls
  }

  /** The scrollback once `output` has been appended with ids from `counter`. */
  function LinesAfterOutput(ls: seq<Line>, counter: nat, output: Option<string>, kind: string): seq<Line>
  {
    Newest(ls + NumberedLines(OutputPieces(output), counter, kind))
  }

  // ---------------------------------------------------------------------
  // The screen-clear test of addOutput, as written
  // ---------------------------------------------------------------------

  /** The shape of a JavaScript value, as far as calling `.some` on it goes:
      an array, or the object `{ segments }` holding a segment list. */
  datatype JsValue = JsArray(length: nat) | JsObject(segments: seq<AnsiParser.Segment>)

  /** What `parseAnsi(output)` returns: the object `{ segments }` on both of
      its return paths (ansiParser.js:65 and 119), never the array itself. */
  function ParseAnsiValue(output: string): JsValue
  {
    JsObject(AnsiParser.AnsiSegments(Some(output)))
  }

  datatype AddOutcome = Returned | Threw | Appended(pieces: seq<string>)

  /** `addOutput` as written: past the guard it calls `segments.some(...)`
      on the value `parseAnsi` returns, which only an array supports. */
  function AddOutputAsWritten(output: Option<string>): AddOutcome
  {
    if output.None? then Returned
    else
      var segments := ParseAnsiValue(output.value);
      if segments.JsArray? then Appended(OutputPieces(output)) else Threw
  }

  /** As written, every string output, the empty one included, throws
      before a line is added, whereas the append path the rest of
      `addOutput` spells out adds one line for "hello". */
  lemma AddOutputAsWrittenThrows(s: string)
    ensures AddOutputAsWritten(Some(s)) == Threw
    ensures AddOutputAsWritten(None) == Returned
    ensures OutputPieces(Some("hello")) == ["hello"]
  {
    OneLineOutput("hello");
  }

  /** Ids increase along the scrollback. */
  predicate IdsIncreasing(ls: seq<Line>)
  {
    forall i, j :: 0 <= i < j < |ls| ==> ls[i].id < ls[j].id
  }

  /** Every id is below the next one the counter hands out. */
  predicate IdsBelow(ls: seq<Line>, counter: nat)
  {
    forall k :: 0 <= k < |ls| ==> ls[k].id < counter
  }

  /** After an append the scrollback is within the cap, its lines are the
      newest of the old lines followed by the new ones in their order, all of
      the old lines survive when there is room, and the new lines come last. */
  lemma AppendKeepsNewest(ls: seq<Line>, counter: nat, output: Option<string>, kind: string)
    ensures var added := NumberedLines(OutputPieces(output), counter, kind);
      var r := LinesAfterOutput(ls, counter, output, kind);
      && |r| <= MAX_OUTPUT_LINES
      && r == (ls + added)[|ls + added| - |r|..]
      && (|ls| + |added| <= MAX_OUTPUT_LINES ==> r == ls + added)
      && (|added| <= MAX_OUTPUT_LINES ==> r[|r| - |added|..] == added)
  {
    NewestOfAppend(ls, NumberedLines(OutputPieces(output), counter, kind));
  }

  lemma NewestOfAppend(ls: seq<Line>, added: seq<Line>)
    ensures var r := Newest(ls + added);
      && (|ls| + |added| <= MAX_OUTPUT_LINES ==> r == ls + added)
      && (|added| <= MAX_OUTPUT_LINES ==> r[|r| - |added|..] == added)
  {
    var all := ls + added;
    var r := Newest(all);
    if |added| <= MAX_OUTPUT_LINES {
      assert r[|r| - |added|..] == all[|ls|..];
      assert all[|ls|..] == added;
    }
  }

  /** The ids still increase after an append and stay below the advanced counter. */
  lemma AppendKeepsIds(ls: seq<Line>, counter: nat, output: Option<string>, kind: string)
    requires IdsIncreasing(ls) && IdsBelow(ls, counter)
    ensures var r := LinesAfterOutput(ls, counter, output, kind);
      IdsIncreasing(r) && IdsBelow(r, counter + |OutputPieces(output)|)
  {
    var added := NumberedLines(OutputPieces(output), counter, kind);
    var all := ls + added;
    assert IdsIncreasing(all) by {
      forall i, j | 0 <= i < j < |all|
        ensures all[i].id < all[j].id
      {
        if j < |ls| {
        } else if i < |ls| {
          assert all[i] == ls[i];
        } else {
          assert all[i] == added[i - |ls|] && all[j] == added[j - |ls|];
        }
      }
    }
    var r := Newest(all);
    var d := |all| - |r|;
    assert forall k :: 0 <= k < |r| ==> r[k] == all[d + k];
  }

  // ---------------------------------------------------------------------
  // Editing the input line
  // ---------------------------------------------------------------------

  /** The line being typed and the cursor in it. */
  datatype Input = Input(line: string, cursor: nat)

  predicate InBounds(e: Input)
  {
    e.cursor <= |e.line|
  }

  /** `insertAtCursor(text)`: the text goes in at the cursor, which moves past it. */
  function InsertText(e: Input, text: string): (r: Input)
    requires InBounds(e)
    ensures InBounds(r)
    ensures r.cursor == e.cursor + |text| && |r.line| == |e.line| + |text|
    ensures r.line[..e.cursor] == e.line[..e.cursor]
    ensures r.line[e.cursor..r.cursor] == text
    ensures r.line[r.cursor..] == e.line[e.cursor..]
  {
    Input(e.line[..e.cursor] + text + e.line[e.cursor..], e.cursor + |text|)
  }

  /** `deleteAtCursor(direction)`: backward drops the character before the
      cursor and moves the cursor back onto its place, forward drops the
      character at the cursor; at the start of the line, at its end, or for
      any other direction nothing happens. */
  function DeleteText(e: Input, direction: string): (r: Input)
    requires InBounds(e)
    ensures InBounds(r)
    ensures direction == "backward" && e.cursor > 0 ==>
      r.cursor + 1 == e.cursor && |r.line| + 1 == |e.line|
      && r.line[..r.cursor] == e.line[..r.cursor] && r.line[r.cursor..] == e.line[e.cursor..]
    ensures direction == "forward" && e.cursor < |e.line| ==>
      r.cursor == e.cursor && |r.line| + 1 == |e.line|
      && r.line[..r.cursor] == e.line[..e.cursor] && r.line[r.cursor..] == e.line[e.cursor + 1..]
    ensures !(direction == "backward" && e.cursor > 0) && !(direction == "forward" && e.cursor < |e.line|) ==> r == e
  {
    if direction == "backward" && e.cursor > 0 then
      Input(e.line[..e.cursor - 1] + e.line[e.cursor..], e.cursor - 1)
    else if direction == "forward" && e.cursor < |e.line| then
      Input(e.line[..e.cursor] + e.line[e.cursor + 1..], e.cursor)
    else e
  }

  /** `moveCursor(direction, amount)`: left and right move by `amount` as far
      as the line allows, home and end jump to its ends, any other direction
      leaves the cursor where it is; the line itself never changes. */
  function MoveCursorBy(e: Input, direction: string, amount: nat): (r: Input)
    requires InBounds(e)
    ensures InBounds(r) && r.line == e.line
    ensures direction == "left" ==> r.cursor == if amount <= e.cursor then e.cursor - amount else 0
    ensures direction == "right" ==> r.cursor == if e.cursor + amount <= |e.line| then e.cursor + amount else |e.line|
    ensures direction == "home" ==> r.cursor == 0
    ensures direction == "end" ==> r.cursor == |e.line|
    ensures direction !in {"left", "right", "home", "end"} ==> r == e
  {
    var prev := e.cursor as int;
    var newPosition: int :=
      if direction == "left" then Max(0, prev - amount)
      else if direction == "right" then Min(|e.line|, prev + amount)
      else if direction == "home" then 0
      else if direction == "end" then |e.line|
      else prev;
    Input(e.line, newPosition)
  }

  function Max(a: int, b: int): int
  {
    if a >= b then a else b
  }

  function Min(a: int, b: int): int
  {
    if a <= b then a else b
  }

  /** `n` backward deletions in a row. */
  function Backspaces(e: Input, n: nat): (r: Input)
    requires InBounds(e)
    ensures InBounds(r)
    decreases n
  {
    if n == 0 then e else Backspaces(DeleteText(e, "backward"), n - 1)
  }

  /** As many backward deletions as characters were inserted undo the insertion. */
  lemma {:induction false} BackspacesUndoInsert(e: Input, text: string)
    requires InBounds(e)
    ensures Backspaces(InsertText(e, text), |text|) == e
  {
    if text == [] {
      assert e.line[..e.cursor] + e.line[e.cursor..] == e.line;
    } else {
      var init := text[..|text| - 1];
      var inserted := InsertText(e, text);
      var x := inserted.line;
      assert x[..inserted.cursor - 1] == e.line[..e.cursor] + init;
      assert x[inserted.cursor..] == e.line[e.cursor..];
      assert DeleteText(inserted, "backward") == InsertText(e, init);
      BackspacesUndoInsert(e, init);
    }
  }

  /** Moving right by as much as one has just moved left comes back. */
  lemma LeftThenRight(e: Input, amount: nat)
    requires InBounds(e) && amount <= e.cursor
    ensures MoveCursorBy(MoveCursorBy(e, "left", amount), "right", amount) == e
  {
  }

  /** A forward deletion at the cursor and a backward one after the same
      character remove the same character. */
  lemma ForwardIsBackwardFromNext(e: Input)
    requires InBounds(e) && e.cursor < |e.line|
    ensures DeleteText(e, "forward") == DeleteText(Input(e.line, e.cursor + 1), "backward")
  {
  }

  // ---------------------------------------------------------------------
  // The terminal state
  // ---------------------------------------------------------------------

  /** `scrollTop + clientHeight >= scrollHeight - 10`: the view is within ten pixels of the bottom. */
  predicate NearBottom(scrollTop: int, scrollHeight: int, clientHeight: int)
  {
    scrollTop + clientHeight >= scrollHeight - 10
  }

  class Terminal {
    var lines: seq<Line>
    var currentLine: string
    var cursorPosition: nat
    var scrollPosition: int
    var isAtBottom: bool
    /** The `lineIdCounter` ref: the number of the next line id. */
    var lineIdCounter: nat

    /** The cursor lies within the line, the scrollback within its cap, and
        the ids increase and stay below the counter. */
    ghost predicate Valid()
      reads this
    {
      cursorPosition <= |currentLine| && |lines| <= MAX_OUTPUT_LINES
      && IdsIncreasing(lines) && IdsBelow(lines, lineIdCounter)
    }

    /** The input line and its cursor. */
    function CurrentInput(): Input
      reads this
    {
      Input(currentLine, cursorPosition)
    }

    constructor ()
      ensures Valid()
      ensures lines == [] && currentLine == [] && cursorPosition == 0
      ensures scrollPosition == 0 && isAtBottom && lineIdCounter == 0
    {
      lines := [];
      currentLine := [];
      cursorPosition := 0;
      scrollPosition := 0;
      isAtBottom := true;
      lineIdCounter := 0;
    }

    /** `addOutput(output, type)`, with the screen-clear test read as a test
        over the segment list (see `AddOutputAsWritten`). No segment
        `parseAnsi` produces has a `controls` field, so that test is false
        and the screen-clear branch is never taken. */
    method AddOutput(output: Option<string>, kind: string)
      requires Valid()
      modifies this
      ensures Valid()
      ensures lines == LinesAfterOutput(old(lines), old(lineIdCounter), output, kind)
      ensures lineIdCounter == old(lineIdCounter) + |OutputPieces(output)|
      ensures currentLine == old(currentLine) && cursorPosition == old(cursorPosition)
      ensures scrollPosition == old(scrollPosition) && isAtBottom == old(isAtBottom)
    {
      if output.None? {
        return;
      }
      var newLines := MakeLines(output.value, kind);
      AppendKeepsIds(lines, old(lineIdCounter), output, kind);
      ghost var target := LinesAfterOutput(lines, old(lineIdCounter), output, kind);
      assert target == Newest(lines + newLines);
      if |newLines| > 0 {
        var updatedLines := lines + newLines;
        if |updatedLines| > MAX_OUTPUT_LINES {
          lines := updatedLines[|updatedLines| - MAX_OUTPUT_LINES..];
        } else {
          lines := updatedLines;
        }
      } else {
        assert lines + newLines == lines;
      }
      assert lines == target;
    }

    /** The `forEach` of `addOutput`: one line per piece of the split, with a
        fresh id each, skipping the empty last piece. */
    method MakeLines(output: string, kind: string) returns (newLines: seq<Line>)
      modifies this
      ensures newLines == NumberedLines(OutputPieces(Some(output)), old(lineIdCounter), kind)
      ensures lineIdCounter == old(lineIdCounter) + |newLines|
      ensures lines == old(lines) && currentLine == old(currentLine) && cursorPosition == old(cursorPosition)
      ensures scrollPosition == old(scrollPosition) && isAtBottom == old(isAtBottom)
    {
      var outputLines := Split(output, '\n');
      ghost var first := lineIdCounter;
      newLines := [];
      for index := 0 to |outputLines|
        invariant lineIdCounter == first + |newLines|
        invariant lines == old(lines) && currentLine == old(currentLine) && cursorPosition == old(cursorPosition)
        invariant scrollPosition == old(scrollPosition) && isAtBottom == old(isAtBottom)
        invariant |newLines| == if index == |outputLines| && outputLines[index - 1] == [] then index - 1 else index
        invariant forall k :: 0 <= k < |newLines| ==> newLines[k] == Line(first + k, outputLines[k], kind)
      {
        // the empty last piece of the split is skipped
        if !(index == |outputLines| - 1 && outputLines[index] == []) {
          newLines := newLines + [Line(lineIdCounter, outputLines[index], kind)];
          lineIdCounter := lineIdCounter + 1;
        }
      }
    }

    /** `addPrompt(prompt)`: a prompt that is not blank is added as output of type `prompt`. */
    method AddPrompt(prompt: Option<string>)
      requires Valid()
      modifies this
      ensures Valid()
      ensures var shown := prompt.Some? && !IsBlank(prompt.value);
        && lines == (if shown then LinesAfterOutput(old(lines), old(lineIdCounter), prompt, "prompt") else old(lines))
        && lineIdCounter == old(lineIdCounter) + (if shown then |OutputPieces(prompt)| else 0)
      ensures currentLine == old(currentLine) && cursorPosition == old(cursorPosition)
      ensures scrollPosition == old(scrollPosition) && isAtBottom == old(isAtBottom)
    {
      if prompt.Some? && !IsBlank(prompt.value) {
        AddOutput(prompt, "prompt");
      }
    }

    /** `clearScreen()`: no scrollback, an empty input, scrolled to the top
        and following the bottom; the id counter keeps counting. */
    method ClearScreen()
      requires Valid()
      modifies this
      ensures Valid()
      ensures lines == [] && currentLine == [] && cursorPosition == 0
      ensures scrollPosition == 0 && isAtBottom && lineIdCounter == old(lineIdCounter)
    {
      lines := [];
      currentLine := [];
      cursorPosition := 0;
      scrollPosition := 0;
      isAtBottom := true;
    }

    /** `updateCurrentLine(line)`: the line is replaced and the cursor put at its end. */
    method UpdateCurrentLine(line: string)
      requires Valid()
      modifies this
      ensures Valid()
      ensures currentLine == line && cursorPosition == |line|
      ensures lines == old(lines) && lineIdCounter == old(lineIdCounter)
      ensures scrollPosition == old(scrollPosition) && isAtBottom == old(isAtBottom)
    {
      currentLine := line;
      cursorPosition := |line|;
    }

    /** `insertAtCursor(text)`. */
    method InsertAtCursor(text: string)
      requires Valid()
      modifies this
      ensures Valid()
      ensures CurrentInput() == InsertText(old(CurrentInput()), text)
      ensures lines == old(lines) && lineIdCounter == old(lineIdCounter)
      ensures scrollPosition == old(scrollPosition) && isAtBottom == old(isAtBottom)
    {
      var before := currentLine[..cursorPosition];
      var after := currentLine[cursorPosition..];
      currentLine := before + text + after;
      cursorPosition := cursorPosition + |text|;
    }

    /** `deleteAtCursor(direction)`; callers that omit the direction mean "backward". */
    method DeleteAtCursor(direction: string)
      requires Valid()
      modifies this
      ensures Valid()
      ensures CurrentInput() == DeleteText(old(CurrentInput()), direction)
      ensures lines == old(lines) && lineIdCounter == old(lineIdCounter)
      ensures scrollPosition == old(scrollPosition) && isAtBottom == old(isAtBottom)
    {
      if direction == "backward" && cursorPosition > 0 {
        var before := currentLine[..cursorPosition - 1];
        var after := currentLine[cursorPosition..];
        currentLine := before + after;
        cursorPosition := cursorPosition - 1;
      } else if direction == "forward" && cursorPosition < |currentLine| {
        var before := currentLine[..cursorPosition];
        var after := currentLine[cursorPosition + 1..];
        currentLine := before + after;
      }
    }

    /** `moveCursor(direction, amount)`; callers that omit the amount mean 1. */
    method MoveCursor(direction: string, amount: nat)
      requires Valid()
      modifies this
      ensures Valid()
      ensures CurrentInput() == MoveCursorBy(old(CurrentInput()), direction, amount)
      ensures lines == old(lines) && lineIdCounter == old(lineIdCounter)
      ensures scrollPosition == old(scrollPosition) && isAtBottom == old(isAtBottom)
    {
      var prev := cursorPosition;
      var newPosition: nat := prev;
      if direction == "left" {
        newPosition := if prev >= amount then prev - amount else 0;
      } else if direction == "right" {
        newPosition := if prev + amount <= |currentLine| then prev + amount else |currentLine|;
      } else if direction == "home" {
        newPosition := 0;
      } else if direction == "end" {
        newPosition := |currentLine|;
      }
      cursorPosition := newPosition;
    }

    /** `executeCommand(command)`: returns the trimmed command and empties the input. */
    method ExecuteCommand(command: string) returns (trimmed: string)
      requires Valid()
      modifies this
      ensures Valid()
      ensures trimmed == Trim(command)
      ensures currentLine == [] && cursorPosition == 0
      ensures lines == old(lines) && lineIdCounter == old(lineIdCounter)
      ensures scrollPosition == old(scrollPosition) && isAtBottom == old(isAtBottom)
    {
      currentLine, cursorPosition := [], 0;
      assert Valid();
      trimmed := Trim(command);
    }

    /** `handleScroll(scrollTop, scrollHeight, clientHeight)`: records the
        position and whether the view is near the bottom. */
    method HandleScroll(scrollTop: int, scrollHeight: int, clientHeight: int)
      requires Valid()
      modifies this
      ensures Valid()
      ensures scrollPosition == scrollTop
      ensures isAtBottom <==> NearBottom(scrollTop, scrollHeight, clientHeight)
      ensures lines == old(lines) && lineIdCounter == old(lineIdCounter)
      ensures currentLine == old(currentLine) && cursorPosition == old(cursorPosition)
    {
      scrollPosition := scrollTop;
      isAtBottom := scrollTop + clientHeight >= scrollHeight - 10;
    }
  }
}
