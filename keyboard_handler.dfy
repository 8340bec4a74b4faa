/** The key dispatcher and the paste cleaner of `useKeyboardHandler`. The
    dispatcher is a pure function from the key event and the editor's state
    to the callback it calls and whether it calls `preventDefault`; every
    callback is taken as supplied, as the terminal component supplies them
    all. */
module KeyboardHandler {
  import opened Wrappers

  /** The callback a key press calls, with its argument. */
  datatype Action =
    | Submit(line: string)
    | HistoryUp(line: string)
    | HistoryDown
    | Move(direction: string)
    | Delete(direction: string)
    | Insert(text: string)
    | Copy
    | Interrupt
    | Clear
    | NoAction

  datatype KeyOutcome = KeyOutcome(action: Action, preventDefault: bool)

  /** The keys the second switch names. */
  predicate IsEditingKey(key: string)
  {
    key in {"Enter", "ArrowUp", "ArrowDown", "ArrowLeft", "ArrowRight", "Home", "End", "Backspace", "Delete", "Tab"}
  }

  /** The first switch, taken only with Ctrl or Cmd held: `c` copies when
      text is selected and interrupts otherwise, `l` clears, `v` is left to
      the paste handler; every other key falls through (`None`). */
  function Shortcut(key: string, hasSelection: bool): (r: Option<KeyOutcome>)
    ensures r.Some? <==> key in {"c", "l", "v"}
  {
    if key == "c" then Some(KeyOutcome(if hasSelection then Copy else Interrupt, true))
    else if key == "l" then Some(KeyOutcome(Clear, true))
    else if key == "v" then Some(KeyOutcome(NoAction, false))
    else None
  }

  /** The second switch: the editing keys, then a printable character
      typed without Ctrl or Cmd. */
  function EditingKey(key: string, isCtrlOrCmd: bool, currentLine: string): KeyOutcome
  {
    if key == "Enter" then KeyOutcome(Submit(currentLine), true)
    else if key == "ArrowUp" then KeyOutcome(HistoryUp(currentLine), true)
    else if key == "ArrowDown" then KeyOutcome(HistoryDown, true)
    else if key == "ArrowLeft" then KeyOutcome(Move("left"), true)
    else if key == "ArrowRight" then KeyOutcome(Move("right"), true)
    else if key == "Home" then KeyOutcome(Move("home"), true)
    else if key == "End" then KeyOutcome(Move("end"), true)
    else if key == "Backspace" then KeyOutcome(Delete("backward"), true)
    else if key == "Delete" then KeyOutcome(Delete("forward"), true)
    else if key == "Tab" then KeyOutcome(Insert("  "), true)
    else if |key| == 1 && !isCtrlOrCmd then KeyOutcome(Insert(key), true)
    else KeyOutcome(NoAction, false)
  }

  /** `handleKeyDown(event)`, `isCtrlOrCmd` being `ctrlKey || metaKey`. */
  function HandleKeyDown(key: string, isCtrlOrCmd: bool, hasSelection: bool, currentLine: string): (r: KeyOutcome)
    ensures r.preventDefault <==> r.action != NoAction
  {
    if isCtrlOrCmd && Shortcut(key, hasSelection).Some? then Shortcut(key, hasSelection).value
    else EditingKey(key, isCtrlOrCmd, currentLine)
  }

  /** Ctrl/Cmd+C copies exactly when there is a selection and interrupts
      otherwise; Ctrl/Cmd+L clears; Ctrl/Cmd+V does nothing and lets the
      browser's paste through. */
  lemma Shortcuts(hasSelection: bool, currentLine: string)
    ensures HandleKeyDown("c", true, hasSelection, currentLine) == KeyOutcome(if hasSelection then Copy else Interrupt, true)
    ensures HandleKeyDown("l", true, hasSelection, currentLine) == KeyOutcome(Clear, true)
    ensures HandleKeyDown("v", true, hasSelection, currentLine) == KeyOutcome(NoAction, false)
  {
  }

  /** With Ctrl/Cmd held the editing keys act as without it: the first
      switch falls through to the second. */
  lemma ControlFallsThrough(key: string, hasSelection: bool, currentLine: string)
    requires IsEditingKey(key)
    ensures HandleKeyDown(key, true, hasSelection, currentLine) == HandleKeyDown(key, false, hasSelection, currentLine)
  {
  }

  /** A single character typed without Ctrl/Cmd is inserted as it is; with
      Ctrl/Cmd, any single character other than c, l and v does nothing. */
  lemma PrintableCharacters(key: string, hasSelection: bool, currentLine: string)
    requires |key| == 1
    ensures HandleKeyDown(key, false, hasSelection, currentLine) == KeyOutcome(Insert(key), true)
    ensures key !in {"c", "l", "v"} ==> HandleKeyDown(key, true, hasSelection, currentLine) == KeyOutcome(NoAction, false)
  {
    assert !IsEditingKey(key) by {
      assert |key| != |"Enter"| && |key| != |"Tab"| && |key| != |"End"| && |key| != |"Home"|;
    }
  }

  /** The editing keys, with or without Ctrl/Cmd: Enter submits the line,
      the vertical arrows browse the history, Backspace and Delete delete
      backward and forward, and Tab inserts two spaces; each of them prevents
      the default action. */
  lemma EditingKeys(isCtrlOrCmd: bool, hasSelection: bool, line: string)
    ensures HandleKeyDown("Enter", isCtrlOrCmd, hasSelection, line) == KeyOutcome(Submit(line), true)
    ensures HandleKeyDown("ArrowUp", isCtrlOrCmd, hasSelection, line) == KeyOutcome(HistoryUp(line), true)
    ensures HandleKeyDown("ArrowDown", isCtrlOrCmd, hasSelection, line) == KeyOutcome(HistoryDown, true)
    ensures HandleKeyDown("Backspace", isCtrlOrCmd, hasSelection, line) == KeyOutcome(Delete("backward"), true)
    ensures HandleKeyDown("Delete", isCtrlOrCmd, hasSelection, line) == KeyOutcome(Delete("forward"), true)
    ensures HandleKeyDown("Tab", isCtrlOrCmd, hasSelection, line) == KeyOutcome(Insert("  "), true)
  {
  }

  /** The horizontal arrows, Home and End move the cursor and prevent the
      default action. */
  lemma CursorKeys(isCtrlOrCmd: bool, hasSelection: bool, line: string)
    ensures HandleKeyDown("ArrowLeft", isCtrlOrCmd, hasSelection, line) == KeyOutcome(Move("left"), true)
    ensures HandleKeyDown("ArrowRight", isCtrlOrCmd, hasSelection, line) == KeyOutcome(Move("right"), true)
    ensures HandleKeyDown("Home", isCtrlOrCmd, hasSelection, line) == KeyOutcome(Move("home"), true)
    ensures HandleKeyDown("End", isCtrlOrCmd, hasSelection, line) == KeyOutcome(Move("end"), true)
  {
  }

  /** Any other key of more than one character (a function key, Escape, ...) does nothing. */
  lemma OtherKeysIgnored(key: string, isCtrlOrCmd: bool, hasSelection: bool, line: string)
    requires !IsEditingKey(key) && |key| != 1
    ensures HandleKeyDown(key, isCtrlOrCmd, hasSelection, line) == KeyOutcome(NoAction, false)
  {
    assert key !in {"c", "l", "v"};
  }

  /** The selection matters to Ctrl/Cmd+C alone. */
  lemma SelectionOnlyForCopy(key: string, isCtrlOrCmd: bool, currentLine: string)
    requires !(isCtrlOrCmd && key == "c")
    ensures HandleKeyDown(key, isCtrlOrCmd, true, currentLine) == HandleKeyDown(key, isCtrlOrCmd, false, currentLine)
  {
  }

  // ---------------------------------------------------------------------
  // Pasting
  // ---------------------------------------------------------------------

  /** The characters `/[\x00-\x1F\x7F]/` matches. */
  predicate IsControl(c: char)
  {
    c <= 0x1F as char || c == 0x7F as char
  }

  predicate IsLineBreak(c: char)
  {
    c == '\r' || c == '\n'
  }

  /** `text.replace(/[\r\n]/g, ' ')` */
  function ReplaceLineBreaks(s: string): (r: string)
    ensures |r| == |s|
    ensures forall k :: 0 <= k < |s| ==> r[k] == if IsLineBreak(s[k]) then ' ' else s[k]
  {
    if s == [] then []
    else [if IsLineBreak(s[0]) then ' ' else s[0]] + ReplaceLineBreaks(s[1..])
  }

  /** `text.replace(/[\x00-\x1F\x7F]/g, '')` */
  function RemoveControlChars(s: string): (r: string)
    ensures |r| <= |s|
    ensures forall k :: 0 <= k < |r| ==> !IsControl(r[k])
  {
    if s == [] then []
    else if IsControl(s[0]) then RemoveControlChars(s[1..])
    else [s[0]] + RemoveControlChars(s[1..])
  }

  /** The cleaning step of `handlePaste`: line breaks become spaces, then the control characters go. */
  function CleanPaste(s: string): string
  {
    RemoveControlChars(ReplaceLineBreaks(s))
  }

  /** The text a paste inserts: none for an empty clipboard or when nothing survives the cleaning. */
  function PasteInput(pasted: string): (r: Option<string>)
    ensures r.Some? ==> r.value == CleanPaste(pasted) && r.value != []
    ensures r.None? <==> CleanPaste(pasted) == []
  {
    if pasted == [] then None
    else
      var cleanText := CleanPaste(pasted);
      if cleanText == [] then None else Some(cleanText)
  }

  /** The cleaned text holds no control character (tab, CR and LF among them)
      and is never longer than the paste. */
  lemma CleanPasteBounds(s: string)
    ensures |CleanPaste(s)| <= |s|
    ensures forall k :: 0 <= k < |CleanPaste(s)| ==> !IsControl(CleanPaste(s)[k])
  {
  }

  /** The control characters are removed piece by piece: cleaning a text cut in two is cleaning each piece. */
  lemma {:induction false} RemoveKeepsOthers(s: string, prefixLength: nat)
    requires prefixLength <= |s|
    ensures RemoveControlChars(s[..prefixLength]) + RemoveControlChars(s[prefixLength..]) == RemoveControlChars(s)
    decreases prefixLength
  {
    if prefixLength > 0 {
      assert s[..prefixLength][1..] == s[1..][..prefixLength - 1];
      assert s[prefixLength..] == s[1..][prefixLength - 1..];
      RemoveKeepsOthers(s[1..], prefixLength - 1);
    } else {
      assert s[..0] == [] && s[0..] == s;
    }
  }

  /** Nothing survives the cleaning exactly when the paste consists of
      control characters other than line breaks. */
  lemma {:induction false} CleanPasteEmptyIff(s: string)
    ensures CleanPaste(s) == [] <==> forall k :: 0 <= k < |s| ==> IsControl(s[k]) && !IsLineBreak(s[k])
  {
    if s != [] {
      CleanPasteEmptyIff(s[1..]);
      var replaced := ReplaceLineBreaks(s);
      assert replaced == [replaced[0]] + ReplaceLineBreaks(s[1..]);
      assert forall k :: 0 <= k < |s| - 1 ==> s[1..][k] == s[k + 1];
      if !(IsControl(s[0]) && !IsLineBreak(s[0])) {
        assert !IsControl(replaced[0]);
      }
    }
  }

  /** Cleaning a cleaned text changes nothing. */
  lemma CleanPasteIdempotent(s: string)
    ensures CleanPaste(CleanPaste(s)) == CleanPaste(s)
  {
    var c := CleanPaste(s);
    NoLineBreakUnchanged(c);
    NoControlUnchanged(c);
  }

  lemma {:induction false} NoLineBreakUnchanged(s: string)
    requires forall k :: 0 <= k < |s| ==> !IsControl(s[k])
    ensures ReplaceLineBreaks(s) == s
  {
    assert forall k :: 0 <= k < |s| ==> !IsLineBreak(s[k]);
  }

  lemma {:induction false} NoControlUnchanged(s: string)
    requires forall k :: 0 <= k < |s| ==> !IsControl(s[k])
    ensures RemoveControlChars(s) == s
  {
    if s != [] {
      NoControlUnchanged(s[1..]);
      assert [s[0]] + s[1..] == s;
    }
  }
}
