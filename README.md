# Web terminal front end: escape parsing, line buffer, history, keys

A Dafny model of the browser-side core of a web terminal. The model covers:

- **Escape-sequence parser** (`ansiParser.js`). It turns a chunk of shell output into styled segments, cursor commands and clear commands. It also holds the helpers `stripAnsi`, `hasAnsiSequences` and `ansiToCSS`.
- **`useAnsiParser` composition** (`processTerminalOutput`). The cursor pass runs first, then the clear pass, then colour parsing. The clean text is computed separately.
- **Terminal state** (`useTerminalState`). This is the scrollback buffer, capped at 10000 lines, with numbered lines. It also holds the input line with its cursor and the follow-the-bottom flag.
- **Command history** (`useCommandHistory`). It keeps trimmed, de-duplicated entries capped at 1000. Up/down navigation saves the draft that was being typed.
- **Key dispatcher** (`useKeyboardHandler`). It maps a key press to the callback it triggers. It also holds the paste cleaner.
- **Input helpers** (`terminalUtils.js`): `formatPrompt`, `validateCommand`, `sanitizeInput` and `isScrolledToBottom`.

Modules:

- `wrappers.dfy`: `Wrappers`
- `strings.dfy`: `Strings`, holding JavaScript `trim`, `split` and `join`
- `ansi_parser.dfy`: `AnsiParser`
- `ansi_output.dfy`: `AnsiOutput`
- `terminal_state.dfy`: `TerminalState`
- `command_history.dfy`: `CommandHistory`
- `keyboard_handler.dfy`: `KeyboardHandler`
- `terminal_utils.dfy`: `TerminalUtils`

Modelling conventions:

- **Strings that may be absent.** A JavaScript argument that may be `null`, `undefined` or another non-string is an `Option<string>`, with `None` for the missing value. The exceptions are the arguments of `formatPrompt` and the threshold of `isScrolledToBottom`. These have JavaScript default parameters, so there `None` means an omitted (`undefined`) argument only.
- **Classes for hooks.** Each stateful hook is a Dafny `class` whose fields are the hook's state. Each operation is a method proved against a specification function of the old state.
- **State transitions.** Each hook operation is one atomic transition on the latest state.
- **Regular expressions.** The four regular expressions of `ansiParser.js:4-7` are modelled exactly. An occurrence is `ESC [`, then the longest run of parameter characters, then one final character. Because no final character is a parameter character, the longest run is what the regular expression matches. `MatchAtComplete` and `MatchUnique` prove that this scanner finds every occurrence.

Where the intended behaviour and the code differ, this model follows the code:

- **Style does not carry across calls.** `parseAnsi` starts every call from the default style.
- **No screen clearing.** `parseAnsi` emits no control commands, so `addOutput` never clears the screen.
- **Empty segments.** `parseAnsi` never emits a segment with empty text. Several of the repository's tests expect an extra empty trailing segment. `RedTextIsOneSegment` and `ScreenSampleOutput` show what the code gives instead.

## Model

| member | source | states |
|---|---|---|
| AnsiParser.ParamRunEnd | frontend/src/utils/ansiParser.js:4-7 | the greedy parameter run `[0-9;]*` (or `[0-9]*`): every character from the start up to the returned end is a parameter character, and the character at the end, if any, is not |
| AnsiParser.MatchAt | frontend/src/utils/ansiParser.js:4-7 | a result found at `i` starts at `i` and is an occurrence of the pattern (ESC, `[`, parameter characters, final character), with its parameters and final character |
| AnsiParser.MatchAtComplete | frontend/src/utils/ansiParser.js:4-7 | every occurrence of the pattern at `i` is found by the scanner, with the same end |
| AnsiParser.MatchUnique | frontend/src/utils/ansiParser.js:4-7 | an occurrence at a given start has exactly one end |
| AnsiParser.NextMatch | frontend/src/utils/ansiParser.js:82 | a result is an occurrence of the pattern starting at or after `i`, and it is the occurrence the scanner reads at its start |
| AnsiParser.NextMatchLeftmost | frontend/src/utils/ansiParser.js:82 | the result is the leftmost occurrence: none starts between `i` and it |
| AnsiParser.NextMatchNoneMeansNoMatch | frontend/src/utils/ansiParser.js:82 | when there is no result, no occurrence starts anywhere from `i` on |
| AnsiParser.Matches | frontend/src/utils/ansiParser.js:82 | `matchAll`: the occurrences are disjoint and in order; each is an occurrence of the pattern, with well-formed parameters and final character |
| AnsiParser.StripFrom | frontend/src/utils/ansiParser.js:220 | removing occurrences never lengthens the text, and strictly shortens it when there is one |
| AnsiParser.NextMatchSkips | frontend/src/utils/ansiParser.js:4-7 | positions without ESC can be skipped when looking for the next occurrence |
| AnsiParser.NoEscapeNoMatch | frontend/src/utils/ansiParser.js:4-7 | a text without ESC contains no occurrence of any pattern |
| AnsiParser.StripUnchangedIff | frontend/src/utils/ansiParser.js:220 | `replace(regex, '')` returns the text unchanged exactly when the text has no occurrence |
| AnsiParser.Strip | frontend/src/utils/ansiParser.js:220 | `text.replace(regex, '')` for one of the four patterns: every occurrence deleted; StripFrom and StripUnchangedIff state its properties |
| AnsiParser.FieldOr | frontend/src/utils/ansiParser.js:96 | `parseInt(field, 10) \|\| default`: an empty field or one whose digits read as 0 gives the default; any other field gives its decimal value |
| AnsiParser.DecimalValue | frontend/src/utils/ansiParser.js:96 | `parseInt(field, 10)` on a digit string, read left to right in base 10, with 0 for the empty field; DecimalZeroIffZeros and FieldSamples state what it gives |
| AnsiParser.DecimalZeroIffZeros | frontend/src/utils/ansiParser.js:96 | a digit string reads as 0 exactly when every digit is `0`, so `ESC[00m` is a reset and `ESC[0A` moves by the default count |
| AnsiParser.FieldSamples | frontend/src/utils/ansiParser.js:96 | `12` reads as 12 and `007` as 7; `0`, `00` and the empty field give the default |
| AnsiParser.FieldValues | frontend/src/utils/ansiParser.js:96 | one value per `;`-field, each being that field's value or the default |
| AnsiParser.FieldsAreDigits | frontend/src/utils/ansiParser.js:96 | every `;`-field of a parameter string holds only digits |
| AnsiParser.ParamValues | frontend/src/utils/ansiParser.js:96 | a parameter string always yields at least one value, even when it is empty; one value per `;`-field, each the field's value or the default |
| AnsiParser.CodesOf | frontend/src/utils/ansiParser.js:96 | the colour codes of `ESC[…m`: one per `;`-field, each the field's value or 0 |
| AnsiParser.ColorTables | frontend/src/utils/ansiParser.js:10-46 | the foreground table has an entry exactly for 30-37 and 90-97, and the background table exactly for 40-47 and 100-107; background code `c+10` names the colour of foreground code `c`; 31 is red, 91 is bright red, background 40 is black |
| AnsiParser.ApplyCode | frontend/src/utils/ansiParser.js:132-204 | a code the switch and the colour tables do not know leaves the style unchanged; 0 resets every field; 1, 2, 3, 4, 7 and 9 set bold, dim, italic, underline, reverse and strikethrough; 22 clears bold and dim, and 23, 24, 27 and 29 clear one flag each; 39 and 49 clear the colour and background; 30-37 and 90-97 set the colour, and 40-47 and 100-107 the background, to the table's name; every other field keeps its value |
| AnsiParser.ApplyCodes | frontend/src/utils/ansiParser.js:131-205 | the `forEach` over the codes: each code in turn applied to the style; ApplyCodesConcat, ResetForgetsPrefix and LastColorWins state its properties |
| AnsiParser.ApplyCodesConcat | frontend/src/utils/ansiParser.js:131-205 | codes apply left to right: applying `a + b` is applying `a`, then `b` |
| AnsiParser.ResetForgetsPrefix | frontend/src/utils/ansiParser.js:133-141 | after a 0 in a code list, the result no longer depends on the codes before it or on the starting style |
| AnsiParser.ApplyCodesKeepsColor | frontend/src/utils/ansiParser.js:133-141 | codes that are neither 0, 39 nor a foreground code leave the foreground colour as it was |
| AnsiParser.LastColorWins | frontend/src/utils/ansiParser.js:131-204 | the last foreground code of a list sets the colour when no reset and no 39 follow it |
| AnsiParser.EmptyParamsReset | frontend/src/utils/ansiParser.js:96 | `ESC[m` (empty parameters) is read as code 0 and resets the style |
| AnsiParser.ParseAnsiCodes | frontend/src/utils/ansiParser.js:128-208 | the loop yields the left-to-right application of the codes to the current style |
| AnsiParser.MatchesStep | frontend/src/utils/ansiParser.js:84-100 | when occurrences remain, the next one is the head of the remaining `matchAll` list |
| AnsiParser.RunsUnfold | frontend/src/utils/ansiParser.js:84-100 | the next occurrence splits the rest of the text into the text before it (a segment unless empty) and the runs after it in the updated style |
| AnsiParser.RunsStep | frontend/src/utils/ansiParser.js:84-100 | one loop step keeps the segments pushed so far plus the rest equal to the whole result, and the running style equal to the final style |
| AnsiParser.RunsEnd | frontend/src/utils/ansiParser.js:102-109 | after the last occurrence, pushing the non-empty remainder completes the segment list and the style |
| AnsiParser.AnsiSegments | frontend/src/utils/ansiParser.js:63-120 | the `segments` of `parseAnsi`: none for a missing or empty text; otherwise the non-empty runs between colour sequences, each in the style in force before it, or the whole text as one segment when no run survives; ParseAnsi and SegmentsSpellStripped state its properties |
| AnsiParser.ParseAnsi | frontend/src/utils/ansiParser.js:63-120 | the method's segments are the segments of `parseAnsi(text)`, including the empty-input guard and the whole-text fallback |
| AnsiParser.RunsSpellStripped | frontend/src/utils/ansiParser.js:84-109 | no segment text is empty, and the segment texts spell the text with every colour sequence removed |
| AnsiParser.PlainTextIsOneSegment | frontend/src/utils/ansiParser.js:102-109 | a non-empty text without escape sequences is one segment in the default style |
| AnsiParser.SegmentsSpellStripped | frontend/src/utils/ansiParser.js:84-117 | every segment has text; when text survives, the segments spell the stripped text; when nothing survives, there is one segment holding the raw input in the style left by the last sequence |
| AnsiParser.RedSampleMatches | frontend/src/utils/__tests__/ansiParser.test.js:13-21 | the sample `ESC[31mRed textESC[0m` has two colour sequences, at 0-5 and 13-17, with "Red text" between them |
| AnsiParser.RedSampleCodes | frontend/src/utils/ansiParser.js:96 | the sample's parameters read as `[31]` and `[0]` |
| AnsiParser.RedSampleStyle | frontend/src/utils/ansiParser.js:198-199 | code 31 on the default style gives red |
| AnsiParser.RedTextIsOneSegment | frontend/src/utils/__tests__/ansiParser.test.js:13-21 | the sample gives exactly one red "Red text" segment, not the two the test expects |
| AnsiParser.StripAnsi | frontend/src/utils/ansiParser.js:215-221 | a missing text gives ""; the result is never longer than the input |
| AnsiParser.HasAnsiSequences | frontend/src/utils/ansiParser.js:260-266 | `hasAnsiSequences`: false for a missing or empty text; otherwise whether an `ESC[…letter` occurrence exists; HasAnsiIffStripChanges ties it to `stripAnsi` |
| AnsiParser.HasAnsiIffStripChanges | frontend/src/utils/ansiParser.js:260-266 | a text has an escape sequence exactly when `stripAnsi` changes it |
| AnsiParser.ClassTable | frontend/src/utils/ansiParser.js:235-250 | one candidate class per style attribute the function tests, eight in all |
| AnsiParser.SelectedAppend | frontend/src/utils/ansiParser.js:233-250 | selecting the classes of two consecutive parts of the table gives the classes of the first part followed by those of the second |
| AnsiParser.CssClassesAreSelection | frontend/src/utils/ansiParser.js:233-250 | the classes of the whole table are the colour classes, then the weight classes, then the line classes |
| AnsiParser.PushColorClasses | frontend/src/utils/ansiParser.js:235-242 | pushes exactly the colour and background classes whose value is truthy, in order |
| AnsiParser.PushWeightClasses | frontend/src/utils/ansiParser.js:245-246 | pushes exactly the bold and dim classes that are set, in order |
| AnsiParser.PushLineClasses | frontend/src/utils/ansiParser.js:247-250 | pushes exactly the italic, underline, reverse and strikethrough classes that are set, in order |
| AnsiParser.AnsiToCss | frontend/src/utils/ansiParser.js:228-253 | a missing style gives ""; otherwise the space-joined classes of the set attributes, in the table's order |
| AnsiParser.JoinEmptyIff | frontend/src/utils/ansiParser.js:252 | joining non-empty class names gives "" exactly when there are none |
| AnsiParser.SelectedNamesNonEmpty | frontend/src/utils/ansiParser.js:233-250 | when no class name is empty, no selected name is empty |
| AnsiParser.SelectedEmptyIff | frontend/src/utils/ansiParser.js:233-250 | nothing is selected exactly when no row of the table is set |
| AnsiParser.SelectedNoSeparator | frontend/src/utils/ansiParser.js:233-250 | no selected name contains a character that no class name contains |
| AnsiParser.CssSplitsIntoClasses | frontend/src/utils/ansiParser.js:228-253 | when colour names contain no space, splitting the CSS string on spaces gives back exactly the selected classes |
| AnsiParser.CssEmptyIffPlain | frontend/src/utils/ansiParser.js:228-253 | the CSS string is "" exactly when none of the eight attributes is set, so `{}` and the default style give "" |
| AnsiParser.CursorCommandOf | frontend/src/utils/ansiParser.js:284-320 | H and f give the position whose row is the first `;`-field and whose column is the second, each defaulting to 1 when missing, empty or 0; A, B, C and D give up, down, forward and backward by the first field, defaulting to 1; so every count, row and column is at least 1 |
| AnsiParser.CursorPositionParams | frontend/src/utils/ansiParser.js:284-295 | `ESC[row;col…H` gives the position of the first two fields, each defaulting to 1; any further fields are ignored |
| AnsiParser.CursorUpSamples | frontend/src/utils/ansiParser.js:284-301 | `ESC[5A` moves up 5, and `ESC[A` and `ESC[0A` move up 1 |
| AnsiParser.CursorRowSample | frontend/src/utils/ansiParser.js:284-295 | `ESC[5H` goes to row 5 column 1 |
| AnsiParser.CursorRowColumnSample | frontend/src/utils/ansiParser.js:284-295 | `ESC[2;3f` goes to row 2 column 3 |
| AnsiParser.CursorCommandsIn | frontend/src/utils/ansiParser.js:282-321 | one command per cursor sequence, in order |
| AnsiParser.CollectCursorCommands | frontend/src/utils/ansiParser.js:282-321 | the loop yields one command per cursor sequence, the i-th being the command of the i-th sequence |
| AnsiParser.ParseCursorAnsi | frontend/src/utils/ansiParser.js:273-327 | a missing or empty text is returned as it is, with no commands; otherwise the commands of the cursor sequences, in order, and the text with those sequences removed |
| AnsiParser.ClearCommandOf | frontend/src/utils/ansiParser.js:345-360 | a command exactly for parameter 0-3: 0 or a missing parameter clears to the end, 1 to the beginning, 2 the screen and 3 everything |
| AnsiParser.ClearCommandsFrom | frontend/src/utils/ansiParser.js:343-361 | at most one command per sequence |
| AnsiParser.ClearCommandsAllKnown | frontend/src/utils/ansiParser.js:343-361 | exactly one command per sequence when all parameters are 0-3 |
| AnsiParser.ClearCommandsNoneKnown | frontend/src/utils/ansiParser.js:343-361 | no command at all when all parameters are above 3 |
| AnsiParser.ClearMatchesHaveDigits | frontend/src/utils/ansiParser.js:7 | clear sequences carry only digits as parameters |
| AnsiParser.CollectClearCommands | frontend/src/utils/ansiParser.js:343-361 | the loop yields the commands of the recognised clear sequences, in order |
| AnsiParser.ParseClearAnsi | frontend/src/utils/ansiParser.js:334-367 | a missing or empty text is returned as it is, with no commands; otherwise the recognised commands in order, and the text with every clear sequence removed, including unrecognised ones |
| AnsiOutput.ParseText | frontend/src/hooks/useAnsiParser.js:14-22 | a missing or empty text gives no segments; otherwise the segments of `parseAnsi` |
| AnsiOutput.WithoutControls | frontend/src/hooks/useAnsiParser.js:61-65 | the text that reaches colour parsing: the cursor sequences, then the clear sequences, deleted |
| AnsiOutput.ClearCommandsAfterCursor | frontend/src/hooks/useAnsiParser.js:61-62 | the clear commands of the text the cursor pass leaves, in order |
| AnsiOutput.OutputOf | frontend/src/hooks/useAnsiParser.js:51-58 | a missing or empty input gives empty segments, no commands and "" |
| AnsiOutput.ProcessTerminalOutput | frontend/src/hooks/useAnsiParser.js:50-73 | cursor commands come from the raw text; clear commands come from the text after the cursor pass; segments are `parseAnsi` of the text after both passes; clean text is `stripAnsi` of the raw text |
| AnsiOutput.OutputCounts | frontend/src/hooks/useAnsiParser.js:61-71 | one cursor command per cursor sequence of the input; at most one clear command per clear sequence left by the cursor pass; clean text no longer than the input |
| AnsiOutput.OutputSegmentsSpellText | frontend/src/hooks/useAnsiParser.js:65-67 | every segment has text; when text survives all passes, the segments spell it |
| AnsiOutput.PlainOutput | frontend/src/hooks/useAnsiParser.js:50-73 | text without ESC gives one default segment, no commands, and itself as clean text |
| AnsiOutput.RunEndsAt | frontend/src/utils/ansiParser.js:4-7 | a parameter run ends at the first character that is not a parameter character |
| AnsiOutput.NoMatchAt | frontend/src/utils/ansiParser.js:4-7 | parameters followed by a character that is not a final character give no occurrence |
| AnsiOutput.OneMatchAt | frontend/src/utils/ansiParser.js:4-7 | parameters followed by a final character give the occurrence that ends just after it |
| AnsiOutput.ScreenSampleCursorPass | frontend/src/hooks/__tests__/useAnsiParser.test.js:77-81 | in `ESC[2J ESC[2;5H ESC[31mRed textESC[0m` the cursor pass finds only `ESC[2;5H` |
| AnsiOutput.ScreenSampleClearPass | frontend/src/hooks/__tests__/useAnsiParser.test.js:77-80 | the clear pass then finds only `ESC[2J` and leaves the red text |
| AnsiOutput.ScreenSampleClean | frontend/src/hooks/__tests__/useAnsiParser.test.js:77-83 | `stripAnsi` of the sample is "Red text" |
| AnsiOutput.ScreenSampleOutput | frontend/src/hooks/__tests__/useAnsiParser.test.js:74-84 | one clear-screen command, one cursor command to row 2 column 5, and clean text "Red text", as the test expects; one red segment where the test expects two |
| TerminalState.OutputPieces | frontend/src/hooks/useTerminalState.js:42-57 | a missing or empty output gives no line; no line contains a line break |
| TerminalState.OutputPiecesJoin | frontend/src/hooks/useTerminalState.js:42-57 | the lines joined with line breaks give back the output, apart from a final line break |
| TerminalState.OneLineOutput | frontend/src/hooks/useTerminalState.js:42-57 | a non-empty output without a line break becomes exactly one line |
| TerminalState.NumberedLines | frontend/src/hooks/useTerminalState.js:14-16 | one line per piece, in order, with consecutive ids from the counter and the given type |
| TerminalState.Newest | frontend/src/hooks/useTerminalState.js:59-67 | the last `MAX_OUTPUT_LINES` lines when there are more, otherwise all of them |
| TerminalState.LinesAfterOutput | frontend/src/hooks/useTerminalState.js:42-67 | the scrollback after the intended `addOutput`: the new numbered lines appended, then the newest 10000 kept; AppendKeepsNewest and AppendKeepsIds state its properties |
| TerminalState.AddOutputAsWritten | frontend/src/hooks/useTerminalState.js:18-23 | `addOutput` as written: a missing output returns, and otherwise `.some` is called on what `parseAnsi` returns, which throws unless that is an array |
| TerminalState.AddOutputAsWrittenThrows | frontend/src/hooks/useTerminalState.js:18-23 | as written, every string output, the empty one included, throws at `segments.some` before any line is added; a missing output returns |
| TerminalState.AppendKeepsNewest | frontend/src/hooks/useTerminalState.js:59-67 | after an append the scrollback is within the cap and is a suffix of old lines plus new lines; all old lines survive when they fit; the new lines come last |
| TerminalState.AppendKeepsIds | frontend/src/hooks/useTerminalState.js:12-16 | ids still increase along the scrollback and stay below the advanced counter |
| TerminalState.InsertText | frontend/src/hooks/useTerminalState.js:100-107 | the text appears at the cursor between the unchanged prefix and suffix, and the cursor moves past it |
| TerminalState.DeleteText | frontend/src/hooks/useTerminalState.js:109-124 | backward removes the character before the cursor and moves the cursor back; forward removes the character at the cursor; at the edges, or for any other direction, nothing changes |
| TerminalState.MoveCursorBy | frontend/src/hooks/useTerminalState.js:126-149 | left and right move by the amount, clamped to the line; home goes to 0 and end to the line's length; any other direction changes nothing; the line never changes |
| TerminalState.Backspaces | frontend/src/hooks/useTerminalState.js:109-116 | repeated backward deletes keep the cursor within the line |
| TerminalState.BackspacesUndoInsert | frontend/src/hooks/useTerminalState.js:100-116 | deleting backward as many times as characters were inserted restores the line and the cursor |
| TerminalState.LeftThenRight | frontend/src/hooks/useTerminalState.js:131-136 | moving left and then right by the same amount returns to the start, when the left move was not clamped |
| TerminalState.ForwardIsBackwardFromNext | frontend/src/hooks/useTerminalState.js:110-122 | a forward delete removes the character that a backward delete from one place further would remove |
| TerminalState.Terminal.constructor | frontend/src/hooks/useTerminalState.js:7-12 | the initial state: no lines, an empty input, cursor 0, at the bottom, counter 0 |
| TerminalState.Terminal.AddOutput | frontend/src/hooks/useTerminalState.js:18-67 | a missing output changes nothing; otherwise the new lines are appended with ids from the counter and the scrollback is capped; the counter advances by the number of new lines; the input and scroll state are unchanged |
| TerminalState.Terminal.MakeLines | frontend/src/hooks/useTerminalState.js:42-57 | the loop makes one numbered line per piece, skipping an empty last piece |
| TerminalState.Terminal.AddPrompt | frontend/src/hooks/useTerminalState.js:81-85 | a prompt that is present and not blank is added as output of type `prompt`; otherwise nothing changes |
| TerminalState.Terminal.ClearScreen | frontend/src/hooks/useTerminalState.js:87-93 | empties the scrollback and the input, resets the cursor and the scroll position, sets at-bottom, and keeps the id counter |
| TerminalState.Terminal.UpdateCurrentLine | frontend/src/hooks/useTerminalState.js:95-98 | sets the input line and moves the cursor to its end |
| TerminalState.Terminal.InsertAtCursor | frontend/src/hooks/useTerminalState.js:100-107 | the input becomes `InsertText` of the old input |
| TerminalState.Terminal.DeleteAtCursor | frontend/src/hooks/useTerminalState.js:109-124 | the input becomes `DeleteText` of the old input |
| TerminalState.Terminal.MoveCursor | frontend/src/hooks/useTerminalState.js:126-149 | the input becomes `MoveCursorBy` of the old input |
| TerminalState.Terminal.ExecuteCommand | frontend/src/hooks/useTerminalState.js:151-162 | returns the trimmed command and empties the input line, putting the cursor at 0 |
| TerminalState.Terminal.HandleScroll | frontend/src/hooks/useTerminalState.js:165-169 | records the scroll position; at-bottom holds exactly when the view's bottom edge is within 10 of the content's end |
| TerminalState.NearBottom | frontend/src/hooks/useTerminalState.js:167 | the at-bottom test of `handleScroll`, with its threshold of 10 |
| CommandHistory.StoredIsTrimmed | frontend/src/hooks/useCommandHistory.js:15 | a stored entry is its own trim |
| CommandHistory.Ignored | frontend/src/hooks/useCommandHistory.js:11 | the guard of `addCommand`: a missing command or one that trims to nothing |
| CommandHistory.Capped | frontend/src/hooks/useCommandHistory.js:23-28 | the last `MAX_HISTORY_SIZE` entries when there are more, otherwise all of them |
| CommandHistory.AppendKeepsWellFormed | frontend/src/hooks/useCommandHistory.js:17-31 | appending a trimmed entry that differs from the last one keeps the history capped, free of adjacent duplicates and trimmed |
| CommandHistory.StoreEntry | frontend/src/hooks/useCommandHistory.js:17-31 | the update computes `WithEntry`: a repeat of the newest entry leaves the history as it is, otherwise the entry is appended and the history is cut to its last `MAX_HISTORY_SIZE` entries |
| CommandHistory.WithEntry | frontend/src/hooks/useCommandHistory.js:17-31 | the history after the updater stores a trimmed entry: unchanged when it repeats the newest entry, otherwise appended and capped at 1000; WithEntryWellFormed and WithEntryShape state its properties |
| CommandHistory.WithEntryWellFormed | frontend/src/hooks/useCommandHistory.js:17-31 | storing a trimmed, non-blank entry keeps the history within the size limit, free of adjacent repeats and made of trimmed entries |
| CommandHistory.WithEntryShape | frontend/src/hooks/useCommandHistory.js:17-31 | afterwards the newest entry is the one stored; a new entry is appended, and when the history was full the oldest entry is dropped |
| CommandHistory.AddStoresEntry | frontend/src/hooks/useCommandHistory.js:10-31 | a non-blank command stores its trimmed text, and the history stays well formed |
| CommandHistory.HistoryAfterAdd | frontend/src/hooks/useCommandHistory.js:10-31 | the history after `addCommand`: unchanged for an ignored command, otherwise the trimmed command stored; AddStoresEntry and AddKeepsWellFormed state its properties |
| CommandHistory.AddKeepsWellFormed | frontend/src/hooks/useCommandHistory.js:10-36 | the history stays well formed; a missing or blank command leaves it unchanged; otherwise the last entry is the trimmed command, added exactly once unless it repeats the last entry, dropping the oldest when full |
| CommandHistory.Up | frontend/src/hooks/useCommandHistory.js:38-61 | with an empty history nothing changes; starting to browse saves the draft and goes to the newest entry; from entry 0 it stays at entry 0, and from any later entry it moves exactly one entry older, keeping the draft |
| CommandHistory.Down | frontend/src/hooks/useCommandHistory.js:63-80 | when not browsing nothing changes; otherwise moves one entry newer, and past the newest it stops browsing; the draft is kept |
| CommandHistory.CommandAt | frontend/src/hooks/useCommandHistory.js:82-88 | the draft when not browsing, otherwise the browsed entry |
| CommandHistory.Ups | frontend/src/hooks/useCommandHistory.js:38-61 | repeated up presses keep the position valid |
| CommandHistory.Downs | frontend/src/hooks/useCommandHistory.js:63-80 | repeated down presses keep the position valid |
| CommandHistory.UpsFromEntry | frontend/src/hooks/useCommandHistory.js:51-54 | k up presses from entry i, with k ≤ i, reach entry i-k and keep the draft |
| CommandHistory.DownsFromEntry | frontend/src/hooks/useCommandHistory.js:69-78 | the down presses from entry i to past the newest end browsing and keep the draft |
| CommandHistory.UpsThenDownsRestoreDraft | frontend/src/hooks/useCommandHistory.js:38-88 | k up presses from the prompt reach the k-th newest entry; as many down presses then give back the line that was being typed |
| CommandHistory.History.constructor | frontend/src/hooks/useCommandHistory.js:6-8 | empty history, not browsing, empty draft |
| CommandHistory.History.AddCommand | frontend/src/hooks/useCommandHistory.js:10-36 | the history becomes `HistoryAfterAdd`; a missing or blank command leaves the navigation as it was; any other command resets it |
| CommandHistory.History.NavigateUp | frontend/src/hooks/useCommandHistory.js:38-61 | the navigation becomes `Up` of the old one; the history is unchanged |
| CommandHistory.History.NavigateDown | frontend/src/hooks/useCommandHistory.js:63-80 | the navigation becomes `Down` of the old one; the history is unchanged |
| CommandHistory.History.GetCurrentCommand | frontend/src/hooks/useCommandHistory.js:82-88 | the command at the current navigation |
| CommandHistory.History.ResetNavigation | frontend/src/hooks/useCommandHistory.js:90-93 | stops browsing and empties the draft; the history is kept |
| CommandHistory.History.ClearHistory | frontend/src/hooks/useCommandHistory.js:95-99 | empty history, not browsing, empty draft |
| CommandHistory.History.GetHistoryItem | frontend/src/hooks/useCommandHistory.js:101-106 | an entry exactly for an index inside the history, and that entry; otherwise none |
| CommandHistory.History.NavigatingIffAtEntry | frontend/src/hooks/useCommandHistory.js:108 | browsing exactly when the index points at an entry; when not browsing, the current command is the draft |
| CommandHistory.History.IsNavigating | frontend/src/hooks/useCommandHistory.js:108 | `isNavigating`: the index is not -1; NavigatingIffAtEntry states what that means |
| KeyboardHandler.Shortcut | frontend/src/hooks/useKeyboardHandler.js:23-49 | with Ctrl/Cmd, only c, l and v are handled by the first switch; every other key falls through |
| KeyboardHandler.EditingKey | frontend/src/hooks/useKeyboardHandler.js:52-122 | the editing-key `switch`; EditingKeys states its table and OtherKeysIgnored its default |
| KeyboardHandler.HandleKeyDown | frontend/src/hooks/useKeyboardHandler.js:18-133 | the default browser action is prevented exactly when a callback is triggered |
| KeyboardHandler.Shortcuts | frontend/src/hooks/useKeyboardHandler.js:25-45 | Ctrl/Cmd+C copies when there is a selection and interrupts otherwise; Ctrl/Cmd+L clears; Ctrl/Cmd+V does nothing and lets the paste through |
| KeyboardHandler.ControlFallsThrough | frontend/src/hooks/useKeyboardHandler.js:46-122 | with Ctrl/Cmd held, Enter, the arrows, Home, End, Backspace, Delete and Tab act as they do without it |
| KeyboardHandler.EditingKeys | frontend/src/hooks/useKeyboardHandler.js:52-122 | Enter submits the line, ArrowUp and ArrowDown browse the history, Backspace and Delete delete backward and forward, and Tab inserts two spaces; each prevents the default action |
| KeyboardHandler.CursorKeys | frontend/src/hooks/useKeyboardHandler.js:74-100 | ArrowLeft, ArrowRight, Home and End move the cursor left, right, home and end, and prevent the default action |
| KeyboardHandler.OtherKeysIgnored | frontend/src/hooks/useKeyboardHandler.js:124-131 | any other key that is not a single character triggers nothing and keeps the default action |
| KeyboardHandler.PrintableCharacters | frontend/src/hooks/useKeyboardHandler.js:124-132 | a single character typed without Ctrl/Cmd is inserted; with Ctrl/Cmd, a single character other than c, l and v does nothing |
| KeyboardHandler.SelectionOnlyForCopy | frontend/src/hooks/useKeyboardHandler.js:25-35 | the selection affects only Ctrl/Cmd+C |
| KeyboardHandler.ReplaceLineBreaks | frontend/src/hooks/useKeyboardHandler.js:171 | same length; every CR and LF becomes a space and every other character is kept |
| KeyboardHandler.RemoveControlChars | frontend/src/hooks/useKeyboardHandler.js:172 | no control character (0x00-0x1F, 0x7F) remains, and the text never grows |
| KeyboardHandler.CleanPaste | frontend/src/hooks/useKeyboardHandler.js:170-172 | the cleaned paste: line breaks become spaces, then control characters are removed; CleanPasteBounds, CleanPasteEmptyIff and CleanPasteIdempotent state its properties |
| KeyboardHandler.PasteInput | frontend/src/hooks/useKeyboardHandler.js:168-176 | text is inserted exactly when the cleaned paste is non-empty, and the inserted text is the cleaned paste |
| KeyboardHandler.CleanPasteBounds | frontend/src/hooks/useKeyboardHandler.js:170-172 | the cleaned paste has no control character and is never longer than the paste |
| KeyboardHandler.RemoveKeepsOthers | frontend/src/hooks/useKeyboardHandler.js:172 | removing control characters from a text cut in two is removing them from each piece |
| KeyboardHandler.CleanPasteEmptyIff | frontend/src/hooks/useKeyboardHandler.js:170-176 | nothing is inserted exactly when the paste consists only of control characters other than CR and LF |
| KeyboardHandler.CleanPasteIdempotent | frontend/src/hooks/useKeyboardHandler.js:170-172 | cleaning a cleaned paste changes nothing |
| KeyboardHandler.NoLineBreakUnchanged | frontend/src/hooks/useKeyboardHandler.js:171 | a text without control characters has no line break to replace |
| KeyboardHandler.NoControlUnchanged | frontend/src/hooks/useKeyboardHandler.js:172 | a text without control characters loses nothing |
| TerminalUtils.DefaultPrompt | frontend/src/utils/terminalUtils.js:15-17 | with every argument omitted the prompt is `user@localhost:~$ ` |
| TerminalUtils.PromptFields | frontend/src/utils/terminalUtils.js:15-17 | the prompt reads back: the user precedes the first `@`, user@host precedes the first `:`, the path lies between that `:` and the closing `$ ` |
| TerminalUtils.FormatPrompt | frontend/src/utils/terminalUtils.js:15-17 | `user@hostname:path$ ` with `user`, `localhost` and `~` for omitted arguments; DefaultPrompt and PromptFields state what it gives |
| TerminalUtils.DangerousIsControlButWhitespace | frontend/src/utils/terminalUtils.js:34-37 | the rejected characters are exactly the ASCII control characters other than tab, LF and CR |
| TerminalUtils.IsValidCommand | frontend/src/utils/terminalUtils.js:22-46 | what `validateCommand` accepts: a present string of 1 to 10000 characters with no dangerous character; ValidateCommand proves the loop computes it |
| TerminalUtils.ValidateCommand | frontend/src/utils/terminalUtils.js:22-46 | accepts exactly a present command of length 1-10000 that contains no rejected character |
| TerminalUtils.RemoveMatches | frontend/src/utils/terminalUtils.js:58-59 | no character of the pattern remains; the text never grows and gains no new character |
| TerminalUtils.NormalizeCrLf | frontend/src/utils/terminalUtils.js:60 | the text never grows and gains no new character |
| TerminalUtils.ReplaceCr | frontend/src/utils/terminalUtils.js:61 | same length; every CR becomes LF and every other character is kept |
| TerminalUtils.SanitizeInput | frontend/src/utils/terminalUtils.js:51-62 | `sanitizeInput`: "" for a missing or empty input; otherwise NUL removed, the other control characters removed, CRLF and then CR turned into LF; SanitizedIsDisplayable, SanitizeIdempotent and SanitizeKeepsVisible state its properties |
| TerminalUtils.SanitizedIsDisplayable | frontend/src/utils/terminalUtils.js:51-62 | no NUL, no CR and no control character other than tab and LF; never longer than the input; a missing or empty input gives "" |
| TerminalUtils.RemoveMatchesNone | frontend/src/utils/terminalUtils.js:58-59 | a text without the pattern's characters is unchanged |
| TerminalUtils.NormalizeCrLfNone | frontend/src/utils/terminalUtils.js:60 | a text without CR is unchanged |
| TerminalUtils.DisplayableUnchanged | frontend/src/utils/terminalUtils.js:57-61 | a displayable text is left as it is |
| TerminalUtils.SanitizeIdempotent | frontend/src/utils/terminalUtils.js:57-61 | sanitising twice is sanitising once |
| TerminalUtils.SanitizedIsValid | frontend/src/utils/terminalUtils.js:22-62 | a command of length 1-10000 whose sanitised form is non-empty passes validation once sanitised |
| TerminalUtils.RemoveMatchesKeepsVisible | frontend/src/utils/terminalUtils.js:58-59 | removing controls keeps every non-control character, in order |
| TerminalUtils.NormalizeCrLfKeepsVisible | frontend/src/utils/terminalUtils.js:60 | normalising CRLF keeps every non-control character, in order |
| TerminalUtils.ReplaceCrKeepsVisible | frontend/src/utils/terminalUtils.js:61 | replacing CR keeps every non-control character, in order |
| TerminalUtils.SanitizeKeepsVisible | frontend/src/utils/terminalUtils.js:56-61 | sanitising only removes or rewrites control characters: every other character survives, in order |
| TerminalUtils.ScrolledAgreesWithHandler | frontend/src/utils/terminalUtils.js:158-163 | a missing element counts as at the bottom; with the default threshold of 10 the helper agrees exactly with the terminal's scroll handler |
| TerminalUtils.IsScrolledToBottom | frontend/src/utils/terminalUtils.js:158-163 | a missing element is at the bottom; otherwise the position is within the threshold, 10 when omitted, of the end; ScrolledAgreesWithHandler and ThresholdMonotone state its properties |
| TerminalUtils.ThresholdMonotone | frontend/src/utils/terminalUtils.js:158-163 | a larger threshold accepts every position a smaller one does; a view whose bottom edge reaches the end is at the bottom for any non-negative threshold |
| Strings.TrimStart | frontend/src/hooks/useCommandHistory.js:15 | removes only leading whitespace, and the result does not start with whitespace |
| Strings.TrimEnd | frontend/src/hooks/useCommandHistory.js:15 | removes only trailing whitespace, and the result does not end with whitespace |
| Strings.Trim | frontend/src/hooks/useCommandHistory.js:15 | JavaScript `trim`: TrimStart, then TrimEnd; TrimShape and TrimIdempotent state its properties |
| Strings.TrimShape | frontend/src/hooks/useCommandHistory.js:15 | the trimmed text is no longer than the text, and is empty or neither starts nor ends with whitespace |
| Strings.BlankIffAllWhitespace | frontend/src/hooks/useCommandHistory.js:11 | `!command.trim()` holds exactly when the command is all whitespace |
| Strings.TrimIdempotent | frontend/src/hooks/useTerminalState.js:161 | trimming twice is trimming once |
| Strings.Split | frontend/src/hooks/useTerminalState.js:42 | JavaScript `split` on one character: at least one piece, and no piece contains the separator |
| Strings.Join | frontend/src/utils/ansiParser.js:252 | JavaScript `join` with one character: the pieces with the separator between them; JoinSplit and SplitJoin tie it to Split |
| Strings.JoinSplit | frontend/src/hooks/useTerminalState.js:42 | joining the pieces of a split with the separator gives the text back |
| Strings.SplitJoin | frontend/src/utils/ansiParser.js:252 | splitting a join of pieces without the separator gives the pieces back |

## Left out

- **Rest of the repository.** `useWebSocket.js`, the Python back end and every `.jsx` component are not part of this model: they are I/O and UI wiring. `Terminal.jsx` matters only because it passes every callback to the key handler, which the model takes as given.
- **React scheduling.** Batched `setState`, stale closures and setters called inside updaters are not modelled. Each operation reads the latest state.
- **Side effects.** DOM auto-scroll, `setTimeout`, `new Date()` timestamps and `scrollToBottom` with its effect have no model. The clipboard read and the `console.warn` in `handlePaste` have none either: the model starts from the pasted text.
- **Other helpers.** `handleKeyPress` only prevents the default action, and the memoised pass-throughs of `useAnsiParser` add no behaviour. The float, time and random helpers of `terminalUtils.js` are left out as well.
- **Screen-clear branch of `addOutput`** (useTerminalState.js:25-39). It is unreachable, because no segment carries `controls`. The model follows the corrected test; see Findings.
- **`hasAnsiSequences` and `lastIndex`.** The `/g` regular expression's `lastIndex` carry-over makes consecutive calls stateful. `HasAnsiSequences` models the stateless "an occurrence exists" meaning.
- **Character encoding.** `key.length === 1` and every string length count UTF-16 units, whereas a Dafny `char` is a Unicode scalar value. Characters outside the BMP are therefore not modelled as the browser sees them.
- **Number parsing.** `parseInt` is modelled exactly for the digit strings the regular expressions admit. The loss of precision on very long digit strings is not modelled.
- **Absent and non-string values.** A non-string value where a string is expected is `None`. Truthy non-strings, which would make `split` or `trim` throw, are not modelled.
- **Scroll metrics.** They are integers in the model, not floating-point numbers.
- **Line ids.** Each id is the counter value `n`, not the string `line-n`.
- TerminalState.Terminal.MoveCursor: a negative `amount` is not modelled; the amount is a `nat`. The default `amount = 1` of `moveCursor` is left to the caller.
- TerminalState.Terminal.DeleteAtCursor: the default `direction = 'backward'` of `deleteAtCursor` is left to the caller.
- TerminalState.Terminal.AddOutput: the auto-scroll timer that it starts when at the bottom is not modelled. The default `type = 'output'` of `addOutput` is left to the caller; every caller in `Terminal.jsx` passes the type explicitly.
- KeyboardHandler.HandleKeyDown: the presence checks on each callback are taken as true, and `currentLine` is always defined. Both hold for the only caller, `Terminal.jsx`. The `shiftKey` field is read but never used in the source.
- TerminalUtils.FormatPrompt: an explicit `null` argument is not modelled. There JavaScript prints "null" instead of applying the default, while `None` takes the default.
- TerminalUtils.IsScrolledToBottom: an explicit `null` threshold is not modelled. JavaScript reads it as 0, while `None` takes the default of 10.
- AnsiParser.ParseAnsi: the tests at ansiParser.test.js:17-21 and 28-32 and useAnsiParser.test.js:18 and 82 expect an empty trailing segment. The code cannot produce one, and the model follows the code.

## Findings

| source | as written | input that shows it | evidently intended | confidence | as-written member | corrected member |
|---|---|---|---|---|---|---|
| frontend/src/hooks/useTerminalState.js:22-23 | `parseAnsi(output)` returns the object `{ segments }`, and `addOutput` calls `.some` on that object, which throws a TypeError for every string output | `addOutput("hello")` throws before adding a line, instead of adding the line "hello" | test the segment list (`parseAnsi(output).segments.some(...)`); that test is always false, so the append path runs | high (not executed) | TerminalState.AddOutputAsWrittenThrows | TerminalState.Terminal.AddOutput |
