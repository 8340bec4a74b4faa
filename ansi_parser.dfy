/** The escape-sequence parser of the terminal front end: the four regular
    expressions of the parser written as recursive scanners over the text,
    the SGR style machine, and the extraction of cursor (CUP, HVP, CUU, CUD,
    CUF, CUB) and erase-in-display (ED) commands.  The control functions are
    those of ECMA-48; the 90-97 and 100-107 colours are the aixterm
    extension and ED parameter 3 is the xterm extension. */
module AnsiParser {
  import opened Wrappers
  import opened Strings

  const ESC: char := 27 as char

  // ---------------------------------------------------------------------
  // The four patterns
  //   AnyEscape  ESC '[' [0-9;]* [a-zA-Z]
  //   ColorCodes ESC '[' [0-9;]* 'm'
  //   CursorCodes ESC '[' [0-9;]* [HfABCD]
  //   ClearCodes ESC '[' [0-9]* 'J'
  // ---------------------------------------------------------------------

  datatype Pattern = AnyEscape | ColorCodes | CursorCodes | ClearCodes

  predicate IsDigit(c: char)
  {
    '0' <= c <= '9'
  }

  predicate AllDigits(s: string)
  {
    forall k :: 0 <= k < |s| ==> IsDigit(s[k])
  }

  /** The characters the pattern allows between `ESC [` and the final character. */
  predicate IsParamChar(p: Pattern, c: char)
  {
    IsDigit(c) || (p != ClearCodes && c == ';')
  }

  predicate AllParamChars(p: Pattern, s: string)
  {
    forall k :: 0 <= k < |s| ==> IsParamChar(p, s[k])
  }

  predicate IsFinalChar(p: Pattern, c: char)
  {
    match p
    case AnyEscape => ('a' <= c <= 'z') || ('A' <= c <= 'Z')
    case ColorCodes => c == 'm'
    case CursorCodes => c == 'H' || c == 'f' || c == 'A' || c == 'B' || c == 'C' || c == 'D'
    case ClearCodes => c == 'J'
  }

  /** The language of a pattern: `s[i..j]` is one occurrence of it. */
  predicate IsMatch(p: Pattern, s: string, i: nat, j: nat)
  {
    i + 3 <= j <= |s| && s[i] == ESC && s[i + 1] == '['
    && (forall k :: i + 2 <= k < j - 1 ==> IsParamChar(p, s[k]))
    && IsFinalChar(p, s[j - 1])
  }

  /** One occurrence found in a text: `text[start..end]`, its parameter string and its final character. */
  datatype Match = Match(start: nat, end: nat, params: string, final: char)

  predicate MatchIn(p: Pattern, s: string, m: Match)
  {
    IsMatch(p, s, m.start, m.end) && m.params == s[m.start + 2..m.end - 1] && m.final == s[m.end - 1]
    && AllParamChars(p, m.params)
  }

  /** End of the longest run of parameter characters starting at `k`. */
  function ParamRunEnd(p: Pattern, s: string, k: nat): (j: nat)
    requires k <= |s|
    ensures k <= j <= |s|
    ensures forall t :: k <= t < j ==> IsParamChar(p, s[t])
    ensures j < |s| ==> !IsParamChar(p, s[j])
    decreases |s| - k
  {
    if k < |s| && IsParamChar(p, s[k]) then ParamRunEnd(p, s, k + 1) else k
  }

  /** The occurrence of the pattern that starts exactly at `i`, if any.
      The star is greedy and no final character is a parameter character,
      so backtracking into the run can never produce a match: reading the
      whole run is the regular expression's behaviour. */
  function MatchAt(p: Pattern, s: string, i: nat): (r: Option<Match>)
    requires i <= |s|
    ensures r.Some? ==> r.value.start == i && MatchIn(p, s, r.value)
  {
    if i + 2 <= |s| && s[i] == ESC && s[i + 1] == '[' then
      var j := ParamRunEnd(p, s, i + 2);
      if j < |s| && IsFinalChar(p, s[j]) then Some(Match(i, j + 1, s[i + 2..j], s[j])) else None
    else None
  }

  /** MatchAt misses no occurrence: an occurrence at `i` is the one it returns. */
  lemma MatchAtComplete(p: Pattern, s: string, i: nat, j: nat)
    requires IsMatch(p, s, i, j)
    ensures MatchAt(p, s, i).Some? && MatchAt(p, s, i).value.end == j
  {
    assert !IsParamChar(p, s[j - 1]);
  }

  /** At most one occurrence starts at a position. */
  lemma MatchUnique(p: Pattern, s: string, i: nat, j1: nat, j2: nat)
    requires IsMatch(p, s, i, j1) && IsMatch(p, s, i, j2)
    ensures j1 == j2
  {
    MatchAtComplete(p, s, i, j1);
    MatchAtComplete(p, s, i, j2);
  }

  /** The leftmost occurrence that starts at or after `i`. */
  function NextMatch(p: Pattern, s: string, i: nat): (r: Option<Match>)
    requires i <= |s|
    ensures r.Some? ==> i <= r.value.start && MatchIn(p, s, r.value) && MatchAt(p, s, r.value.start) == r
    decreases |s| - i
  {
    if i == |s| then None
    else match MatchAt(p, s, i)
      case Some(m) => Some(m)
      case None => NextMatch(p, s, i + 1)
  }

  /** The occurrence found is the leftmost: none starts between `i` and it. */
  lemma {:induction false} NextMatchLeftmost(p: Pattern, s: string, i: nat, m: Match)
    requires i <= |s| && NextMatch(p, s, i) == Some(m)
    ensures forall k :: i <= k < m.start ==> MatchAt(p, s, k).None?
    decreases |s| - i
  {
    var here := MatchAt(p, s, i);
    if here.Some? {
      assert m == here.value && m.start == i;
    } else {
      assert NextMatch(p, s, i + 1) == Some(m);
      NextMatchLeftmost(p, s, i + 1, m);
      forall k | i <= k < m.start
        ensures MatchAt(p, s, k).None?
      {
        if k == i {
          assert MatchAt(p, s, k) == here;
        }
      }
    }
  }

  /** When no occurrence is found, none starts anywhere from `i` on. */
  lemma {:induction false} NextMatchNoneMeansNoMatch(p: Pattern, s: string, i: nat)
    requires i <= |s| && NextMatch(p, s, i).None?
    ensures forall k :: i <= k <= |s| ==> MatchAt(p, s, k).None?
    decreases |s| - i
  {
    if i < |s| {
      assert MatchAt(p, s, i).None?;
      NextMatchNoneMeansNoMatch(p, s, i + 1);
    }
  }

  /** The matches are disjoint, in order, after `from` and inside a text of length `n`. */
  predicate Ordered(ms: seq<Match>, from: nat, n: nat)
    decreases |ms|
  {
    ms == [] || (from <= ms[0].start < ms[0].end <= n && Ordered(ms[1..], ms[0].end, n))
  }

  /** `[...text.matchAll(regex)]` restricted to `s[i..]`: leftmost, non-overlapping occurrences. */
  function Matches(p: Pattern, s: string, i: nat): (r: seq<Match>)
    requires i <= |s|
    ensures Ordered(r, i, |s|)
    ensures forall k :: 0 <= k < |r| ==> MatchIn(p, s, r[k])
    ensures forall k :: 0 <= k < |r| ==> AllParamChars(p, r[k].params) && IsFinalChar(p, r[k].final)
    decreases |s| - i
  {
    match NextMatch(p, s, i)
    case None => []
    case Some(m) => [m] + Matches(p, s, m.end)
  }

  /** `s.slice(i).replace(regex, '')`: the text between the occurrences. */
  function StripFrom(p: Pattern, s: string, i: nat): (r: string)
    requires i <= |s|
    ensures |r| <= |s| - i
    ensures NextMatch(p, s, i).Some? ==> |r| < |s| - i
    decreases |s| - i
  {
    match NextMatch(p, s, i)
    case None => s[i..]
    case Some(m) => s[i..m.start] + StripFrom(p, s, m.end)
  }

  function Strip(p: Pattern, s: string): string
  {
    StripFrom(p, s, 0)
  }

  /** A text without ESC holds no occurrence of any pattern. */
  lemma NoEscapeNoMatch(p: Pattern, s: string, i: nat)
    requires i <= |s| && ESC !in s
    ensures NextMatch(p, s, i).None?
  {
    assert forall k :: 0 <= k < |s| ==> s[k] != ESC;
  }

  /** Stripping returns the text unchanged exactly when there is nothing to strip. */
  lemma StripUnchangedIff(p: Pattern, s: string)
    ensures Strip(p, s) == s <==> NextMatch(p, s, 0).None?
  {
    if NextMatch(p, s, 0).None? {
      assert s[0..] == s;
    }
  }

  /** Positions without ESC can be skipped when looking for the next occurrence. */
  lemma {:induction false} NextMatchSkips(p: Pattern, s: string, i: nat, j: nat)
    requires i <= j <= |s|
    requires forall k :: i <= k < j ==> s[k] != ESC
    ensures NextMatch(p, s, i) == NextMatch(p, s, j)
    decreases j - i
  {
    if i < j {
      NextMatchStep(p, s, i);
      NextMatchSkips(p, s, i + 1, j);
    }
  }

  /** Where no ESC stands, the search moves on by one position. */
  lemma NextMatchStep(p: Pattern, s: string, i: nat)
    requires i < |s| && s[i] != ESC
    ensures NextMatch(p, s, i) == NextMatch(p, s, i + 1)
  {
  }

  // ---------------------------------------------------------------------
  // Numeric parameters
  // ---------------------------------------------------------------------

  /** The value of a decimal digit string, as `parseInt(d, 10)` computes it. */
  function DecimalValue(d: string): nat
    requires AllDigits(d)
  {
    if d == [] then 0 else 10 * DecimalValue(d[..|d| - 1]) + ((d[|d| - 1] as int) - ('0' as int))
  }

  /** `parseInt(field, 10) || dflt`: an empty field (NaN) or a zero reads as `dflt`. */
  function FieldOr(field: string, dflt: nat): (v: nat)
    requires AllDigits(field)
    ensures v == dflt || (v != 0 && field != [])
    ensures field == [] || DecimalValue(field) == 0 ==> v == dflt
    ensures field != [] && DecimalValue(field) != 0 ==> v == DecimalValue(field)
  {
    if field == [] then dflt
    else var n := DecimalValue(field); if n == 0 then dflt else n
  }

  /** A digit string reads as zero exactly when all its digits are 0. */
  lemma {:induction false} DecimalZeroIffZeros(d: string)
    requires AllDigits(d)
    ensures DecimalValue(d) == 0 <==> forall k :: 0 <= k < |d| ==> d[k] == '0'
  {
    if d != [] {
      var init := d[..|d| - 1];
      assert AllDigits(init) by {
        forall k | 0 <= k < |init| ensures IsDigit(init[k]) {
          assert init[k] == d[k];
        }
      }
      DecimalZeroIffZeros(init);
      assert forall k :: 0 <= k < |init| ==> init[k] == d[k];
    }
  }

  /** Sample fields: "12" reads as 12, "007" as 7, and "0", "00" and "" read as the default. */
  lemma FieldSamples()
    ensures FieldOr("12", 1) == 12 && FieldOr("007", 0) == 7
    ensures FieldOr("0", 1) == 1 && FieldOr("00", 1) == 1 && FieldOr("", 1) == 1
  {
    assert "12"[..1] == "1" && "1"[..0] == [];
    assert "007"[..2] == "00" && "00"[..1] == "0" && "0"[..0] == [];
  }

  /** `fields.map(f => parseInt(f, 10) || dflt)` */
  function FieldValues(fields: seq<string>, dflt: nat): (r: seq<nat>)
    requires forall k :: 0 <= k < |fields| ==> AllDigits(fields[k])
    ensures |r| == |fields|
    ensures forall k :: 0 <= k < |r| ==> r[k] == FieldOr(fields[k], dflt)
  {
    if fields == [] then [] else [FieldOr(fields[0], dflt)] + FieldValues(fields[1..], dflt)
  }

  /** The `;`-separated fields of a parameter string are digit strings. */
  lemma FieldsAreDigits(p: Pattern, params: string)
    requires AllParamChars(p, params)
    ensures forall k :: 0 <= k < |Split(params, ';')| ==> AllDigits(Split(params, ';')[k])
  {
    var fields := Split(params, ';');
    forall k, j | 0 <= k < |fields| && 0 <= j < |fields[k]| ensures IsDigit(fields[k][j]) {
      SplitPiecesFrom(params, ';', k, j);
      assert fields[k][j] != ';';
    }
  }

  /** `params.split(';').map(p => parseInt(p, 10) || dflt)` */
  function ParamValues(p: Pattern, params: string, dflt: nat): (r: seq<nat>)
    requires AllParamChars(p, params)
    ensures |r| >= 1
    ensures |r| == |Split(params, ';')|
    ensures forall k :: 0 <= k < |r| ==> AllDigits(Split(params, ';')[k]) && r[k] == FieldOr(Split(params, ';')[k], dflt)
  {
    FieldsAreDigits(p, params);
    FieldValues(Split(params, ';'), dflt)
  }

  // ---------------------------------------------------------------------
  // Styles (SGR)
  // ---------------------------------------------------------------------

  /** The style record the parser spreads into every segment. A colour is the
      table's name for it ("red", "bright-blue"). */
  datatype Style = Style(
    color: Option<string>,
    backgroundColor: Option<string>,
    bold: bool,
    dim: bool,
    italic: bool,
    underline: bool,
    reverse: bool,
    strikethrough: bool)

  const DefaultStyle: Style := Style(None, None, false, false, false, false, false, false)

  /** A run of text and the style in effect while it was written. */
  datatype Segment = Segment(text: string, style: Style)

  /** The eight base colour names, in code order. */
  const ColorNames: seq<string> := ["black", "red", "green", "yellow", "blue", "magenta", "cyan", "white"]

  /** The codes the foreground table has an entry for. */
  predicate IsForegroundCode(code: nat)
  {
    30 <= code <= 37 || 90 <= code <= 97
  }

  /** The codes the background table has an entry for. */
  predicate IsBackgroundCode(code: nat)
  {
    40 <= code <= 47 || 100 <= code <= 107
  }

  /** `ANSI_COLORS[code]`: 30-37 the base colours, 90-97 their "bright-" forms. */
  function AnsiColor(code: nat): Option<string>
  {
    if 30 <= code <= 37 then Some(ColorNames[code - 30])
    else if 90 <= code <= 97 then Some("bright-" + ColorNames[code - 90])
    else None
  }

  /** `ANSI_BG_COLORS[code]`: 40-47 the base colours, 100-107 their "bright-" forms. */
  function AnsiBgColor(code: nat): Option<string>
  {
    if 40 <= code <= 47 then Some(ColorNames[code - 40])
    else if 100 <= code <= 107 then Some("bright-" + ColorNames[code - 100])
    else None
  }

  /** The foreground table covers exactly 30-37 and 90-97, the background
      table exactly 40-47 and 100-107, and a background code names the
      colour of the foreground code ten below it. */
  lemma ColorTables(code: nat)
    ensures AnsiColor(code).Some? <==> IsForegroundCode(code)
    ensures AnsiBgColor(code).Some? <==> IsBackgroundCode(code)
    ensures AnsiBgColor(code + 10) == AnsiColor(code)
    ensures AnsiColor(31) == Some("red") && AnsiColor(91) == Some("bright-red") && AnsiBgColor(40) == Some("black")
  {
    assert "bright-" + ColorNames[1] == "bright-red";
  }

  /** One step of the `switch` in `parseAnsiCodes`; its last two branches
      test whether a colour table has an entry, which `ColorTables` shows to
      be the ranges written here. */
  function ApplyCode(st: Style, code: nat): (r: Style)
    ensures !IsKnownCode(code) ==> r == st
    ensures r.color == (if code == 0 || code == 39 then None else if IsForegroundCode(code) then AnsiColor(code) else st.color)
    ensures r.backgroundColor == (if code == 0 || code == 49 then None else if IsBackgroundCode(code) then AnsiBgColor(code) else st.backgroundColor)
    ensures r.bold == (if code == 0 || code == 22 then false else if code == 1 then true else st.bold)
    ensures r.dim == (if code == 0 || code == 22 then false else if code == 2 then true else st.dim)
    ensures r.italic == (if code == 0 || code == 23 then false else if code == 3 then true else st.italic)
    ensures r.underline == (if code == 0 || code == 24 then false else if code == 4 then true else st.underline)
    ensures r.reverse == (if code == 0 || code == 27 then false else if code == 7 then true else st.reverse)
    ensures r.strikethrough == (if code == 0 || code == 29 then false else if code == 9 then true else st.strikethrough)
  {
    if code == 0 then DefaultStyle
    else if code == 1 then st.(bold := true)
    else if code == 2 then st.(dim := true)
    else if code == 3 then st.(italic := true)
    else if code == 4 then st.(underline := true)
    else if code == 7 then st.(reverse := true)
    else if code == 9 then st.(strikethrough := true)
    else if code == 22 then st.(bold := false, dim := false)
    else if code == 23 then st.(italic := false)
    else if code == 24 then st.(underline := false)
    else if code == 27 then st.(reverse := false)
    else if code == 29 then st.(strikethrough := false)
    else if code == 39 then st.(color := None)
    else if code == 49 then st.(backgroundColor := None)
    else if IsForegroundCode(code) then st.(color := AnsiColor(code))
    else if IsBackgroundCode(code) then st.(backgroundColor := AnsiBgColor(code))
    else st
  }

  /** The codes `parseAnsiCodes` acts on; every other code is ignored (SGR 21 among them). */
  predicate IsKnownCode(code: nat)
  {
    code in {0, 1, 2, 3, 4, 7, 9, 22, 23, 24, 27, 29, 39, 49}
    || IsForegroundCode(code) || IsBackgroundCode(code)
  }

  /** The codes applied left to right to a running style. */
  function ApplyCodes(codes: seq<nat>, st: Style): Style
  {
    if codes == [] then st else ApplyCodes(codes[1..], ApplyCode(st, codes[0]))
  }

  /** Codes that are neither 0, 39 nor a foreground colour leave the colour alone. */
  lemma {:induction false} ApplyCodesKeepsColor(codes: seq<nat>, st: Style)
    requires forall k :: 0 <= k < |codes| ==> codes[k] != 0 && codes[k] != 39 && !IsForegroundCode(codes[k])
    ensures ApplyCodes(codes, st).color == st.color
  {
    if codes != [] {
      var next := ApplyCode(st, codes[0]);
      assert forall k :: 0 <= k < |codes| - 1 ==> codes[1..][k] == codes[k + 1];
      ApplyCodesKeepsColor(codes[1..], next);
    }
  }

  /** Applying `a + b` is applying `a`, then `b` to the result. */
  lemma {:induction false} ApplyCodesConcat(a: seq<nat>, b: seq<nat>, st: Style)
    ensures ApplyCodes(a + b, st) == ApplyCodes(b, ApplyCodes(a, st))
  {
    if a == [] {
      assert a + b == b;
    } else {
      assert (a + b)[1..] == a[1..] + b;
      ApplyCodesConcat(a[1..], b, ApplyCode(st, a[0]));
    }
  }

  /** The last foreground code decides the colour, whatever came before it,
      as long as no 0 or 39 follows it. */
  lemma LastColorWins(before: seq<nat>, c: nat, after: seq<nat>, st: Style)
    requires IsForegroundCode(c)
    requires forall k :: 0 <= k < |after| ==> after[k] != 0 && after[k] != 39 && !IsForegroundCode(after[k])
    ensures ApplyCodes(before + [c] + after, st).color == AnsiColor(c)
  {
    ApplyCodesConcat(before + [c], after, st);
    ApplyCodesConcat(before, [c], st);
    ApplyCodesKeepsColor(after, ApplyCodes(before + [c], st));
  }

  /** A 0 anywhere in the list forgets everything before it. */
  lemma {:induction false} ResetForgetsPrefix(codes: seq<nat>, k: nat, st: Style)
    requires k < |codes| && codes[k] == 0
    ensures ApplyCodes(codes, st) == ApplyCodes(codes[k + 1..], DefaultStyle)
  {
    assert codes == codes[..k] + ([codes[k]] + codes[k + 1..]);
    ApplyCodesConcat(codes[..k], [codes[k]] + codes[k + 1..], st);
    assert ([codes[k]] + codes[k + 1..])[1..] == codes[k + 1..];
  }

  /** `match[1].split(';').map(code => parseInt(code, 10) || 0)` */
  function CodesOf(params: string): (r: seq<nat>)
    requires AllParamChars(ColorCodes, params)
    ensures |r| == |Split(params, ';')| >= 1
    ensures forall k :: 0 <= k < |r| ==> AllDigits(Split(params, ';')[k]) && r[k] == FieldOr(Split(params, ';')[k], 0)
  {
    ParamValues(ColorCodes, params, 0)
  }

  /** `ESC[m`, and every empty field in a longer list, reads as 0: a reset. */
  lemma EmptyParamsReset(st: Style)
    ensures ApplyCodes(CodesOf(""), st) == DefaultStyle
  {
    assert Split("", ';') == [""];
    assert CodesOf("") == [0];
  }

  /** `parseAnsiCodes(codes, currentStyle)`: copies the style and applies each code in turn. */
  method ParseAnsiCodes(codes: seq<nat>, currentStyle: Style) returns (newStyle: Style)
    ensures newStyle == ApplyCodes(codes, currentStyle)
  {
    newStyle := currentStyle;
    for i := 0 to |codes|
      invariant ApplyCodes(codes[i..], newStyle) == ApplyCodes(codes, currentStyle)
    {
      assert codes[i..][1..] == codes[i + 1..];
      newStyle := ApplyCode(newStyle, codes[i]);
    }
  }

  // ---------------------------------------------------------------------
  // parseAnsi
  // ---------------------------------------------------------------------

  /** The segments `parseAnsi`'s loop produces from position `i` on, with running style `st`:
      the non-empty text before each colour sequence, then the non-empty rest. */
  function RunsFrom(t: string, i: nat, st: Style): seq<Segment>
    requires i <= |t|
    decreases |t| - i
  {
    match NextMatch(ColorCodes, t, i)
    case None => if i < |t| then [Segment(t[i..], st)] else []
    case Some(m) =>
      (if i < m.start then [Segment(t[i..m.start], st)] else [])
      + RunsFrom(t, m.end, ApplyCodes(CodesOf(m.params), st))
  }

  /** The running style once every colour sequence from position `i` on has been applied. */
  function StyleAfter(t: string, i: nat, st: Style): Style
    requires i <= |t|
    decreases |t| - i
  {
    match NextMatch(ColorCodes, t, i)
    case None => st
    case Some(m) => StyleAfter(t, m.end, ApplyCodes(CodesOf(m.params), st))
  }

  /** What `parseAnsi(text).segments` is. Note: the function never emits a
      segment with empty text, so `ESC[31mRed text ESC[0m` gives ONE
      segment; the tests at frontend/src/utils/__tests__/ansiParser.test.js
      lines 17-21 and 28-32 and frontend/src/hooks/__tests__/useAnsiParser.test.js
      lines 18 and 82 expect an extra trailing "" segment, which this code
      cannot produce (see RedTextIsOneSegment and ScreenSampleOutput). */
  function AnsiSegments(text: Option<string>): seq<Segment>
  {
    if text.None? || text.value == [] then []
    else
      var t := text.value;
      var runs := RunsFrom(t, 0, DefaultStyle);
      if runs == [] then [Segment(t, StyleAfter(t, 0, DefaultStyle))] else runs
  }

  lemma MatchesStep(t: string, i: nat)
    requires i <= |t| && Matches(ColorCodes, t, i) != []
    ensures NextMatch(ColorCodes, t, i).Some?
    ensures var m := NextMatch(ColorCodes, t, i).value;
      Matches(ColorCodes, t, i) == [m] + Matches(ColorCodes, t, m.end)
  {
  }

  /** One step of the runs: the text before the next colour sequence, then the runs after it. */
  lemma RunsUnfold(t: string, i: nat, st: Style, m: Match)
    requires i <= |t| && NextMatch(ColorCodes, t, i) == Some(m)
    ensures i <= m.start < m.end <= |t|
    ensures RunsFrom(t, i, st)
      == (if t[i..m.start] != [] then [Segment(t[i..m.start], st)] else []) + RunsFrom(t, m.end, ApplyCodes(CodesOf(m.params), st))
    ensures StyleAfter(t, i, st) == StyleAfter(t, m.end, ApplyCodes(CodesOf(m.params), st))
  {
  }

  /** One colour sequence of the loop: the text before it (if any) joins the
      segments, and the runs after it continue in the updated style. */
  lemma RunsStep(t: string, i: nat, st: Style, segments: seq<Segment>, m: Match)
    requires i <= |t| && NextMatch(ColorCodes, t, i) == Some(m)
    requires segments + RunsFrom(t, i, st) == RunsFrom(t, 0, DefaultStyle)
    requires StyleAfter(t, i, st) == StyleAfter(t, 0, DefaultStyle)
    ensures i <= m.start < m.end <= |t|
    ensures var st' := ApplyCodes(CodesOf(m.params), st);
      && (if t[i..m.start] != [] then segments + [Segment(t[i..m.start], st)] else segments) + RunsFrom(t, m.end, st')
         == RunsFrom(t, 0, DefaultStyle)
      && StyleAfter(t, m.end, st') == StyleAfter(t, 0, DefaultStyle)
  {
    RunsUnfold(t, i, st, m);
    var before := t[i..m.start];
    var head := if before != [] then [Segment(before, st)] else [];
    ConcatStep(segments, head, RunsFrom(t, m.end, ApplyCodes(CodesOf(m.params), st)), RunsFrom(t, 0, DefaultStyle));
  }

  lemma ConcatStep(segments: seq<Segment>, head: seq<Segment>, rest: seq<Segment>, total: seq<Segment>)
    requires segments + (head + rest) == total
    ensures (if head != [] then segments + head else segments) + rest == total
  {
    assert segments + (head + rest) == (segments + head) + rest;
    if head == [] {
      assert segments + head == segments;
    }
  }

  /** Once no colour sequence is left, the rest of the text (if any) is the last segment. */
  lemma RunsEnd(t: string, i: nat, st: Style, segments: seq<Segment>)
    requires i <= |t| && NextMatch(ColorCodes, t, i).None?
    requires segments + RunsFrom(t, i, st) == RunsFrom(t, 0, DefaultStyle)
    requires StyleAfter(t, i, st) == StyleAfter(t, 0, DefaultStyle)
    ensures (if t[i..] != [] then segments + [Segment(t[i..], st)] else segments) == RunsFrom(t, 0, DefaultStyle)
    ensures st == StyleAfter(t, 0, DefaultStyle)
  {
  }

  /** `parseAnsi(text).segments`, with the source's loop over the colour matches. */
  method ParseAnsi(text: Option<string>) returns (segments: seq<Segment>)
    ensures segments == AnsiSegments(text)
  {
    if text.None? || text.value == [] {
      return [];
    }
    var t := text.value;
    segments := [];
    var currentIndex: nat := 0;
    var currentStyle := DefaultStyle;
    var matches := Matches(ColorCodes, t, 0);
    for k := 0 to |matches|
      invariant currentIndex <= |t|
      invariant matches[k..] == Matches(ColorCodes, t, currentIndex)
      invariant segments + RunsFrom(t, currentIndex, currentStyle) == RunsFrom(t, 0, DefaultStyle)
      invariant StyleAfter(t, currentIndex, currentStyle) == StyleAfter(t, 0, DefaultStyle)
    {
      var m := matches[k];
      MatchesStep(t, currentIndex);
      assert matches[k + 1..] == matches[k..][1..];
      RunsStep(t, currentIndex, currentStyle, segments, m);
      var beforeText := t[currentIndex..m.start];
      if beforeText != [] {
        segments := segments + [Segment(beforeText, currentStyle)];
      }
      currentStyle := ParseAnsiCodes(CodesOf(m.params), currentStyle);
      currentIndex := m.end;
    }
    assert NextMatch(ColorCodes, t, currentIndex).None?;
    RunsEnd(t, currentIndex, currentStyle, segments);
    var remainingText := t[currentIndex..];
    if remainingText != [] {
      segments := segments + [Segment(remainingText, currentStyle)];
    }
    if |segments| == 0 {
      segments := [Segment(t, currentStyle)];
    }
  }

  function Texts(segments: seq<Segment>): string
  {
    if segments == [] then [] else segments[0].text + Texts(segments[1..])
  }

  /** No run has empty text, and together the runs spell the text with every colour sequence deleted. */
  lemma {:induction false} RunsSpellStripped(t: string, i: nat, st: Style)
    requires i <= |t|
    ensures forall k :: 0 <= k < |RunsFrom(t, i, st)| ==> RunsFrom(t, i, st)[k].text != []
    ensures Texts(RunsFrom(t, i, st)) == StripFrom(ColorCodes, t, i)
    decreases |t| - i
  {
    match NextMatch(ColorCodes, t, i)
    case None =>
      if i < |t| {
        assert Texts(RunsFrom(t, i, st)) == t[i..] + Texts([]);
      }
    case Some(m) =>
      var st' := ApplyCodes(CodesOf(m.params), st);
      RunsSpellStripped(t, m.end, st');
      var rest := RunsFrom(t, m.end, st');
      if i < m.start {
        var head := Segment(t[i..m.start], st);
        assert RunsFrom(t, i, st) == [head] + rest;
        assert ([head] + rest)[1..] == rest;
      } else {
        assert RunsFrom(t, i, st) == rest;
      }
  }

  /** Plain text (no ESC at all) is one default-styled segment holding the whole input. */
  lemma PlainTextIsOneSegment(t: string)
    requires t != [] && ESC !in t
    ensures AnsiSegments(Some(t)) == [Segment(t, DefaultStyle)]
  {
    NoEscapeNoMatch(ColorCodes, t, 0);
    assert t[0..] == t;
  }

  /** Every segment of `parseAnsi` has non-empty text. When some text
      survives the colour sequences, the segments spell exactly that text;
      when the sequences consume the whole input, a single fallback segment
      holds the raw input, escapes included, in the style left by the last
      sequence. */
  lemma SegmentsSpellStripped(t: string)
    requires t != []
    ensures forall k :: 0 <= k < |AnsiSegments(Some(t))| ==> AnsiSegments(Some(t))[k].text != []
    ensures Strip(ColorCodes, t) != [] ==> Texts(AnsiSegments(Some(t))) == Strip(ColorCodes, t)
    ensures Strip(ColorCodes, t) == [] ==> AnsiSegments(Some(t)) == [Segment(t, StyleAfter(t, 0, DefaultStyle))]
  {
    var runs := RunsFrom(t, 0, DefaultStyle);
    RunsSpellStripped(t, 0, DefaultStyle);
    assert Texts(runs) == Strip(ColorCodes, t);
    if runs != [] {
      assert AnsiSegments(Some(t)) == runs;
      assert Texts(runs) == runs[0].text + Texts(runs[1..]);
      assert runs[0].text != [];
    } else {
      assert Strip(ColorCodes, t) == [];
      assert AnsiSegments(Some(t)) == [Segment(t, StyleAfter(t, 0, DefaultStyle))];
    }
  }

  /** The sample of the tests: red text, then a reset. */
  function RedSample(): string
  {
    [ESC] + "[31mRed text" + [ESC] + "[0m"
  }

  lemma RedSampleFirst()
    ensures NextMatch(ColorCodes, RedSample(), 0) == Some(Match(0, 5, "31", 'm'))
  {
    var t := RedSample();
    assert |t| == 17 && t[0] == ESC && t[1] == '[' && t[2] == '3' && t[3] == '1' && t[4] == 'm';
    assert ParamRunEnd(ColorCodes, t, 4) == 4;
    assert ParamRunEnd(ColorCodes, t, 2) == 4;
    assert t[2..4] == "31";
    assert MatchAt(ColorCodes, t, 0) == Some(Match(0, 5, "31", 'm'));
  }

  lemma RedSampleSecond()
    ensures NextMatch(ColorCodes, RedSample(), 5) == Some(Match(13, 17, "0", 'm'))
    ensures NextMatch(ColorCodes, RedSample(), 17) == None
  {
    var t := RedSample();
    assert |t| == 17 && t[13] == ESC && t[14] == '[' && t[15] == '0' && t[16] == 'm';
    assert forall k :: 5 <= k < 13 ==> t[k] != ESC;
    assert ParamRunEnd(ColorCodes, t, 16) == 16;
    assert ParamRunEnd(ColorCodes, t, 15) == 16;
    assert t[15..16] == "0";
    assert MatchAt(ColorCodes, t, 13) == Some(Match(13, 17, "0", 'm'));
    NextMatchSkips(ColorCodes, t, 5, 13);
  }

  lemma RedSampleMatches()
    ensures NextMatch(ColorCodes, RedSample(), 0) == Some(Match(0, 5, "31", 'm'))
    ensures NextMatch(ColorCodes, RedSample(), 5) == Some(Match(13, 17, "0", 'm'))
    ensures NextMatch(ColorCodes, RedSample(), 17) == None
    ensures RedSample()[5..13] == "Red text"
  {
    RedSampleFirst();
    RedSampleSecond();
  }

  lemma RedSampleCodes()
    ensures CodesOf("31") == [31] && CodesOf("0") == [0]
  {
    SplitPiece("31", ';');
    assert DecimalValue("3") == 3;
    assert DecimalValue("31") == 31;
    SplitPiece("0", ';');
    assert DecimalValue("0") == 0;
  }

  lemma RedSampleStyle()
    ensures ApplyCodes(CodesOf("31"), DefaultStyle) == DefaultStyle.(color := Some("red"))
  {
    RedSampleCodes();
    assert ApplyCode(DefaultStyle, 31) == DefaultStyle.(color := Some("red"));
  }

  lemma RedSampleRuns()
    ensures RunsFrom(RedSample(), 5, DefaultStyle.(color := Some("red")))
         == [Segment("Red text", DefaultStyle.(color := Some("red")))]
  {
    var t := RedSample();
    var red := DefaultStyle.(color := Some("red"));
    RedSampleMatches();
    RedSampleCodes();
    assert ApplyCodes([0], red) == DefaultStyle;
    assert RunsFrom(t, 17, DefaultStyle) == [];
  }

  /** `ESC[31mRed text ESC[0m` is one red segment; the hook and parser tests expect two. */
  lemma RedTextIsOneSegment()
    ensures AnsiSegments(Some(RedSample())) == [Segment("Red text", DefaultStyle.(color := Some("red")))]
  {
    var t := RedSample();
    RedSampleMatches();
    RedSampleStyle();
    RedSampleRuns();
    var runs := RunsFrom(t, 0, DefaultStyle);
    assert runs == RunsFrom(t, 5, DefaultStyle.(color := Some("red")));
  }

  // ---------------------------------------------------------------------
  // stripAnsi, hasAnsiSequences
  // ---------------------------------------------------------------------

  /** `stripAnsi(text)`: every `ESC [ [0-9;]* letter` deleted; a missing text gives "". */
  function StripAnsi(text: Option<string>): (r: string)
    ensures text.None? ==> r == []
    ensures text.Some? ==> |r| <= |text.value|
  {
    if text.None? || text.value == [] then [] else Strip(AnyEscape, text.value)
  }

  /** `hasAnsiSequences(text)`, read without the `/g` regex's `lastIndex` carry-over. */
  predicate HasAnsiSequences(text: Option<string>)
  {
    text.Some? && text.value != [] && NextMatch(AnyEscape, text.value, 0).Some?
  }

  /** A text holds an escape sequence exactly when stripping changes it. */
  lemma HasAnsiIffStripChanges(t: string)
    ensures HasAnsiSequences(Some(t)) <==> StripAnsi(Some(t)) != t
  {
    StripUnchangedIff(AnyEscape, t);
  }

  // ---------------------------------------------------------------------
  // ansiToCSS
  // ---------------------------------------------------------------------

  const ClassBold: string := "ansi-bold"
  const ClassDim: string := "ansi-dim"
  const ClassItalic: string := "ansi-italic"
  const ClassUnderline: string := "ansi-underline"
  const ClassReverse: string := "ansi-reverse"
  const ClassStrikethrough: string := "ansi-strikethrough"

  /** JavaScript truthiness of a colour field. */
  predicate Truthy(c: Option<string>)
  {
    c.Some? && c.value != []
  }

  /** The colour rows of the class table. */
  function ColorRows(s: Style): seq<(bool, string)>
  {
    [ (Truthy(s.color), "ansi-" + (if s.color.Some? then s.color.value else "")),
      (Truthy(s.backgroundColor), "ansi-bg-" + (if s.backgroundColor.Some? then s.backgroundColor.value else "")) ]
  }

  /** The bold, dim and italic rows of the class table. */
  function WeightRows(s: Style): seq<(bool, string)>
  {
    [ (s.bold, ClassBold), (s.dim, ClassDim), (s.italic, ClassItalic) ]
  }

  /** The underline, reverse and strikethrough rows of the class table. */
  function LineRows(s: Style): seq<(bool, string)>
  {
    [ (s.underline, ClassUnderline), (s.reverse, ClassReverse), (s.strikethrough, ClassStrikethrough) ]
  }

  /** The class names in their fixed order, each with the condition that selects it. */
  function ClassTable(s: Style): (table: seq<(bool, string)>)
    ensures |table| == 8
  {
    ColorRows(s) + WeightRows(s) + LineRows(s)
  }

  /** The names of the rows whose condition holds, in table order. */
  function Selected(table: seq<(bool, string)>): seq<string>
  {
    if table == [] then []
    else
      var last := table[|table| - 1];
      Selected(table[..|table| - 1]) + (if last.0 then [last.1] else [])
  }

  /** Selecting from two tables one after the other selects from their concatenation. */
  lemma {:induction false} SelectedAppend(a: seq<(bool, string)>, b: seq<(bool, string)>)
    ensures Selected(a + b) == Selected(a) + Selected(b)
  {
    if b == [] {
      assert a + b == a;
    } else {
      var init := b[..|b| - 1];
      assert (a + b)[..|a + b| - 1] == a + init;
      SelectedAppend(a, init);
    }
  }

  /** The pushed classes are the table's selection, part by part. */
  lemma CssClassesAreSelection(s: Style)
    ensures Selected(ClassTable(s)) == Selected(ColorRows(s)) + Selected(WeightRows(s)) + Selected(LineRows(s))
  {
    SelectedAppend(ColorRows(s), WeightRows(s));
    SelectedAppend(ColorRows(s) + WeightRows(s), LineRows(s));
  }

  /** Row `i` of a table extends the selection of the rows before it. */
  lemma SelectedStep(table: seq<(bool, string)>, i: nat)
    requires i < |table|
    ensures Selected(table[..i + 1]) == Selected(table[..i]) + (if table[i].0 then [table[i].1] else [])
  {
    assert table[..i + 1][..i] == table[..i];
  }

  /** The colour pushes of `ansiToCSS`. */
  method PushColorClasses(s: Style) returns (classes: seq<string>)
    ensures classes == Selected(ColorRows(s))
  {
    ghost var rows := ColorRows(s);
    classes := [];
    assert classes == Selected(rows[..0]);
    if Truthy(s.color) { classes := classes + ["ansi-" + s.color.value]; }
    SelectedStep(rows, 0);
    if Truthy(s.backgroundColor) { classes := classes + ["ansi-bg-" + s.backgroundColor.value]; }
    SelectedStep(rows, 1);
    assert rows[..2] == rows;
  }

  /** The bold, dim and italic pushes of `ansiToCSS`. */
  method PushWeightClasses(s: Style) returns (classes: seq<string>)
    ensures classes == Selected(WeightRows(s))
  {
    ghost var rows := WeightRows(s);
    classes := [];
    assert classes == Selected(rows[..0]);
    if s.bold { classes := classes + [ClassBold]; }
    SelectedStep(rows, 0);
    if s.dim { classes := classes + [ClassDim]; }
    SelectedStep(rows, 1);
    if s.italic { classes := classes + [ClassItalic]; }
    SelectedStep(rows, 2);
    assert rows[..3] == rows;
  }

  /** The underline, reverse and strikethrough pushes of `ansiToCSS`. */
  method PushLineClasses(s: Style) returns (classes: seq<string>)
    ensures classes == Selected(LineRows(s))
  {
    ghost var rows := LineRows(s);
    classes := [];
    assert classes == Selected(rows[..0]);
    if s.underline { classes := classes + [ClassUnderline]; }
    SelectedStep(rows, 0);
    if s.reverse { classes := classes + [ClassReverse]; }
    SelectedStep(rows, 1);
    if s.strikethrough { classes := classes + [ClassStrikethrough]; }
    SelectedStep(rows, 2);
    assert rows[..3] == rows;
  }

  /** `ansiToCSS(style)`: pushes the class of each set attribute, in the
      fixed order, and joins them with spaces. */
  method AnsiToCss(style: Option<Style>) returns (css: string)
    ensures style.None? ==> css == []
    ensures style.Some? ==> css == Join(Selected(ClassTable(style.value)), ' ')
  {
    if style.None? {
      return [];
    }
    var s := style.value;
    var colors := PushColorClasses(s);
    var weights := PushWeightClasses(s);
    var lines := PushLineClasses(s);
    CssClassesAreSelection(s);
    css := Join(colors + weights + lines, ' ');
  }

  lemma {:induction false} JoinEmptyIff(pieces: seq<string>, sep: char)
    requires forall k :: 0 <= k < |pieces| ==> pieces[k] != []
    ensures Join(pieces, sep) == [] <==> pieces == []
  {
    if |pieces| > 1 {
      assert |Join(pieces, sep)| >= |pieces[0]|;
    }
  }

  /** Selecting keeps only names of the table, so non-empty names stay non-empty. */
  lemma {:induction false} SelectedNamesNonEmpty(table: seq<(bool, string)>)
    requires forall k :: 0 <= k < |table| ==> table[k].1 != []
    ensures forall k :: 0 <= k < |Selected(table)| ==> Selected(table)[k] != []
  {
    if table != [] {
      var init := table[..|table| - 1];
      var last := table[|table| - 1];
      forall k | 0 <= k < |init|
        ensures init[k].1 != []
      {
        assert init[k] == table[k];
      }
      SelectedNamesNonEmpty(init);
      assert Selected(table) == Selected(init) + (if last.0 then [last.1] else []);
    }
  }

  /** Nothing is selected exactly when no row of the table is set. */
  lemma {:induction false} SelectedEmptyIff(table: seq<(bool, string)>)
    ensures Selected(table) == [] <==> forall k :: 0 <= k < |table| ==> !table[k].0
  {
    if table != [] {
      var init := table[..|table| - 1];
      var last := table[|table| - 1];
      SelectedEmptyIff(init);
      assert Selected(table) == Selected(init) + (if last.0 then [last.1] else []);
      assert (forall k :: 0 <= k < |table| ==> !table[k].0)
          <==> (forall k :: 0 <= k < |init| ==> !init[k].0) && !last.0 by {
        assert forall k :: 0 <= k < |init| ==> init[k] == table[k];
      }
    }
  }

  lemma {:induction false} SelectedNoSeparator(table: seq<(bool, string)>, sep: char)
    requires forall k :: 0 <= k < |table| ==> sep !in table[k].1
    ensures forall k :: 0 <= k < |Selected(table)| ==> sep !in Selected(table)[k]
  {
    if table != [] {
      var init := table[..|table| - 1];
      SelectedNoSeparator(init, sep);
      assert forall k :: 0 <= k < |init| ==> init[k] == table[k];
    }
  }

  /** Splitting the class string at its spaces gives back the selected classes,
      in order, as long as the colour names hold no space. */
  lemma CssSplitsIntoClasses(s: Style)
    requires s.color.Some? ==> ' ' !in s.color.value
    requires s.backgroundColor.Some? ==> ' ' !in s.backgroundColor.value
    requires Selected(ClassTable(s)) != []
    ensures Split(Join(Selected(ClassTable(s)), ' '), ' ') == Selected(ClassTable(s))
  {
    var table := ClassTable(s);
    assert forall k :: 0 <= k < |table| ==> ' ' !in table[k].1;
    SelectedNoSeparator(table, ' ');
    SplitJoin(Selected(table), ' ');
  }

  /** A style yields no class at all exactly when none of its eight attributes is set;
      in particular the default style (and `{}`) yields "". */
  lemma CssEmptyIffPlain(s: Style)
    ensures Join(Selected(ClassTable(s)), ' ') == []
        <==> (!Truthy(s.color) && !Truthy(s.backgroundColor) && !s.bold && !s.dim
              && !s.italic && !s.underline && !s.reverse && !s.strikethrough)
  {
    var table := ClassTable(s);
    SelectedNamesNonEmpty(table);
    SelectedEmptyIff(table);
    JoinEmptyIff(Selected(table), ' ');
    assert |table| == 8;
    assert (forall k :: 0 <= k < |table| ==> !table[k].0)
       <==> (!table[0].0 && !table[1].0 && !table[2].0 && !table[3].0
             && !table[4].0 && !table[5].0 && !table[6].0 && !table[7].0);
  }

  // ---------------------------------------------------------------------
  // parseCursorAnsi
  // ---------------------------------------------------------------------

  datatype CursorCommand =
    | CursorPosition(row: nat, col: nat)
    | CursorUp(count: nat)
    | CursorDown(count: nat)
    | CursorForward(count: nat)
    | CursorBackward(count: nat)

  /** `x || 1` on a number that is never NaN. */
  function OrOne(x: nat): nat
  {
    if x == 0 then 1 else x
  }

  /** The command one cursor sequence stands for: omitted or zero parameters
      read as 1, parameters after the ones a command uses are ignored. */
  function CursorCommandOf(m: Match): (c: CursorCommand)
    requires AllParamChars(CursorCodes, m.params) && IsFinalChar(CursorCodes, m.final)
    ensures c.CursorPosition? <==> (m.final == 'H' || m.final == 'f')
    ensures c.CursorPosition? ==> c.row >= 1 && c.col >= 1
    ensures !c.CursorPosition? ==> c.count >= 1
    ensures var v := ParamValues(CursorCodes, m.params, 1);
      && ((m.final == 'H' || m.final == 'f') ==> c == CursorPosition(v[0], if |v| > 1 then v[1] else 1))
      && (m.final == 'A' ==> c == CursorUp(v[0]))
      && (m.final == 'B' ==> c == CursorDown(v[0]))
      && (m.final == 'C' ==> c == CursorForward(v[0]))
      && (m.final == 'D' ==> c == CursorBackward(v[0]))
  {
    var params := ParamValues(CursorCodes, m.params, 1);
    if m.final == 'H' || m.final == 'f' then
      CursorPosition(OrOne(params[0]), if |params| > 1 then OrOne(params[1]) else 1)
    else if m.final == 'A' then CursorUp(OrOne(params[0]))
    else if m.final == 'B' then CursorDown(OrOne(params[0]))
    else if m.final == 'C' then CursorForward(OrOne(params[0]))
    else CursorBackward(OrOne(params[0]))
  }

  /** Sample cursor moves: `ESC[5A` moves up 5, `ESC[A` and `ESC[0A` up 1. */
  lemma CursorUpSamples()
    ensures CursorCommandOf(Match(0, 4, "5", 'A')) == CursorUp(5)
    ensures CursorCommandOf(Match(0, 3, "", 'A')) == CursorUp(1)
    ensures CursorCommandOf(Match(0, 4, "0", 'A')) == CursorUp(1)
  {
    SplitPiece("5", ';');
    SplitPiece("0", ';');
    assert Split("", ';') == [[]];
    assert "5"[..0] == [] && "0"[..0] == [];
  }

  /** `ESC[5H` goes to row 5 column 1: an omitted column is 1. */
  lemma CursorRowSample()
    ensures CursorCommandOf(Match(0, 4, "5", 'H')) == CursorPosition(5, 1)
  {
    SplitPiece("5", ';');
    assert "5"[..0] == [];
  }

  /** `ESC[2;3f` goes to row 2 column 3: `f` acts as `H`. */
  lemma CursorRowColumnSample()
    ensures CursorCommandOf(Match(0, 6, "2;3", 'f')) == CursorPosition(2, 3)
  {
    assert "2;3" == "2" + [';'] + "3";
    SplitConcat("2", "3", ';');
    SplitPiece("2", ';');
    SplitPiece("3", ';');
    assert "2"[..0] == [] && "3"[..0] == [];
  }

  /** The first two parameters give the row and the column of a position; an
      omitted column is 1. */
  lemma CursorPositionParams(m: Match, row: string, col: string, rest: string)
    requires m.final == 'H' && m.params == row + ";" + col + rest
    requires AllDigits(row) && AllDigits(col) && (rest == [] || rest[0] == ';')
    requires AllParamChars(CursorCodes, m.params)
    ensures CursorCommandOf(m) == CursorPosition(FieldOr(row, 1), FieldOr(col, 1))
  {
    assert ';' !in row;
    assert ';' !in col;
    var tail := col + rest;
    assert m.params == row + [';'] + tail;
    SplitConcat(row, tail, ';');
    if rest == [] {
      assert tail == col;
      SplitPiece(col, ';');
    } else {
      assert tail == col + [';'] + rest[1..];
      SplitConcat(col, rest[1..], ';');
    }
  }

  /** The commands of the cursor sequences of `t`, one per sequence, in order. */
  function CursorCommandsIn(t: string): (r: seq<CursorCommand>)
    ensures var ms := Matches(CursorCodes, t, 0);
      |r| == |ms| && forall k :: 0 <= k < |ms| ==> r[k] == CursorCommandOf(ms[k])
  {
    var ms := Matches(CursorCodes, t, 0);
    seq(|ms|, k requires 0 <= k < |ms| => CursorCommandOf(ms[k]))
  }

  /** Every match is a well-formed cursor sequence. */
  predicate CursorMatches(ms: seq<Match>)
  {
    forall k :: 0 <= k < |ms| ==> AllParamChars(CursorCodes, ms[k].params) && IsFinalChar(CursorCodes, ms[k].final)
  }

  /** The loop of `parseCursorAnsi` over the matches: each one pushes its command. */
  method CollectCursorCommands(cursorMatches: seq<Match>) returns (commands: seq<CursorCommand>)
    requires CursorMatches(cursorMatches)
    ensures |commands| == |cursorMatches|
    ensures forall k :: 0 <= k < |cursorMatches| ==> commands[k] == CursorCommandOf(cursorMatches[k])
  {
    commands := [];
    for k := 0 to |cursorMatches|
      invariant |commands| == k
      invariant forall j :: 0 <= j < k ==> commands[j] == CursorCommandOf(cursorMatches[j])
    {
      commands := commands + [CursorCommandOf(cursorMatches[k])];
    }
  }

  /** `parseCursorAnsi(text)`: one command per cursor sequence, in order, and the text with them removed. */
  method ParseCursorAnsi(text: Option<string>) returns (commands: seq<CursorCommand>, rest: Option<string>)
    ensures text.None? || text.value == [] ==> commands == [] && rest == text
    ensures text.Some? && text.value != [] ==>
      commands == CursorCommandsIn(text.value) && rest == Some(Strip(CursorCodes, text.value))
  {
    if text.None? || text.value == [] {
      return [], text;
    }
    var t := text.value;
    var cursorMatches := Matches(CursorCodes, t, 0);
    commands := CollectCursorCommands(cursorMatches);
    assert commands == CursorCommandsIn(t);
    rest := Some(Strip(CursorCodes, t));
  }

  // ---------------------------------------------------------------------
  // parseClearAnsi
  // ---------------------------------------------------------------------

  datatype ClearCommand = ClearToEnd | ClearToBeginning | ClearScreen | ClearAll

  /** `parseInt(match[1], 10) || 0` mapped through the `switch`; other values give no command. */
  function ClearCommandOf(m: Match): (c: Option<ClearCommand>)
    requires AllDigits(m.params)
    ensures c.Some? <==> FieldOr(m.params, 0) <= 3
    ensures m.params == [] ==> c == Some(ClearToEnd)
    ensures FieldOr(m.params, 0) == 0 ==> c == Some(ClearToEnd)
    ensures FieldOr(m.params, 0) == 1 ==> c == Some(ClearToBeginning)
    ensures FieldOr(m.params, 0) == 2 ==> c == Some(ClearScreen)
    ensures FieldOr(m.params, 0) == 3 ==> c == Some(ClearAll)
  {
    var param := FieldOr(m.params, 0);
    if param == 0 then Some(ClearToEnd)
    else if param == 1 then Some(ClearToBeginning)
    else if param == 2 then Some(ClearScreen)
    else if param == 3 then Some(ClearAll)
    else None
  }

  predicate DigitParams(ms: seq<Match>)
  {
    forall k :: 0 <= k < |ms| ==> AllDigits(ms[k].params)
  }

  /** The commands of the recognised clear sequences `ms[k..]`, in order. */
  function ClearCommandsFrom(ms: seq<Match>, k: nat): (r: seq<ClearCommand>)
    requires k <= |ms| && DigitParams(ms)
    ensures |r| <= |ms| - k
    decreases |ms| - k
  {
    if k == |ms| then []
    else
      var head := ClearCommandOf(ms[k]);
      (if head.Some? then [head.value] else []) + ClearCommandsFrom(ms, k + 1)
  }

  /** Every sequence gives a command when all parameters are 0-3. */
  lemma {:induction false} ClearCommandsAllKnown(ms: seq<Match>, k: nat)
    requires k <= |ms| && DigitParams(ms)
    requires forall j :: k <= j < |ms| ==> FieldOr(ms[j].params, 0) <= 3
    ensures |ClearCommandsFrom(ms, k)| == |ms| - k
    decreases |ms| - k
  {
    if k < |ms| {
      ClearCommandsAllKnown(ms, k + 1);
      assert ClearCommandOf(ms[k]).Some?;
    }
  }

  /** No sequence gives a command when all parameters are above 3. */
  lemma {:induction false} ClearCommandsNoneKnown(ms: seq<Match>, k: nat)
    requires k <= |ms| && DigitParams(ms)
    requires forall j :: k <= j < |ms| ==> FieldOr(ms[j].params, 0) > 3
    ensures ClearCommandsFrom(ms, k) == []
    decreases |ms| - k
  {
    if k < |ms| {
      ClearCommandsNoneKnown(ms, k + 1);
      assert ClearCommandOf(ms[k]).None?;
    }
  }

  function ClearCommandsOf(ms: seq<Match>): seq<ClearCommand>
    requires DigitParams(ms)
  {
    ClearCommandsFrom(ms, 0)
  }

  lemma ClearMatchesHaveDigits(s: string)
    ensures DigitParams(Matches(ClearCodes, s, 0))
  {
    var ms := Matches(ClearCodes, s, 0);
    forall k | 0 <= k < |ms| ensures AllDigits(ms[k].params) {
      assert AllParamChars(ClearCodes, ms[k].params);
    }
  }

  /** One match more: its command, if any, follows the ones collected so far. */
  lemma ClearCommandsStep(ms: seq<Match>, k: nat, commands: seq<ClearCommand>)
    requires k < |ms| && DigitParams(ms)
    ensures var c := ClearCommandOf(ms[k]);
      (if c.Some? then commands + [c.value] else commands) + ClearCommandsFrom(ms, k + 1)
      == commands + ClearCommandsFrom(ms, k)
  {
    var c := ClearCommandOf(ms[k]);
    if c.Some? {
      assert commands + [c.value] + ClearCommandsFrom(ms, k + 1) == commands + ([c.value] + ClearCommandsFrom(ms, k + 1));
    }
  }

  /** The loop of `parseClearAnsi` over the matches: a recognised parameter pushes its command. */
  method CollectClearCommands(clearMatches: seq<Match>) returns (commands: seq<ClearCommand>)
    requires DigitParams(clearMatches)
    ensures commands == ClearCommandsOf(clearMatches)
  {
    commands := [];
    for k := 0 to |clearMatches|
      invariant commands + ClearCommandsFrom(clearMatches, k) == ClearCommandsOf(clearMatches)
    {
      var c := ClearCommandOf(clearMatches[k]);
      ClearCommandsStep(clearMatches, k, commands);
      if c.Some? {
        commands := commands + [c.value];
      }
    }
  }

  /** `parseClearAnsi(text)`: the recognised commands in order, and the text with every clear sequence removed
      (an unrecognised parameter gives no command but is still stripped). */
  method ParseClearAnsi(text: Option<string>) returns (commands: seq<ClearCommand>, rest: Option<string>)
    ensures text.None? || text.value == [] ==> commands == [] && rest == text
    ensures text.Some? && text.value != [] ==>
      && DigitParams(Matches(ClearCodes, text.value, 0))
      && commands == ClearCommandsOf(Matches(ClearCodes, text.value, 0))
      && rest == Some(Strip(ClearCodes, text.value))
  {
    if text.None? || text.value == [] {
      return [], text;
    }
    var t := text.value;
    var clearMatches := Matches(ClearCodes, t, 0);
    ClearMatchesHaveDigits(t);
    commands := CollectClearCommands(clearMatches);
    rest := Some(Strip(ClearCodes, t));
  }
}
