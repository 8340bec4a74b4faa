/** The input helpers of the terminal: the prompt format, the command
    validator, the display sanitiser and the scrolled-to-bottom test.
    For `validateCommand` and `sanitizeInput`, `None` stands for an argument
    that is missing or not a string. For the arguments of `formatPrompt` and
    the threshold of `isScrolledToBottom`, `None` stands for an omitted
    (`undefined`) argument only: JavaScript applies a default parameter for
    `undefined` and not for `null`. */
module TerminalUtils {
  import opened Wrappers
  import opened Strings
  import TerminalState

  // ---------------------------------------------------------------------
  // formatPrompt
  // ---------------------------------------------------------------------

  function OrDefault(s: Option<string>, default: string): string
  {
    if s.Some? then s.value else default
  }

  /** `formatPrompt(user, hostname, path)`; an omitted argument takes its default. */
  function FormatPrompt(user: Option<string>, hostname: Option<string>, path: Option<string>): string
  {
    OrDefault(user, "user") + "@" + OrDefault(hostname, "localhost") + ":" + OrDefault(path, "~") + "$ "
  }

  lemma DefaultPrompt()
    ensures FormatPrompt(None, None, None) == "user@localhost:~$ "
  {
  }

  /** The prompt can be read back: the user is what precedes the first `@`,
      user and host are what precedes the first `:`, and the path lies
      between that `:` and the closing `$ `. */
  lemma {:induction false} PromptFields(user: string, hostname: string, path: string)
    requires '@' !in user && ':' !in user && ':' !in hostname
    ensures var prompt := FormatPrompt(Some(user), Some(hostname), Some(path));
      && Split(prompt, '@')[0] == user
      && Split(prompt, ':')[0] == user + "@" + hostname
      && prompt[|user| + |hostname| + 2..|prompt| - 2] == path
      && prompt[|prompt| - 2..] == "$ "
  {
    var prompt := FormatPrompt(Some(user), Some(hostname), Some(path));
    assert prompt == user + ['@'] + (hostname + ":" + path + "$ ");
    SplitConcat(user, hostname + ":" + path + "$ ", '@');
    assert ':' !in user + "@" + hostname;
    assert prompt == (user + "@" + hostname) + [':'] + (path + "$ ");
    SplitConcat(user + "@" + hostname, path + "$ ", ':');
  }

  // ---------------------------------------------------------------------
  // validateCommand
  // ---------------------------------------------------------------------

  const MAX_COMMAND_LENGTH: nat := 10000

  /** The two patterns `validateCommand` rejects: `/\x00/` and
      `/[\x01-\x08\x0B\x0C\x0E-\x1F\x7F]/`. */
  datatype Pattern = NullByte | OtherControl

  const DangerousPatterns: seq<Pattern> := [NullByte, OtherControl]

  predicate MatchesChar(p: Pattern, c: char)
  {
    match p
    case NullByte => c == 0 as char
    case OtherControl =>
      (0x01 as char <= c <= 0x08 as char) || c == 0x0B as char || c == 0x0C as char
      || (0x0E as char <= c <= 0x1F as char) || c == 0x7F as char
  }

  /** `pattern.test(command)` on a freshly built pattern. */
  predicate Test(p: Pattern, s: string)
  {
    exists k :: 0 <= k < |s| && MatchesChar(p, s[k])
  }

  /** A character some dangerous pattern matches. */
  predicate IsDangerous(c: char)
  {
    exists i :: 0 <= i < |DangerousPatterns| && MatchesChar(DangerousPatterns[i], c)
  }

  /** The dangerous characters are the ASCII control characters other than
      tab, line feed and carriage return. */
  lemma DangerousIsControlButWhitespace(c: char)
    ensures IsDangerous(c) <==> ((c < 0x20 as char || c == 0x7F as char) && c != '\t' && c != '\n' && c != '\r')
  {
    if c == 0 as char {
      assert MatchesChar(DangerousPatterns[0], c);
    } else if (c < 0x20 as char || c == 0x7F as char) && c != '\t' && c != '\n' && c != '\r' {
      assert MatchesChar(DangerousPatterns[1], c);
    }
  }

  /** A command `validateCommand` accepts. */
  predicate IsValidCommand(command: Option<string>)
  {
    && command.Some?
    && 0 < |command.value| <= MAX_COMMAND_LENGTH
    && forall k :: 0 <= k < |command.value| ==> !IsDangerous(command.value[k])
  }

  /** `validateCommand(command)`: the length checks, then each pattern in turn. */
  method ValidateCommand(command: Option<string>) returns (valid: bool)
    ensures valid <==> IsValidCommand(command)
  {
    if command.None? || command.value == [] {
      return false;
    }
    var s := command.value;
    if |s| == 0 || |s| > MAX_COMMAND_LENGTH {
      return false;
    }
    for i := 0 to |DangerousPatterns|
      invariant forall j :: 0 <= j < i ==> !Test(DangerousPatterns[j], s)
    {
      if Test(DangerousPatterns[i], s) {
        var k :| 0 <= k < |s| && MatchesChar(DangerousPatterns[i], s[k]);
        assert IsDangerous(s[k]);
        return false;
      }
    }
    forall k | 0 <= k < |s|
      ensures !IsDangerous(s[k])
    {
      if IsDangerous(s[k]) {
        var i :| 0 <= i < |DangerousPatterns| && MatchesChar(DangerousPatterns[i], s[k]);
        assert Test(DangerousPatterns[i], s);
      }
    }
    return true;
  }

  // ---------------------------------------------------------------------
  // sanitizeInput
  // ---------------------------------------------------------------------

  /** `s.replace(pattern, '')` for a global pattern. */
  function RemoveMatches(p: Pattern, s: string): (r: string)
    ensures |r| <= |s|
    ensures forall k :: 0 <= k < |r| ==> !MatchesChar(p, r[k])
    ensures forall k :: 0 <= k < |r| ==> r[k] in s
  {
    if s == [] then []
    else if MatchesChar(p, s[0]) then RemoveMatches(p, s[1..])
    else [s[0]] + RemoveMatches(p, s[1..])
  }

  /** `s.replace(/\r\n/g, '\n')`: pairs are replaced left to right. */
  function NormalizeCrLf(s: string): (r: string)
    ensures |r| <= |s|
    ensures forall k :: 0 <= k < |r| ==> r[k] in s
  {
    if |s| >= 2 && s[0] == '\r' && s[1] == '\n' then "\n" + NormalizeCrLf(s[2..])
    else if s == [] then []
    else [s[0]] + NormalizeCrLf(s[1..])
  }

  /** `s.replace(/\r/g, '\n')` */
  function ReplaceCr(s: string): (r: string)
    ensures |r| == |s|
    ensures forall k :: 0 <= k < |s| ==> r[k] == if s[k] == '\r' then '\n' else s[k]
  {
    if s == [] then []
    else [if s[0] == '\r' then '\n' else s[0]] + ReplaceCr(s[1..])
  }

  /** `sanitizeInput(input)`: a falsy or non-string input gives the empty string. */
  function SanitizeInput(input: Option<string>): string
  {
    if input.None? || input.value == [] then []
    else ReplaceCr(NormalizeCrLf(RemoveMatches(OtherControl, RemoveMatches(NullByte, input.value))))
  }

  /** The characters a sanitised text may hold: anything but an ASCII
      control character, and of those only tab and line feed. */
  predicate IsDisplayable(c: char)
  {
    !IsDangerous(c) && c != '\r'
  }

  predicate AllDisplayable(s: string)
  {
    forall k :: 0 <= k < |s| ==> IsDisplayable(s[k])
  }

  /** The sanitised text has no NUL, no carriage return and no control
      character but tab and line feed, and it is never longer than the input. */
  lemma SanitizedIsDisplayable(input: Option<string>)
    ensures AllDisplayable(SanitizeInput(input))
    ensures forall k :: 0 <= k < |SanitizeInput(input)| ==>
      var c := SanitizeInput(input)[k]; c != 0 as char && c != '\r' && (c < 0x20 as char ==> c == '\t' || c == '\n')
    ensures input.Some? ==> |SanitizeInput(input)| <= |input.value|
    ensures input.None? || input.value == [] ==> SanitizeInput(input) == []
  {
    if input.Some? && input.value != [] {
      var noNul := RemoveMatches(NullByte, input.value);
      var noControl := RemoveMatches(OtherControl, noNul);
      var r := SanitizeInput(input);
      forall k | 0 <= k < |r|
        ensures IsDisplayable(r[k])
      {
        var c := r[k];
        assert c != '\r';
        if c != '\n' {
          assert c in NormalizeCrLf(noControl);
          assert c in noControl;
          var j :| 0 <= j < |noControl| && noControl[j] == c;
          assert c in noNul;
          var i :| 0 <= i < |noNul| && noNul[i] == c;
          assert !MatchesChar(NullByte, c) && !MatchesChar(OtherControl, c);
        }
        DangerousIsControlButWhitespace(c);
      }
      forall k | 0 <= k < |r|
        ensures var c := r[k]; c != 0 as char && c != '\r' && (c < 0x20 as char ==> c == '\t' || c == '\n')
      {
        DangerousIsControlButWhitespace(r[k]);
      }
    }
  }

  lemma {:induction false} RemoveMatchesNone(p: Pattern, s: string)
    requires forall k :: 0 <= k < |s| ==> !MatchesChar(p, s[k])
    ensures RemoveMatches(p, s) == s
  {
    if s != [] {
      RemoveMatchesNone(p, s[1..]);
      assert [s[0]] + s[1..] == s;
    }
  }

  lemma {:induction false} NormalizeCrLfNone(s: string)
    requires '\r' !in s
    ensures NormalizeCrLf(s) == s
  {
    if s != [] {
      NormalizeCrLfNone(s[1..]);
      assert [s[0]] + s[1..] == s;
    }
  }

  /** A text that is already displayable is left as it is. */
  lemma DisplayableUnchanged(s: string)
    requires s != [] && AllDisplayable(s)
    ensures SanitizeInput(Some(s)) == s
  {
    forall k | 0 <= k < |s|
      ensures !MatchesChar(NullByte, s[k]) && !MatchesChar(OtherControl, s[k])
    {
      assert !IsDangerous(s[k]);
      assert !MatchesChar(DangerousPatterns[0], s[k]) && !MatchesChar(DangerousPatterns[1], s[k]);
    }
    RemoveMatchesNone(NullByte, s);
    RemoveMatchesNone(OtherControl, s);
    NormalizeCrLfNone(s);
  }

  /** Sanitising twice is sanitising once. */
  lemma SanitizeIdempotent(input: Option<string>)
    ensures SanitizeInput(Some(SanitizeInput(input))) == SanitizeInput(input)
  {
    SanitizedIsDisplayable(input);
    if SanitizeInput(input) != [] {
      DisplayableUnchanged(SanitizeInput(input));
    }
  }

  /** Whatever survives sanitising a command of acceptable length is a valid command. */
  lemma SanitizedIsValid(s: string)
    requires 1 <= |s| <= MAX_COMMAND_LENGTH
    requires SanitizeInput(Some(s)) != []
    ensures IsValidCommand(Some(SanitizeInput(Some(s))))
  {
    SanitizedIsDisplayable(Some(s));
  }

  /** The characters other than control characters, in order. */
  function Visible(s: string): string
  {
    if s == [] then []
    else if s[0] < 0x20 as char || s[0] == 0x7F as char then Visible(s[1..])
    else [s[0]] + Visible(s[1..])
  }

  lemma {:induction false} RemoveMatchesKeepsVisible(p: Pattern, s: string)
    ensures Visible(RemoveMatches(p, s)) == Visible(s)
  {
    if s != [] {
      RemoveMatchesKeepsVisible(p, s[1..]);
    }
  }

  lemma {:induction false} NormalizeCrLfKeepsVisible(s: string)
    ensures Visible(NormalizeCrLf(s)) == Visible(s)
  {
    if |s| >= 2 && s[0] == '\r' && s[1] == '\n' {
      NormalizeCrLfKeepsVisible(s[2..]);
      assert s[1..][1..] == s[2..];
    } else if s != [] {
      NormalizeCrLfKeepsVisible(s[1..]);
    }
  }

  lemma {:induction false} ReplaceCrKeepsVisible(s: string)
    ensures Visible(ReplaceCr(s)) == Visible(s)
  {
    if s != [] {
      ReplaceCrKeepsVisible(s[1..]);
    }
  }

  /** Sanitising only removes and rewrites control characters: every other
      character survives, in order. */
  lemma SanitizeKeepsVisible(s: string)
    ensures Visible(SanitizeInput(Some(s))) == Visible(s)
  {
    if s != [] {
      var noNul := RemoveMatches(NullByte, s);
      var noControl := RemoveMatches(OtherControl, noNul);
      RemoveMatchesKeepsVisible(NullByte, s);
      RemoveMatchesKeepsVisible(OtherControl, noNul);
      NormalizeCrLfKeepsVisible(noControl);
      ReplaceCrKeepsVisible(NormalizeCrLf(noControl));
    }
  }

  // ---------------------------------------------------------------------
  // isScrolledToBottom
  // ---------------------------------------------------------------------

  datatype ScrollMetrics = ScrollMetrics(scrollTop: int, scrollHeight: int, clientHeight: int)

  const DEFAULT_THRESHOLD: int := 10

  /** `isScrolledToBottom(element, threshold)`; a missing element counts as
      at the bottom, an omitted threshold is 10. */
  function IsScrolledToBottom(element: Option<ScrollMetrics>, threshold: Option<int>): bool
  {
    if element.None? then true
    else
      var m := element.value;
      m.scrollTop + m.clientHeight >= m.scrollHeight - OrDefaultInt(threshold, DEFAULT_THRESHOLD)
  }

  function OrDefaultInt(x: Option<int>, default: int): int
  {
    if x.Some? then x.value else default
  }

  /** A missing element is at the bottom whatever the threshold; with its
      default threshold the helper agrees with the terminal's own scroll
      handler. */
  lemma ScrolledAgreesWithHandler(m: ScrollMetrics, threshold: Option<int>)
    ensures IsScrolledToBottom(None, threshold)
    ensures IsScrolledToBottom(Some(m), None) <==> TerminalState.NearBottom(m.scrollTop, m.scrollHeight, m.clientHeight)
  {
  }

  /** A larger threshold accepts every position a smaller one does, and a
      view whose bottom edge reaches the content's end is at the bottom
      for any non-negative threshold. */
  lemma ThresholdMonotone(m: ScrollMetrics, small: int, large: int)
    requires small <= large
    ensures IsScrolledToBottom(Some(m), Some(small)) ==> IsScrolledToBottom(Some(m), Some(large))
    ensures m.scrollTop + m.clientHeight >= m.scrollHeight && large >= 0 ==> IsScrolledToBottom(Some(m), Some(large))
  {
  }
}
