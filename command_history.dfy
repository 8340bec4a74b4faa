/** The command history navigator (`useCommandHistory`): the stored commands,
    the position being browsed (-1 when not browsing) and the draft saved
    when browsing began. Every operation is one sequential transition on the
    latest state. */
module CommandHistory {
  import opened Wrappers
  import opened Strings

  /** The history cap of `constants.js`. */
  const MAX_HISTORY_SIZE: nat := 1000

  /** A stored entry: non-empty, with no whitespace at either end, as `trim` leaves it. */
  predicate Stored(entry: string)
  {
    entry != [] && !IsWhitespace(entry[0]) && !IsWhitespace(entry[|entry| - 1])
  }

  /** A stored entry is its own trim. */
  lemma StoredIsTrimmed(entry: string)
    requires Stored(entry)
    ensures Trim(entry) == entry
  {
    assert TrimStart(entry) == entry;
  }

  /** Entry `k` differs from the entry before it. */
  predicate DiffersFromPrevious(h: seq<string>, k: int)
    requires 0 < k < |h|
  {
    h[k - 1] != h[k]
  }

  /** No entry repeats the one right before it. */
  predicate NoAdjacentDuplicates(h: seq<string>)
  {
    forall k :: 0 < k < |h| ==> DiffersFromPrevious(h, k)
  }

  /** Every entry is stored as `trim` leaves it. */
  predicate AllStored(h: seq<string>)
  {
    forall k :: 0 <= k < |h| ==> Stored(h[k])
  }

  /** What the history holds at any time. */
  predicate WellFormed(h: seq<string>)
  {
    |h| <= MAX_HISTORY_SIZE && NoAdjacentDuplicates(h) && AllStored(h)
  }

  /** `!command || !command.trim()`: no string, or nothing but whitespace. */
  predicate Ignored(command: Option<string>)
  {
    command.None? || IsBlank(command.value)
  }

  /** `newHistory.slice(-MAX_HISTORY_SIZE)` when the history is over the cap. */
  function Capped(h: seq<string>): (r: seq<string>)
    ensures |r| == if |h| > MAX_HISTORY_SIZE then MAX_HISTORY_SIZE else |h|
    ensures r == h[|h| - |r|..]
  {
    if |h| > MAX_HISTORY_SIZE then h[|h| - MAX_HISTORY_SIZE..] else h
  }

  /** The history after `addCommand(command)`. */
  function HistoryAfterAdd(h: seq<string>, command: Option<string>): seq<string>
  {
    if Ignored(command) then h
    else
      var trimmed := Trim(command.value);
      if |h| > 0 && h[|h| - 1] == trimmed then h
      else Capped(h + [trimmed])
  }

  /** Dropping the oldest entries keeps the others as they were. */
  lemma SuffixKeepsEntries(all: seq<string>, d: nat)
    requires d <= |all| && NoAdjacentDuplicates(all) && AllStored(all)
    ensures NoAdjacentDuplicates(all[d..]) && AllStored(all[d..])
  {
    var r := all[d..];
    forall k | 0 <= k < |r|
      ensures Stored(r[k])
    {
      assert r[k] == all[d + k];
    }
    forall k | 0 < k < |r|
      ensures DiffersFromPrevious(r, k)
    {
      assert DiffersFromPrevious(all, d + k);
      assert r[k - 1] == all[d + k - 1] && r[k] == all[d + k];
    }
  }

  /** Appending a stored entry keeps every entry stored. */
  lemma AppendKeepsStored(h: seq<string>, entry: string)
    requires AllStored(h) && Stored(entry)
    ensures AllStored(h + [entry])
  {
    var all := h + [entry];
    forall k | 0 <= k < |all|
      ensures Stored(all[k])
    {
      if k < |h| {
        assert all[k] == h[k];
      }
    }
  }

  /** Appending an entry that differs from the newest one adds no adjacent duplicate. */
  lemma AppendKeepsNoDuplicates(h: seq<string>, entry: string)
    requires NoAdjacentDuplicates(h) && (h == [] || h[|h| - 1] != entry)
    ensures NoAdjacentDuplicates(h + [entry])
  {
    var all := h + [entry];
    forall k | 0 < k < |all|
      ensures DiffersFromPrevious(all, k)
    {
      if k < |h| {
        assert DiffersFromPrevious(h, k);
        assert all[k - 1] == h[k - 1] && all[k] == h[k];
      }
    }
  }

  /** Appending a stored entry that differs from the newest one, then
      capping, keeps the history well formed. */
  lemma AppendKeepsWellFormed(h: seq<string>, entry: string)
    requires WellFormed(h) && Stored(entry) && (h == [] || h[|h| - 1] != entry)
    ensures WellFormed(Capped(h + [entry]))
  {
    AppendKeepsStored(h, entry);
    AppendKeepsNoDuplicates(h, entry);
    SuffixKeepsEntries(h + [entry], |h + [entry]| - |Capped(h + [entry])|);
  }

  /** The history after storing an entry that is already trimmed. */
  function WithEntry(h: seq<string>, entry: string): seq<string>
  {
    if |h| > 0 && h[|h| - 1] == entry then h else Capped(h + [entry])
  }

  /** The trim of a command that is not blank is a stored entry. */
  lemma TrimmedIsStored(command: string)
    requires !IsBlank(command)
    ensures Stored(Trim(command))
  {
    TrimShape(command);
  }

  /** The new history `addCommand` computes for a trimmed command: it is
      dropped when it repeats the newest entry, otherwise appended, and the
      result is cut to the newest `MAX_HISTORY_SIZE` entries. */
  method StoreEntry(h: seq<string>, entry: string) returns (r: seq<string>)
    ensures r == WithEntry(h, entry)
  {
    r := h;
    if |h| > 0 && h[|h| - 1] == entry {
      // a repeat of the newest entry is not stored
    } else {
      var appended := h + [entry];
      // limit the history size
      if |appended| > MAX_HISTORY_SIZE {
        r := appended[|appended| - MAX_HISTORY_SIZE..];
      } else {
        r := appended;
      }
    }
  }

  /** Storing an entry keeps the history well formed. */
  lemma WithEntryWellFormed(h: seq<string>, entry: string)
    requires WellFormed(h) && Stored(entry)
    ensures WellFormed(WithEntry(h, entry))
  {
    if !(|h| > 0 && h[|h| - 1] == entry) {
      AppendKeepsWellFormed(h, entry);
    }
  }

  /** A stored entry is the newest one; a new entry is appended, dropping
      the oldest when the history is full. */
  lemma WithEntryShape(h: seq<string>, entry: string)
    requires WellFormed(h)
    ensures var r := WithEntry(h, entry);
      && r != [] && r[|r| - 1] == entry
      && ((h == [] || h[|h| - 1] != entry) ==>
            if |h| < MAX_HISTORY_SIZE then r == h + [entry]
            else r == h[1..] + [entry])
  {
    if !(|h| > 0 && h[|h| - 1] == entry) && |h| >= MAX_HISTORY_SIZE {
      assert (h + [entry])[1..] == h[1..] + [entry];
    }
  }

  /** A command that is not ignored is stored as its trim. */
  lemma AddStoresEntry(h: seq<string>, command: Option<string>)
    requires WellFormed(h) && !Ignored(command)
    ensures HistoryAfterAdd(h, command) == WithEntry(h, Trim(command.value))
    ensures WellFormed(WithEntry(h, Trim(command.value)))
  {
    TrimmedIsStored(command.value);
    WithEntryWellFormed(h, Trim(command.value));
  }

  /** Adding keeps the history well formed; a command that is not ignored
      ends up, trimmed, as the newest entry; when it is new and there is room
      the older entries all stay in place, and otherwise only the oldest
      entry is dropped. */
  lemma AddKeepsWellFormed(h: seq<string>, command: Option<string>)
    requires WellFormed(h)
    ensures var r := HistoryAfterAdd(h, command);
      && WellFormed(r)
      && (Ignored(command) ==> r == h)
      && (!Ignored(command) ==> r != [] && r[|r| - 1] == Trim(command.value))
      && (!Ignored(command) && (h == [] || h[|h| - 1] != Trim(command.value)) ==>
            if |h| < MAX_HISTORY_SIZE then r == h + [Trim(command.value)]
            else r == h[1..] + [Trim(command.value)])
  {
    if !Ignored(command) {
      var trimmed := Trim(command.value);
      TrimmedIsStored(command.value);
      WithEntryWellFormed(h, trimmed);
      WithEntryShape(h, trimmed);
      assert HistoryAfterAdd(h, command) == WithEntry(h, trimmed);
    }
  }

  // ---------------------------------------------------------------------
  // Navigation
  // ---------------------------------------------------------------------

  /** The browsing state: the index into the history, or -1, and the saved draft. */
  datatype Navigation = Navigation(index: int, draft: string)

  const NotNavigating: Navigation := Navigation(-1, [])

  predicate ValidIndex(h: seq<string>, index: int)
  {
    index == -1 || 0 <= index < |h|
  }

  /** `navigateUp(currentCommand)`: nothing on an empty history; from outside
      the history, save the draft and go to the newest entry; otherwise one
      entry older, stopping at the oldest. */
  function Up(h: seq<string>, n: Navigation, currentCommand: string): (r: Navigation)
    requires ValidIndex(h, n.index)
    ensures ValidIndex(h, r.index)
    ensures h == [] ==> r == n
    ensures h != [] && n.index == -1 ==> r == Navigation(|h| - 1, currentCommand)
    ensures h != [] && n.index == 0 ==> r == n
    ensures h != [] && n.index > 0 ==> r == Navigation(n.index - 1, n.draft)
  {
    if h == [] then n
    else if n.index == -1 then Navigation(|h| - 1, currentCommand)
    else Navigation(if 0 >= n.index - 1 then 0 else n.index - 1, n.draft)
  }

  /** `navigateDown()`: nothing outside the history; past the newest entry
      back to the draft; otherwise one entry newer. The draft is kept. */
  function Down(h: seq<string>, n: Navigation): (r: Navigation)
    requires ValidIndex(h, n.index)
    ensures ValidIndex(h, r.index) && r.draft == n.draft
    ensures n.index == -1 ==> r == n
    ensures n.index != -1 ==> r.index == (if n.index + 1 >= |h| then -1 else n.index + 1)
  {
    if n.index == -1 then n
    else if n.index + 1 >= |h| then Navigation(-1, n.draft)
    else Navigation(n.index + 1, n.draft)
  }

  /** `getCurrentCommand()`: the draft outside the history, the entry
      otherwise (`history[i] || ''` is `history[i]` for every string). */
  function CommandAt(h: seq<string>, n: Navigation): (c: string)
    requires ValidIndex(h, n.index)
    ensures n.index == -1 ==> c == n.draft
    ensures n.index != -1 ==> c == h[n.index]
  {
    if n.index == -1 then n.draft else h[n.index]
  }

  /** `k` presses of the up arrow, each passing the same current command. */
  function Ups(h: seq<string>, n: Navigation, currentCommand: string, k: nat): (r: Navigation)
    requires ValidIndex(h, n.index)
    ensures ValidIndex(h, r.index)
    decreases k
  {
    if k == 0 then n else Ups(h, Up(h, n, currentCommand), currentCommand, k - 1)
  }

  /** `k` presses of the down arrow. */
  function Downs(h: seq<string>, n: Navigation, k: nat): (r: Navigation)
    requires ValidIndex(h, n.index)
    ensures ValidIndex(h, r.index)
    decreases k
  {
    if k == 0 then n else Downs(h, Down(h, n), k - 1)
  }

  /** From entry `i`, up `k` more times lands `k` entries older, if there are that many. */
  lemma {:induction false} UpsFromEntry(h: seq<string>, i: int, draft: string, currentCommand: string, k: nat)
    requires 0 <= i < |h| && k <= i
    ensures Ups(h, Navigation(i, draft), currentCommand, k) == Navigation(i - k, draft)
  {
    if k > 0 {
      UpsFromEntry(h, i - 1, draft, currentCommand, k - 1);
    }
  }

  /** From entry `i`, down as many times as there are entries from `i` on returns to the draft. */
  lemma {:induction false} DownsFromEntry(h: seq<string>, i: int, draft: string)
    requires 0 <= i < |h|
    ensures Downs(h, Navigation(i, draft), |h| - i) == Navigation(-1, draft)
    decreases |h| - i
  {
    if i + 1 < |h| {
      DownsFromEntry(h, i + 1, draft);
    }
  }

  /** Browsing up `k` entries from outside the history and back down `k`
      entries gives the command one was typing again. */
  lemma UpsThenDownsRestoreDraft(h: seq<string>, draft: string, currentCommand: string, k: nat)
    requires 1 <= k <= |h|
    ensures var up := Ups(h, Navigation(-1, draft), currentCommand, k);
      up.index == |h| - k && CommandAt(h, up) == h[|h| - k]
      && CommandAt(h, Downs(h, up, k)) == currentCommand
  {
    var first := Up(h, Navigation(-1, draft), currentCommand);
    assert first == Navigation(|h| - 1, currentCommand);
    UpsFromEntry(h, |h| - 1, currentCommand, currentCommand, k - 1);
    DownsFromEntry(h, |h| - k, currentCommand);
  }

  // ---------------------------------------------------------------------
  // The navigator
  // ---------------------------------------------------------------------

  class History {
    var history: seq<string>
    var currentIndex: int
    var tempCommand: string

    /** The history is well formed and the index is -1 or one of its positions. */
    ghost predicate Valid()
      reads this
    {
      WellFormed(history) && ValidIndex(history, currentIndex)
    }

    function Nav(): Navigation
      reads this
    {
      Navigation(currentIndex, tempCommand)
    }

    constructor ()
      ensures Valid()
      ensures history == [] && Nav() == NotNavigating
    {
      history := [];
      currentIndex := -1;
      tempCommand := [];
    }

    /** `addCommand(command)`: an ignored command changes nothing at all;
        any other command is stored trimmed, unless it repeats the newest
        entry, and browsing stops with the draft forgotten. */
    method AddCommand(command: Option<string>)
      requires Valid()
      modifies this
      ensures Valid()
      ensures history == HistoryAfterAdd(old(history), command)
      ensures Ignored(command) ==> Nav() == old(Nav())
      ensures !Ignored(command) ==> Nav() == NotNavigating
    {
      if Ignored(command) {
        return;
      }
      AddStoresEntry(history, command);
      var trimmedCommand := Trim(command.value);
      var newHistory := StoreEntry(history, trimmedCommand);
      history, currentIndex, tempCommand := newHistory, -1, [];
    }

    /** `navigateUp(currentCommand)`; callers that omit the command mean "". */
    method NavigateUp(currentCommand: string)
      requires Valid()
      modifies this
      ensures Valid()
      ensures history == old(history)
      ensures Nav() == Up(history, old(Nav()), currentCommand)
    {
      if |history| == 0 {
        return;
      }
      var newIndex: int;
      if currentIndex == -1 {
        tempCommand := currentCommand;
        newIndex := |history| - 1;
      } else {
        newIndex := if 0 >= currentIndex - 1 then 0 else currentIndex - 1;
      }
      currentIndex := newIndex;
    }

    /** `navigateDown()`. */
    method NavigateDown()
      requires Valid()
      modifies this
      ensures Valid()
      ensures history == old(history)
      ensures Nav() == Down(history, old(Nav()))
    {
      if currentIndex == -1 {
        return;
      }
      var newIndex := currentIndex + 1;
      if newIndex >= |history| {
        currentIndex := -1;
        return;
      }
      currentIndex := newIndex;
    }

    /** `getCurrentCommand()`. */
    function GetCurrentCommand(): (c: string)
      reads this
      requires Valid()
      ensures c == CommandAt(history, Nav())
    {
      if currentIndex == -1 then tempCommand else history[currentIndex]
    }

    /** `resetNavigation()`: browsing stops and the draft is forgotten. */
    method ResetNavigation()
      requires Valid()
      modifies this
      ensures Valid()
      ensures history == old(history) && Nav() == NotNavigating
    {
      currentIndex := -1;
      tempCommand := [];
    }

    /** `clearHistory()`: no entries, no browsing, no draft. */
    method ClearHistory()
      requires Valid()
      modifies this
      ensures Valid()
      ensures history == [] && Nav() == NotNavigating
    {
      history := [];
      currentIndex := -1;
      tempCommand := [];
    }

    /** `getHistoryItem(index)`: null outside the history, the entry inside it. */
    function GetHistoryItem(index: int): (r: Option<string>)
      reads this
      ensures r.Some? <==> 0 <= index < |history|
      ensures r.Some? ==> r.value == history[index]
    {
      if index < 0 || index >= |history| then None else Some(history[index])
    }

    /** `isNavigating`: browsing the history. */
    predicate IsNavigating()
      reads this
    {
      currentIndex != -1
    }

    /** Browsing is exactly being at one of the entries. */
    lemma NavigatingIffAtEntry()
      requires Valid()
      ensures IsNavigating() <==> 0 <= currentIndex < |history|
      ensures !IsNavigating() ==> GetCurrentCommand() == tempCommand
    {
    }
  }
}
