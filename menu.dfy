/** picam_menu, the interactive launcher: its fixed table of named commands,
    the line reader over standard input, the classification of a typed
    choice, the dispatch loop that turns a session's input into the commands
    it hands to run_command, and run_command's exit code. Standard input is
    the text not yet read; the system() status and whether ./picam and
    ./picam.sh are executable are inputs. */
module Menu {
  import opened CLib

  const MaxCommands: nat := 50
  const MaxNameLen: nat := 128
  const MaxCmdLen: nat := 512

  /** The sizes of the choice buffer and of the custom command buffer. */
  const InputSize: nat := 256
  const CustomSize: nat := 512

  // ---------- the table ----------

  /** menu_entry_t: the strings its name and command buffers hold. */
  datatype Entry = Entry(name: seq<char>, command: seq<char>)

  /** What add_entry stores: each string cut to its buffer less the NUL. */
  function Stored(item: Entry): (e: Entry)
    ensures |e.name| < MaxNameLen && |e.command| < MaxCmdLen
    ensures e.name <= item.name && e.command <= item.command
    ensures |item.name| < MaxNameLen && |item.command| < MaxCmdLen ==> e == item
  {
    Entry(Truncate(item.name, MaxNameLen - 1), Truncate(item.command, MaxCmdLen - 1))
  }

  /** add_entry on the listed entries: a full table stays as it is. */
  function Appended(listed: seq<Entry>, item: Entry): (r: seq<Entry>)
    ensures listed <= r && |r| <= |listed| + 1
    ensures |listed| <= MaxCommands ==> |r| <= MaxCommands
  {
    if |listed| >= MaxCommands then listed else listed + [Stored(item)]
  }

  /** add_entry for each item in turn. */
  function AppendedAll(listed: seq<Entry>, items: seq<Entry>): (r: seq<Entry>)
    ensures listed <= r && |r| <= |listed| + |items|
    ensures |listed| <= MaxCommands ==> |r| <= MaxCommands
  {
    if items == [] then listed else Appended(AppendedAll(listed, items[..|items| - 1]), items[|items| - 1])
  }

  /** Below the capacity every item is appended, truncated, after the
      entries already listed; at capacity nothing changes. */
  lemma {:induction false} AppendingBelowCapacity(listed: seq<Entry>, items: seq<Entry>)
    requires |listed| + |items| <= MaxCommands
    ensures |AppendedAll(listed, items)| == |listed| + |items|
    ensures AppendedAll(listed, items)[..|listed|] == listed
    ensures forall k :: 0 <= k < |items| ==> AppendedAll(listed, items)[|listed| + k] == Stored(items[k])
  {
    if items != [] {
      var init := items[..|items| - 1];
      AppendingBelowCapacity(listed, init);
      assert AppendedAll(listed, items) == AppendedAll(listed, init) + [Stored(items[|items| - 1])];
    }
  }

  /** A full table ignores every further add_entry. */
  lemma {:induction false} AppendingToFullTable(listed: seq<Entry>, items: seq<Entry>)
    requires |listed| >= MaxCommands
    ensures AppendedAll(listed, items) == listed
  {
    if items != [] {
      AppendingToFullTable(listed, items[..|items| - 1]);
    }
  }

  /** The arguments of the add_entry calls of init_menu_entries, in order. */
  const MenuItems: seq<Entry> := [
    Entry("Build C implementation", "./build.sh"),
    Entry("Debug camera detection (bash)", "./picam.sh --debug-cameras"),
    Entry("List cameras (C version)", "./picam --list-cameras"),
    Entry("Test USB camera (bash)", "./picam.sh --test-usb"),
    Entry("Bash: 640x480 30fps auto-detect", "./picam.sh --no-menu --resolution 640x480 --fps 30 --duration 10"),
    Entry("Bash: 1280x720 30fps auto-detect", "./picam.sh --no-menu --resolution 1280x720 --fps 30 --duration 15"),
    Entry("Bash: 1920x1080 25fps high quality", "./picam.sh --no-menu --resolution 1920x1080 --fps 25 --duration 10"),
    Entry("Bash: 1280x720 60fps performance test", "./picam.sh --no-menu --resolution 1280x720 --fps 60 --duration 8"),
    Entry("Bash: 800x600 25fps test", "./picam.sh --no-menu --resolution 800x600 --fps 25 --duration 15"),
    Entry("Bash: 1920x1080 15fps test", "./picam.sh --no-menu --resolution 1920x1080 --fps 15 --duration 20"),
    Entry("Bash: 1280x720 30fps KMS display", "./picam.sh --no-menu --resolution 1280x720 --fps 30 --display kms --duration 10"),
    Entry("Bash: 640x480 15fps infinite test", "./picam.sh --no-menu --resolution 640x480 --fps 15"),
    Entry("Bash: 1600x1200 20fps test", "./picam.sh --no-menu --resolution 1600x1200 --fps 20 --duration 12"),
    Entry("Bash: USB camera /dev/video0", "./picam.sh --no-menu --source /dev/video0 --resolution 640x480 --fps 30 --duration 10"),
    Entry("C: 640x480 30fps USB /dev/video0", "./picam --source /dev/video0 --resolution 640x480 --fps 30 --bitrate 1000000 --duration 10"),
    Entry("C: 1280x720 30fps auto-detect", "./picam --source auto --resolution 1280x720 --fps 30 --bitrate 4000000 --duration 15"),
    Entry("C: 1920x1080 25fps CSI camera", "./picam --source csi --resolution 1920x1080 --fps 25 --bitrate 8000000 --duration 10"),
    Entry("C: 1920x1080 30fps USB hardware encode", "./picam --source /dev/video0 --encode hardware --resolution 1920x1080 --fps 30 --bitrate 6000000 --duration 12"),
    Entry("C: 1280x720 60fps software encode", "./picam --source auto --encode software --resolution 1280x720 --fps 60 --bitrate 5000000 --duration 8"),
    Entry("C: 800x600 25fps low bitrate", "./picam --source auto --resolution 800x600 --fps 25 --bitrate 2000000 --duration 15"),
    Entry("C: 1920x1080 15fps high bitrate CSI", "./picam --source csi --resolution 1920x1080 --fps 15 --bitrate 10000000 --duration 20"),
    Entry("C: 1280x720 30fps framebuffer out", "./picam --source auto --resolution 1280x720 --fps 30 --bitrate 4000000 --framebuffer --duration 10"),
    Entry("C: 640x480 15fps USB infinite", "./picam --source /dev/video0 --resolution 640x480 --fps 15 --bitrate 1500000"),
    Entry("C: 1600x1200 20fps auto-detect", "./picam --source auto --resolution 1600x1200 --fps 20 --bitrate 7000000 --duration 12"),
    Entry("Bash: Interactive menu wizard", "./picam.sh"),
    Entry("Bash: Verbose mode test", "./picam.sh --no-menu --resolution 1280x720 --fps 30 --duration 5 --verbose"),
    Entry("Bash: Quiet mode test", "./picam.sh --no-menu --resolution 1280x720 --fps 30 --duration 5 --quiet"),
    Entry("Bash: Framebuffer display", "./picam.sh --no-menu --resolution 1280x720 --fps 30 --duration 10 --display fb"),
    Entry("Bash: Dry run (show pipeline)", "./picam.sh --no-menu --resolution 1280x720 --fps 30 --dry-run"),
    Entry("C: No overlay performance test", "./picam --no-overlay --source auto --resolution 1920x1080 --fps 30 --bitrate 6000000 --duration 10"),
    Entry("C: Verbose logging test", "./picam --source auto --resolution 1280x720 --fps 30 --bitrate 4000000 --duration 5 --verbose"),
    Entry("C: Quiet mode test", "./picam --source auto --resolution 1280x720 --fps 30 --bitrate 4000000 --duration 5 --quiet"),
    Entry("Stress Test: 4K 30fps (if supported)", "./picam --source auto --resolution 3840x2160 --fps 30 --bitrate 20000000 --duration 5"),
    Entry("Quick Test: 480p 15fps low impact", "./picam --source auto --resolution 640x480 --fps 15 --bitrate 800000 --duration 5")
  ]

  /** The table main works with: init_menu_entries on the empty table. */
  function InitialMenu(): seq<Entry>
  {
    AppendedAll([], MenuItems)
  }

  /** init_menu_entries leaves 34 entries, so no add_entry reaches the
      capacity guard, and entry k is the k-th item as add_entry stores it. */
  lemma InitialMenuEntries()
    ensures |InitialMenu()| == |MenuItems| == 34 < MaxCommands
    ensures forall k :: 0 <= k < 34 ==> InitialMenu()[k] == Stored(MenuItems[k])
  {
    MenuItemCount();
    AppendingBelowCapacity([], MenuItems);
  }

  lemma MenuItemCount()
    ensures |MenuItems| == 34
  {
  }

  /** menu_entries with entry_count. */
  class MenuTable {
    var entries: array<Entry>
    var count: nat

    ghost predicate Valid()
      reads this
    {
      entries.Length == MaxCommands && count <= MaxCommands
    }

    /** The entries in use. */
    ghost function Listed(): seq<Entry>
      reads this, entries
      requires Valid()
    {
      entries[..count]
    }

    /** The zero-initialised static table. */
    constructor()
      ensures Valid() && fresh(entries) && Listed() == []
    {
      entries := new Entry[MaxCommands](_ => Entry([], []));
      count := 0;
    }

    /** add_entry(name, command) */
    method AddEntry(name: seq<char>, command: seq<char>)
      requires Valid()
      modifies this`count, entries
      ensures Valid() && entries == old(entries)
      ensures Listed() == Appended(old(Listed()), Entry(name, command))
    {
      if count >= MaxCommands {
        return;
      }
      entries[count] := Entry(Truncate(name, MaxNameLen - 1), Truncate(command, MaxCmdLen - 1));
      count := count + 1;
    }

    /** add_entry for each item, in order. */
    method AddEntries(items: seq<Entry>)
      requires Valid()
      modifies this`count, entries
      ensures Valid() && entries == old(entries)
      ensures Listed() == AppendedAll(old(Listed()), items)
    {
      var i := 0;
      while i < |items|
        invariant 0 <= i <= |items|
        invariant Valid() && entries == old(entries)
        invariant Listed() == AppendedAll(old(Listed()), items[..i])
      {
        assert items[..i + 1][..i] == items[..i];
        AddEntry(items[i].name, items[i].command);
        i := i + 1;
      }
      assert items[..i] == items;
    }

    /** init_menu_entries: its 34 add_entry calls. */
    method InitMenuEntries()
      requires Valid()
      modifies this`count, entries
      ensures Valid() && entries == old(entries)
      ensures Listed() == AppendedAll(old(Listed()), MenuItems)
    {
      AddEntries(MenuItems);
    }
  }

  // ---------- get_user_input ----------

  /** What fgets with room for n characters reads from s: up to and
      including the first newline, at most n characters. */
  function ReadLine(s: seq<char>, n: nat): (line: seq<char>)
    ensures |line| <= n && |line| <= |s|
    ensures s != [] && n > 0 ==> |line| >= 1
  {
    if s == [] || n == 0 then []
    else if s[0] == '\n' then ['\n']
    else [s[0]] + ReadLine(s[1..], n - 1)
  }

  /** fgets stops after the first newline, when the buffer is full or at the
      end of the input, and reads what is there. */
  lemma {:induction false} ReadLineStops(s: seq<char>, n: nat)
    ensures var line := ReadLine(s, n);
      && line <= s
      && (forall k :: 0 <= k < |line| - 1 ==> line[k] != '\n')
      && (line == s || |line| == n || (line != [] && line[|line| - 1] == '\n'))
  {
    if s != [] && n > 0 && s[0] != '\n' {
      ReadLineStops(s[1..], n - 1);
    }
  }

  /** A line shorter than the buffer is read whole, with its newline. */
  lemma {:induction false} ReadLineOfLine(line: seq<char>, rest: seq<char>, n: nat)
    requires '\n' !in line && |line| < n
    ensures ReadLine(line + "\n" + rest, n) == line + "\n"
  {
    if line != [] {
      assert (line + "\n" + rest)[1..] == line[1..] + "\n" + rest;
      ReadLineOfLine(line[1..], rest, n - 1);
    }
  }

  /** The trailing newline removal of get_user_input. */
  function TrimNewline(s: seq<char>): (t: seq<char>)
    ensures t <= s && |s| - 1 <= |t|
    ensures |t| < |s| <==> s != [] && s[|s| - 1] == '\n'
  {
    if s != [] && s[|s| - 1] == '\n' then s[..|s| - 1] else s
  }

  /** Exactly one trailing newline goes; text without one is unchanged. */
  lemma {:induction false} TrimNewlineRemovesOne(s: seq<char>)
    ensures TrimNewline(s + "\n") == s
    ensures s == [] || s[|s| - 1] != '\n' ==> TrimNewline(s) == s
    ensures TrimNewline(s) + (if TrimNewline(s) == s then [] else "\n") == s
  {
  }

  /** get_user_input(buffer, size) with the input at s: None at the end of
      the input, otherwise the string the buffer then holds and the input
      left unread. */
  function Prompt(s: seq<char>, size: nat): (r: Option<(seq<char>, seq<char>)>)
    requires size >= 2
    ensures r.None? <==> s == []
    ensures r.Some? ==> |r.value.1| < |s| && |r.value.0| < size
  {
    if s == [] then None
    else
      var line := ReadLine(s, size - 1);
      Some((TrimNewline(Terminated(line)), s[|line|..]))
  }

  /** The string a line the user types leaves in the buffer: the line itself. */
  lemma {:induction false} PromptOfLine(line: seq<char>, rest: seq<char>, size: nat)
    requires size >= 2 && '\n' !in line && '\0' !in line && |line| < size - 1
    ensures Prompt(line + "\n" + rest, size) == Some((line, rest))
  {
    var s := line + "\n" + rest;
    ReadLineOfLine(line, rest, size - 1);
    NulFreeIsTerminated(line + "\n");
    assert TrimNewline(line + "\n") == line;
    assert s[|line + "\n"|..] == rest;
  }

  /** A buffer holding line and then a NUL holds the string line denotes. */
  lemma {:induction false} FilledBuffer(buf: seq<char>, line: seq<char>)
    requires |line| < |buf| && buf[..|line|] == line && buf[|line|] == '\0'
    ensures Terminated(buf) == Terminated(line)
  {
    TerminatedBeforeNul(buf, |line|);
  }

  /** Overwriting the newline that ends the string with NUL removes it. */
  lemma {:induction false} TrimmedBuffer(buf: seq<char>, held: seq<char>)
    requires Terminated(buf) == held && held != [] && held[|held| - 1] == '\n'
    ensures Terminated(buf[|held| - 1 := '\0']) == TrimNewline(held)
  {
    var b := buf[|held| - 1 := '\0'];
    TerminatedIsNulFreePrefix(buf);
    TerminatedBeforeNul(b, |held| - 1);
    assert b[..|held| - 1] == held[..|held| - 1];
    NulFreeIsTerminated(held[..|held| - 1]);
  }

  /** get_user_input: fgets into the buffer, then the trailing newline, if
      any, is overwritten with NUL. Returns -1 at the end of the input,
      leaving the buffer as it was. */
  method GetUserInput(buffer: array<char>, s: seq<char>) returns (status: int, rest: seq<char>)
    requires buffer.Length >= 2
    modifies buffer
    ensures status == 0 || status == -1
    ensures status == -1 <==> Prompt(s, buffer.Length).None?
    ensures status == -1 ==> rest == s && buffer[..] == old(buffer[..])
    ensures status == 0 ==> Prompt(s, buffer.Length) == Some((Terminated(buffer[..]), rest))
  {
    if s == [] {
      return -1, s;
    }
    var line := ReadLine(s, buffer.Length - 1);
    forall k | 0 <= k < |line| {
      buffer[k] := line[k];
    }
    buffer[|line|] := '\0';
    assert buffer[..][..|line|] == line;
    FilledBuffer(buffer[..], line);
    ghost var held := Terminated(line);
    var len := |Terminated(buffer[..])|;
    TerminatedIsNulFreePrefix(buffer[..]);
    if len > 0 && buffer[len - 1] == '\n' {
      ghost var before := buffer[..];
      buffer[len - 1] := '\0';
      assert buffer[..] == before[len - 1 := '\0'];
      TrimmedBuffer(before, held);
    } else {
      assert held == [] || held[|held| - 1] != '\n';
    }
    status, rest := 0, s[|line|..];
  }

  // ---------- the choice ----------

  /** What main does with a typed choice. */
  datatype Choice = Blank | Quit | Custom | Run(index: nat) | Invalid

  /** Empty input re-prompts; q, quit and exit in any case quit; c in any
      case asks for a custom command; otherwise atoi of the input picks an
      entry when it lies in 1..count, and anything else is invalid. */
  function Classify(input: seq<char>, count: nat): (c: Choice)
    ensures c == Blank <==> input == []
    ensures c.Run? ==> c.index < count && c.index == Atoi(input) - 1
  {
    if input == [] then Blank
    else if EqualsIgnoreCase(input, "q") || EqualsIgnoreCase(input, "quit") || EqualsIgnoreCase(input, "exit") then Quit
    else if EqualsIgnoreCase(input, "c") then Custom
    else
      var choice := Atoi(input);
      if 1 <= choice <= count then Run(choice - 1) else Invalid
  }

  /** The quit and custom words are recognised in any case. */
  lemma QuitInAnyCase(count: nat)
    ensures Classify("Q", count) == Quit && Classify("QUIT", count) == Quit && Classify("Exit", count) == Quit
    ensures Classify("C", count) == Custom
  {
    assert ToLower('Q') == 'q' && ToLower('U') == 'u' && ToLower('I') == 'i' && ToLower('T') == 't';
    assert ToLower('E') == 'e' && ToLower('C') == 'c';
    assert EqualsIgnoreCase("Q", "q");
    assert EqualsIgnoreCase("QUIT", "quit") by {
      forall i | 0 <= i < 4 ensures ToLower("QUIT"[i]) == ToLower("quit"[i]) {
      }
    }
    assert EqualsIgnoreCase("Exit", "exit") by {
      forall i | 0 <= i < 4 ensures ToLower("Exit"[i]) == ToLower("exit"[i]) {
      }
    }
    assert ToLower("C"[0]) != ToLower("q"[0]);
    assert EqualsIgnoreCase("C", "c");
  }

  /** A number in 1..count followed by anything that is not a digit selects
      that entry: atoi stops at the first non-digit. */
  lemma {:induction false} NumberSelectsEntry(k: int, rest: seq<char>, count: nat)
    requires 1 <= k <= count && k <= IntMax
    requires rest == [] || !IsDigit(rest[0])
    ensures Classify(DecimalString(k) + rest, count) == Run(k - 1)
  {
    var input := DecimalString(k) + rest;
    assert IsDigit(input[0]);
    assert !EqualsIgnoreCase(input, "q") && !EqualsIgnoreCase(input, "quit") && !EqualsIgnoreCase(input, "exit");
    assert !EqualsIgnoreCase(input, "c");
    ScanIntOfDecimal(k, rest);
  }

  /** In particular "3abc" runs the third entry of the menu. */
  lemma TrailingTextIgnored()
    ensures Classify("3abc", 34) == Run(2)
  {
    assert DecimalString(3) + "abc" == "3abc";
    NumberSelectsEntry(3, "abc", 34);
  }

  /** A number outside 1..count is an invalid choice. */
  lemma {:induction false} NumberOutOfRange(k: int, count: nat)
    requires IsInt32(k) && (k < 1 || k > count)
    ensures Classify(DecimalString(k), count) == Invalid
  {
    var input := DecimalString(k);
    assert IsDigit(input[0]) || input[0] == '-';
    assert !EqualsIgnoreCase(input, "q") && !EqualsIgnoreCase(input, "quit") && !EqualsIgnoreCase(input, "exit");
    assert !EqualsIgnoreCase(input, "c");
    AtoiOfDecimal(k);
  }

  // ---------- run_command ----------

  /** WEXITSTATUS: bits 8 to 15 of the wait status. */
  function ExitStatus(status: int): (code: int)
    ensures 0 <= code < 256
  {
    (status % 0x1_0000) / 0x100
  }

  /** A child that exits with code c, whatever the low byte of its wait status,
      gives c back. */
  lemma ExitStatusOfExit(c: int, low: int)
    requires 0 <= c < 256 && 0 <= low < 256
    ensures ExitStatus(c * 0x100 + low) == c
  {
  }

  /** The value run_command returns: 127 when the command mentions ./picam
      (followed by a space) and that file is not executable, or mentions
      ./picam.sh and that file is not, or system() fails; otherwise the exit
      status of the shell. */
  function RunCommandExit(command: seq<char>, picamRunnable: bool, scriptRunnable: bool, status: int): (code: int)
    ensures 0 <= code < 256
    ensures status == -1 ==> code == 127
    ensures Contains(command, "./picam ") && !picamRunnable ==> code == 127
    ensures Contains(command, "./picam.sh") && !scriptRunnable ==> code == 127
  {
    if Contains(command, "./picam ") && !picamRunnable then 127
    else if Contains(command, "./picam.sh") && !scriptRunnable then 127
    else if status == -1 then 127
    else ExitStatus(status)
  }

  /** With both files executable, or for a command that names neither, the
      code is the shell's exit code. */
  lemma {:induction false} RunCommandPassesExitCode(command: seq<char>, picamRunnable: bool, scriptRunnable: bool, c: int)
    requires 0 <= c < 256
    requires (picamRunnable || !Contains(command, "./picam ")) && (scriptRunnable || !Contains(command, "./picam.sh"))
    ensures RunCommandExit(command, picamRunnable, scriptRunnable, c * 0x100) == c
  {
    ExitStatusOfExit(c, 0);
  }

  // ---------- the main loop ----------

  /** The "Press Enter" read after a command: whatever it reads is dropped. */
  function Pause(s: seq<char>): (rest: seq<char>)
    ensures |rest| <= |s|
  {
    match Prompt(s, InputSize)
    case None => s
    case Some((_, rest)) => rest
  }

  /** The read after "Press Enter to return to menu...". */
  method AwaitEnter(input: array<char>, s: seq<char>) returns (next: seq<char>)
    requires input.Length == InputSize
    modifies input
    ensures next == Pause(s)
  {
    var _, rest := GetUserInput(input, s);
    next := rest;
  }

  /** What one pass of main's loop does with the input s: either it leaves
      the loop, or it runs the commands in ran (none or one) and continues
      with the input left. */
  datatype Turn = Leave | Continue(ran: seq<seq<char>>, rest: seq<char>)

  function TurnOf(entries: seq<Entry>, s: seq<char>): (t: Turn)
    ensures t.Continue? ==> |t.rest| < |s| && |t.ran| <= 1
  {
    match Prompt(s, InputSize)
    case None => Leave
    case Some((input, rest)) =>
      match Classify(input, |entries|)
      case Blank => Continue([], rest)
      case Invalid => Continue([], rest)
      case Quit => Leave
      case Run(k) => Continue([entries[k].command], Pause(rest))
      case Custom =>
        match Prompt(rest, CustomSize)
        case None => Continue([], rest)
        case Some((command, after)) =>
          if command == [] then Continue([], after) else Continue([command], Pause(after))
  }

  /** The commands main hands to run_command, in order, for the input s. */
  function Session(entries: seq<Entry>, s: seq<char>): (commands: seq<seq<char>>)
    // every pass of the loop reads at least one character and runs at most one command
    ensures |commands| <= |s|
    decreases |s|
  {
    match TurnOf(entries, s)
    case Leave => []
    case Continue(ran, rest) => ran + Session(entries, rest)
  }

  /** A session is a pass of the loop followed by the session on what is left. */
  lemma {:induction false} SessionContinues(entries: seq<Entry>, s: seq<char>, ran: seq<seq<char>>, rest: seq<char>)
    requires TurnOf(entries, s) == Continue(ran, rest)
    ensures Session(entries, s) == ran + Session(entries, rest)
  {
  }

  lemma {:induction false} SessionLeaves(entries: seq<Entry>, s: seq<char>)
    requires TurnOf(entries, s) == Leave
    ensures Session(entries, s) == []
  {
  }

  // The pass of the loop for each kind of choice.

  lemma {:induction false} TurnAtEnd(entries: seq<Entry>, s: seq<char>)
    requires s == []
    ensures TurnOf(entries, s) == Leave
  {
  }

  lemma {:induction false} TurnSkips(entries: seq<Entry>, s: seq<char>, input: seq<char>, rest: seq<char>)
    requires Prompt(s, InputSize) == Some((input, rest))
    requires Classify(input, |entries|) == Blank || Classify(input, |entries|) == Invalid
    ensures TurnOf(entries, s) == Continue([], rest)
  {
  }

  lemma {:induction false} TurnQuits(entries: seq<Entry>, s: seq<char>, input: seq<char>, rest: seq<char>)
    requires Prompt(s, InputSize) == Some((input, rest)) && Classify(input, |entries|) == Quit
    ensures TurnOf(entries, s) == Leave
  {
  }

  lemma {:induction false} TurnRuns(entries: seq<Entry>, s: seq<char>, input: seq<char>, rest: seq<char>, k: nat)
    requires Prompt(s, InputSize) == Some((input, rest)) && Classify(input, |entries|) == Run(k)
    ensures k < |entries| && TurnOf(entries, s) == Continue([entries[k].command], Pause(rest))
  {
  }

  lemma {:induction false} TurnCustomAtEnd(entries: seq<Entry>, s: seq<char>, input: seq<char>, rest: seq<char>)
    requires Prompt(s, InputSize) == Some((input, rest)) && Classify(input, |entries|) == Custom
    requires rest == []
    ensures TurnOf(entries, s) == Continue([], rest)
  {
  }

  lemma {:induction false} TurnCustom(entries: seq<Entry>, s: seq<char>, input: seq<char>, rest: seq<char>,
                                      command: seq<char>, after: seq<char>)
    requires Prompt(s, InputSize) == Some((input, rest)) && Classify(input, |entries|) == Custom
    requires Prompt(rest, CustomSize) == Some((command, after))
    ensures TurnOf(entries, s) == if command == [] then Continue([], after) else Continue([command], Pause(after))
  {
  }

  /** Typing the number of an entry runs that entry's command and then
      waits for Enter. */
  lemma {:induction false} ChosenEntryRuns(entries: seq<Entry>, k: int, rest: seq<char>)
    requires 1 <= k <= |entries| <= MaxCommands
    ensures Session(entries, DecimalString(k) + "\n" + rest) == [entries[k - 1].command] + Session(entries, Pause(rest))
  {
    var d := DecimalString(k);
    assert forall j :: 0 <= j < |d| ==> IsDigit(d[j]);
    assert |d| <= 2 by {
      assert d == NatDigits(k);
      if k >= 10 {
        assert NatDigits(k / 10) == [DigitChar(k / 10)];
      }
    }
    PromptOfLine(d, rest, InputSize);
    NumberSelectsEntry(k, [], |entries|);
    assert d + [] == d;
    TurnRuns(entries, d + "\n" + rest, d, rest, k - 1);
    SessionContinues(entries, d + "\n" + rest, [entries[k - 1].command], Pause(rest));
  }

  /** A quit word ends the session: nothing after it runs. */
  lemma {:induction false} QuitEndsSession(entries: seq<Entry>, word: seq<char>, rest: seq<char>)
    requires EqualsIgnoreCase(word, "q") || EqualsIgnoreCase(word, "quit") || EqualsIgnoreCase(word, "exit")
    ensures Session(entries, word + "\n" + rest) == []
  {
    assert '\n' !in word && '\0' !in word by {
      assert forall j :: 0 <= j < |word| ==> ToLower(word[j]) != '\n' && ToLower(word[j]) != '\0';
    }
    PromptOfLine(word, rest, InputSize);
    assert Classify(word, |entries|) == Quit;
    TurnQuits(entries, word + "\n" + rest, word, rest);
    SessionLeaves(entries, word + "\n" + rest);
  }

  /** An empty line asks again without running anything. */
  lemma {:induction false} EmptyLineReprompts(entries: seq<Entry>, rest: seq<char>)
    ensures Session(entries, "\n" + rest) == Session(entries, rest)
  {
    PromptOfLine([], rest, InputSize);
    assert [] + "\n" + rest == "\n" + rest;
    TurnSkips(entries, "\n" + rest, [], rest);
    SessionContinues(entries, "\n" + rest, [], rest);
    assert [] + Session(entries, rest) == Session(entries, rest);
  }

  /** A custom command is run as typed; an empty one is skipped. */
  lemma {:induction false} CustomCommandRuns(entries: seq<Entry>, command: seq<char>, rest: seq<char>)
    requires '\n' !in command && '\0' !in command && |command| < CustomSize - 1
    ensures Session(entries, "c\n" + command + "\n" + rest)
         == if command == [] then Session(entries, rest) else [command] + Session(entries, Pause(rest))
  {
    var after := command + "\n" + rest;
    assert "c\n" + command + "\n" + rest == "c" + "\n" + after;
    var s := "c" + "\n" + after;
    PromptOfLine("c", after, InputSize);
    assert EqualsIgnoreCase("c", "c");
    assert Classify("c", |entries|) == Custom;
    PromptOfLine(command, rest, CustomSize);
    TurnCustom(entries, s, "c", after, command, rest);
    if command == [] {
      SessionContinues(entries, s, [], rest);
      assert [] + Session(entries, rest) == Session(entries, rest);
    } else {
      SessionContinues(entries, s, [command], Pause(rest));
    }
  }

  lemma Regroup(a: seq<seq<char>>, b: seq<seq<char>>, c: seq<seq<char>>)
    ensures a + (b + c) == (a + b) + c
  {
  }

  /** One pass of main's loop, proved to do what TurnOf says. */
  method MenuTurn(entries: seq<Entry>, input: array<char>, custom: array<char>, s: seq<char>) returns (t: Turn)
    requires input.Length == InputSize && custom.Length == CustomSize && input != custom
    modifies input, custom
    ensures t == TurnOf(entries, s)
  {
    var status, rest := GetUserInput(input, s);
    if status < 0 {
      TurnAtEnd(entries, s);
      return Leave;
    }
    var line := Terminated(input[..]);
    var choice := Classify(line, |entries|);
    match choice {
      case Blank =>
        TurnSkips(entries, s, line, rest);
        t := Continue([], rest);
      case Invalid =>
        TurnSkips(entries, s, line, rest);
        t := Continue([], rest);
      case Quit =>
        TurnQuits(entries, s, line, rest);
        t := Leave;
      case Custom =>
        var got, after := GetUserInput(custom, rest);
        var command := Terminated(custom[..]);
        if got < 0 {
          TurnCustomAtEnd(entries, s, line, rest);
          t := Continue([], rest);
        } else {
          TurnCustom(entries, s, line, rest, command, after);
          if command == [] {
            t := Continue([], after);
          } else {
            var next := AwaitEnter(input, after);
            t := Continue([command], next);
          }
        }
      case Run(k) =>
        TurnRuns(entries, s, line, rest, k);
        var next := AwaitEnter(input, rest);
        t := Continue([entries[k].command], next);
    }
  }

  /** main's loop over the entries of the table, proved to run exactly the
      commands of Session. */
  method MenuLoop(entries: seq<Entry>, s: seq<char>) returns (ran: seq<seq<char>>)
    ensures ran == Session(entries, s)
  {
    var input := new char[InputSize];
    var custom := new char[CustomSize];
    var unread := s;
    ran := [];
    assert ran + Session(entries, s) == Session(entries, s);
    while true
      invariant ran + Session(entries, unread) == Session(entries, s)
      decreases |unread|
    {
      var t := MenuTurn(entries, input, custom, unread);
      if t.Leave? {
        SessionLeaves(entries, unread);
        assert ran + [] == ran;
        break;
      }
      SessionContinues(entries, unread, t.ran, t.rest);
      Regroup(ran, t.ran, Session(entries, t.rest));
      ran := ran + t.ran;
      unread := t.rest;
    }
  }

  /** The loop reads the table, which it never changes. */
  method RunMenu(table: MenuTable, s: seq<char>) returns (ran: seq<seq<char>>)
    requires table.Valid()
    ensures ran == Session(table.Listed(), s)
  {
    var entries := table.entries[..table.count];
    ran := MenuLoop(entries, s);
  }

  /** main: the table is built, then the loop runs; main returns 0. */
  method MenuMain(s: seq<char>) returns (ran: seq<seq<char>>, exitCode: int)
    ensures ran == Session(InitialMenu(), s) && exitCode == 0
  {
    var table := new MenuTable();
    table.InitMenuEntries();
    ran := RunMenu(table, s);
    exitCode := 0;
  }
}
