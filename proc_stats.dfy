/** The CPU and memory figures of the stats file, read from /proc: the
    aggregate "cpu" line of /proc/stat, utime and stime from
    /proc/<pid>/stat, and VmRSS from /proc/<pid>/status. File contents are
    inputs (None when fopen fails); the 250 ms sleep between the two samples
    is left to the caller. */
module ProcStats {
  import opened CLib

  // ---------- reading text as C does ----------

  /** What fgets(buf, limit + 1, f) reads from the rest s of a file: up to
      limit characters, stopping after the first newline. */
  function FgetsChunk(s: seq<char>, limit: nat): (c: seq<char>)
    ensures c <= s && |c| <= limit
    ensures s != [] && limit > 0 ==> c != []
    ensures forall k :: 0 <= k < |c| - 1 ==> c[k] != '\n'
    ensures |c| < |s| && |c| < limit ==> c != [] && c[|c| - 1] == '\n'
  {
    if s == [] || limit == 0 then []
    else if s[0] == '\n' then ['\n']
    else [s[0]] + FgetsChunk(s[1..], limit - 1)
  }

  /** A whole line that fits is read in one piece. */
  lemma {:induction false} FgetsReadsLine(line: seq<char>, rest: seq<char>, limit: nat)
    requires line != [] && line[|line| - 1] == '\n' && |line| <= limit
    requires forall k :: 0 <= k < |line| - 1 ==> line[k] != '\n'
    ensures FgetsChunk(line + rest, limit) == line
    decreases |line|
  {
    assert (line + rest)[0] == line[0];
    if |line| > 1 {
      assert (line + rest)[1..] == line[1..] + rest;
      FgetsReadsLine(line[1..], rest, limit - 1);
    }
  }

  /** The values of "%llu %llu ..." with n conversions: sscanf stores values
      until the first conversion that fails. */
  function ScanULongLongs(s: seq<char>, n: nat): (vs: seq<nat>)
    ensures |vs| <= n
    ensures forall k :: 0 <= k < |vs| ==> vs[k] <= U64Max
    decreases n
  {
    if n == 0 then []
    else
      match ScanULongLong(s)
      case None => []
      case Some((v, rest)) => [v] + ScanULongLongs(rest, n - 1)
  }

  /** The space-separated decimal fields of a /proc line, each written
      as "%d" writes it. */
  function Fields(vs: seq<int>): seq<char>
  {
    if vs == [] then [] else [' '] + DecimalString(vs[0]) + Fields(vs[1..])
  }

  lemma {:induction false} ScanULongLongAfterSpace(x: seq<char>)
    ensures ScanULongLong([' '] + x) == ScanULongLong(x)
  {
    ScanNumeralAfterSpace(' ', x);
  }

  /** What the %llu conversions store for fields written as vs: each
      value modulo 2^64. */
  function Converted(vs: seq<int>): (ws: seq<nat>)
    requires forall k :: 0 <= k < |vs| ==> FitsULongLong(vs[k])
    ensures |ws| == |vs|
    ensures forall k :: 0 <= k < |vs| ==> ws[k] == ULongLongOf(vs[k])
  {
    if vs == [] then [] else [ULongLongOf(vs[0])] + Converted(vs[1..])
  }

  /** Unsigned fields are stored as they are. */
  lemma {:induction false} ConvertedUnsigned(vs: seq<nat>)
    requires forall k :: 0 <= k < |vs| ==> vs[k] <= U64Max
    ensures Converted(vs) == vs
  {
    assert forall k :: 0 <= k < |vs| ==> Converted(vs)[k] == vs[k];
  }

  /** Reading the fields back with %llu gives the values written, negative
      ones modulo 2^64, whatever non-digit text follows them. */
  lemma {:induction false} ScanFieldsRoundTrip(vs: seq<int>, n: nat, rest: seq<char>)
    requires n <= |vs| && forall k :: 0 <= k < |vs| ==> FitsULongLong(vs[k])
    requires rest == [] || !IsDigit(rest[0])
    ensures ScanULongLongs(Fields(vs) + rest, n) == Converted(vs)[..n]
  {
    if n > 0 {
      ScanSomeFields(vs, n, rest);
    }
  }

  lemma {:induction false} ScanSomeFields(vs: seq<int>, n: nat, rest: seq<char>)
    requires 0 < n <= |vs| && forall k :: 0 <= k < |vs| ==> FitsULongLong(vs[k])
    requires rest == [] || !IsDigit(rest[0])
    ensures ScanULongLongs(Fields(vs) + rest, n) == Converted(vs)[..n]
    decreases n
  {
    if n == 1 {
      ScanFirstField(vs, rest);
    } else {
      ScanFieldsStep(vs, n, rest);
      ScanSomeFields(vs[1..], n - 1, rest);
      HeadAndPrefix(vs, n);
    }
  }

  lemma {:induction false} ScanFirstField(vs: seq<int>, rest: seq<char>)
    requires vs != [] && forall k :: 0 <= k < |vs| ==> FitsULongLong(vs[k])
    requires rest == [] || !IsDigit(rest[0])
    ensures ScanULongLongs(Fields(vs) + rest, 1) == Converted(vs)[..1]
  {
    ScanFieldsStep(vs, 1, rest);
    assert Converted(vs)[..1] == [ULongLongOf(vs[0])];
  }

  /** The first conversion reads the first field. */
  lemma {:induction false} ScanFieldsStep(vs: seq<int>, n: nat, rest: seq<char>)
    requires 0 < n && vs != [] && FitsULongLong(vs[0])
    requires rest == [] || !IsDigit(rest[0])
    ensures ScanULongLongs(Fields(vs) + rest, n) == [ULongLongOf(vs[0])] + ScanULongLongs(Fields(vs[1..]) + rest, n - 1)
  {
    FieldsCons(vs, rest);
    ScanOneField(vs[0], Fields(vs[1..]) + rest);
  }

  lemma {:induction false} FieldsCons(vs: seq<int>, rest: seq<char>)
    requires vs != []
    requires rest == [] || !IsDigit(rest[0])
    ensures Fields(vs) + rest == [' '] + DecimalString(vs[0]) + (Fields(vs[1..]) + rest)
    ensures var tail := Fields(vs[1..]) + rest; tail == [] || !IsDigit(tail[0])
  {
    var d := DecimalString(vs[0]);
    var f := Fields(vs[1..]);
    assert Fields(vs) == [' '] + d + f;
    assert Fields(vs) + rest == [' '] + d + (f + rest);
    if vs[1..] != [] {
      assert f[0] == ' ';
      assert (f + rest)[0] == ' ';
    } else {
      assert f + rest == rest;
    }
  }

  lemma {:induction false} ScanOneField(v: int, tail: seq<char>)
    requires FitsULongLong(v)
    requires tail == [] || !IsDigit(tail[0])
    ensures ScanULongLong([' '] + DecimalString(v) + tail) == Some((ULongLongOf(v), tail))
  {
    assert [' '] + DecimalString(v) + tail == [' '] + (DecimalString(v) + tail);
    ScanULongLongAfterSpace(DecimalString(v) + tail);
    ScanULongLongOfDecimal(v, tail);
  }

  lemma {:induction false} HeadAndPrefix(vs: seq<int>, n: nat)
    requires 0 < n <= |vs| && forall k :: 0 <= k < |vs| ==> FitsULongLong(vs[k])
    ensures Converted(vs)[..n] == [ULongLongOf(vs[0])] + Converted(vs[1..])[..n - 1]
  {
    var ws := Converted(vs);
    assert Converted(vs[1..]) == ws[1..];
    assert ws[..n] == [ws[0]] + ws[1..][..n - 1];
  }

  predicate IsU64(x: int) { 0 <= x <= U64Max }

  /** unsigned long long. */
  type U64 = x: nat | x <= U64Max

  /** a - b on unsigned long long. */
  function SubU64(a: nat, b: nat): (d: nat)
    requires IsU64(a) && IsU64(b)
    ensures IsU64(d)
    ensures a >= b ==> d == a - b
  {
    if a >= b then a - b else a - b + U64Modulus
  }

  /** a + b on unsigned long long. */
  function AddU64(a: nat, b: nat): (s: nat)
    requires IsU64(a) && IsU64(b)
    ensures IsU64(s)
    ensures a + b <= U64Max ==> s == a + b
  {
    if a + b <= U64Max then a + b else a + b - U64Modulus
  }

  // ---------- /proc/stat ----------

  /** The seven counters of the aggregate cpu line: user, nice, system,
      idle, iowait, irq, softirq. */
  datatype StatRead = StatRead(rc: int, times: seq<nat>)

  /** read_proc_stat_total. The counters are the caller's storage, prior is
      what it held: sscanf stores only the fields it converts, so fields
      after the first that fails keep their earlier values. */
  function ReadProcStatTotal(file: Option<seq<char>>, prior: seq<nat>): (r: StatRead)
    requires |prior| == 7 && forall k :: 0 <= k < 7 ==> IsU64(prior[k])
    ensures |r.times| == 7 && forall k :: 0 <= k < 7 ==> IsU64(r.times[k])
    ensures r.rc == 0 || r.rc == -1
    ensures r.rc == -1 <==> file.None? || file.value == []
    ensures r.rc == -1 ==> r.times == prior
  {
    match file
    case None => StatRead(-1, prior)
    case Some(s) =>
      if s == [] then StatRead(-1, prior)
      else
        var vs := CpuCounters(Terminated(FgetsChunk(s, 511)));
        StatRead(0, vs + prior[|vs|..])
  }

  /** The counters sscanf converts from the first line of /proc/stat: none
      unless it starts with "cpu". */
  function CpuCounters(text: seq<char>): (vs: seq<nat>)
    ensures |vs| <= 7 && forall k :: 0 <= k < |vs| ==> IsU64(vs[k])
  {
    if |text| >= 3 && text[..3] == "cpu" then ScanULongLongs(text[3..], 7) else []
  }

  /** The aggregate line as the kernel writes it ("cpu", two spaces, then
      the counters; ten of them since guest_nice) yields its first seven
      counters, whatever the storage held before and whatever lines follow. */
  lemma {:induction false} StatLineRead(vs: seq<nat>, rest: seq<char>, prior: seq<nat>)
    requires |vs| >= 7 && forall k :: 0 <= k < |vs| ==> IsU64(vs[k])
    requires |prior| == 7 && forall k :: 0 <= k < 7 ==> IsU64(prior[k])
    requires |"cpu " + Fields(vs) + "\n"| <= 511
    ensures ReadProcStatTotal(Some("cpu " + Fields(vs) + "\n" + rest), prior) == StatRead(0, vs[..7])
  {
    var text := "cpu " + Fields(vs);
    var line := text + "\n";
    assert "cpu " + Fields(vs) + "\n" + rest == line + rest;
    FieldsAreSpacedDigits(vs);
    forall k | 0 <= k < |line| ensures line[k] != '\0' && (k < |line| - 1 ==> line[k] != '\n') {
      if 4 <= k < |line| - 1 { assert line[k] == Fields(vs)[k - 4]; }
    }
    FgetsReadsLine(line, rest, 511);
    NulFreeIsTerminated(line);
    CpuCountersOfLine(vs, line);
    assert vs[..7] + prior[7..] == vs[..7];
  }

  lemma {:induction false} CpuCountersOfLine(vs: seq<nat>, line: seq<char>)
    requires |vs| >= 7 && forall k :: 0 <= k < |vs| ==> IsU64(vs[k])
    requires line == "cpu " + Fields(vs) + "\n"
    ensures CpuCounters(line) == vs[..7]
  {
    CpuLineShape(vs, line);
    ScanSevenFields(vs);
    ScanULongLongsAfterSpace(Fields(vs) + "\n", 7);
  }

  lemma {:induction false} CpuLineShape(vs: seq<nat>, line: seq<char>)
    requires line == "cpu " + Fields(vs) + "\n"
    ensures |line| >= 3 && line[..3] == "cpu" && line[3..] == [' '] + (Fields(vs) + "\n")
  {
  }

  lemma {:induction false} ScanSevenFields(vs: seq<nat>)
    requires |vs| >= 7 && forall k :: 0 <= k < |vs| ==> IsU64(vs[k])
    ensures ScanULongLongs(Fields(vs) + "\n", 7) == vs[..7]
  {
    ScanFieldsRoundTrip(vs, 7, "\n");
    ConvertedUnsigned(vs);
  }

  lemma {:induction false} ScanULongLongsAfterSpace(x: seq<char>, n: nat)
    ensures ScanULongLongs([' '] + x, n) == ScanULongLongs(x, n)
  {
    ScanULongLongAfterSpace(x);
  }

  /** The fields are spaces, minus signs and digits only. */
  predicate IsFieldChar(c: char) { c == ' ' || c == '-' || IsDigit(c) }

  lemma {:induction false} FieldsAreSpacedDigits(vs: seq<int>)
    ensures forall k :: 0 <= k < |Fields(vs)| ==> IsFieldChar(Fields(vs)[k])
    decreases |vs|
  {
    if vs != [] {
      FieldsAreSpacedDigits(vs[1..]);
      var d := DecimalString(vs[0]);
      assert forall k :: 0 <= k < |d| ==> IsFieldChar(d[k]);
      assert Fields(vs) == [' '] + d + Fields(vs[1..]);
    }
  }


  /** The unsigned 64-bit sum of the seven counters. */
  function Total(t: seq<nat>): (sum: nat)
    requires |t| == 7 && forall k :: 0 <= k < 7 ==> IsU64(t[k])
    ensures IsU64(sum)
  {
    AddU64(AddU64(AddU64(AddU64(AddU64(AddU64(t[0], t[1]), t[2]), t[3]), t[4]), t[5]), t[6])
  }

  // ---------- /proc/<pid>/stat and /proc/<pid>/status ----------

  /** What read_proc_pid_stat reports on success. */
  datatype PidSample = PidSample(utime: U64, stime: U64, rssKb: int)

  /** The kB figure of the first status line that starts with "VmRSS:";
      0 when there is none or it holds no number. Lines are read as fgets
      with a 512-byte buffer reads them. */
  function VmRssFrom(s: seq<char>): (kb: int)
    ensures LongMin <= kb <= LongMax
    decreases |s|
  {
    if s == [] then 0
    else
      var c := FgetsChunk(s, 511);
      match VmRssOfLine(Terminated(c))
      case Some(kb) => kb
      case None => VmRssFrom(s[|c|..])
  }

  /** The figure on one status line: None unless it starts with "VmRSS:",
      then the %ld conversion of the rest, or 0 when it fails. */
  function VmRssOfLine(line: seq<char>): (kb: Option<int>)
    ensures kb.Some? ==> LongMin <= kb.value <= LongMax
    ensures kb.None? <==> !(|line| >= 6 && line[..6] == "VmRSS:")
  {
    if |line| >= 6 && line[..6] == "VmRSS:" then
      match ScanLong(line[6..])
      case None => Some(0)
      case Some((v, _)) => Some(v)
    else None
  }

  function VmRssKb(status: Option<seq<char>>): (kb: int)
    ensures status.None? ==> kb == 0
  {
    match status
    case None => 0
    case Some(s) => VmRssFrom(s)
  }

  /** Lines other than VmRSS are passed over. */
  lemma {:induction false} VmRssSkipsOtherLine(line: seq<char>, rest: seq<char>)
    requires line != [] && line[|line| - 1] == '\n' && |line| <= 511
    requires forall k :: 0 <= k < |line| - 1 ==> line[k] != '\n'
    requires !(|Terminated(line)| >= 6 && Terminated(line)[..6] == "VmRSS:")
    ensures VmRssFrom(line + rest) == VmRssFrom(rest)
  {
    FgetsReadsLine(line, rest, 511);
    assert (line + rest)[|line|..] == rest;
  }

  /** A VmRSS line for a figure of kb, with pad between the label and the
      figure. The kernel writes a tab and then pads the figure with spaces
      to eight characters. */
  function VmRssLine(pad: seq<char>, kb: nat): seq<char>
  {
    "VmRSS:" + pad + DecimalString(kb) + " kB\n"
  }

  /** Blanks and tabs: white space that stays on one line. */
  predicate IsBlank(c: char) { c == ' ' || c == '\t' }

  /** A VmRSS line yields the number written on it, however it is padded
      and whatever follows. */
  lemma {:induction false} VmRssLineRead(pad: seq<char>, kb: nat, rest: seq<char>)
    requires forall k :: 0 <= k < |pad| ==> IsBlank(pad[k])
    requires kb <= LongMax && |VmRssLine(pad, kb)| <= 511
    ensures VmRssFrom(VmRssLine(pad, kb) + rest) == kb
  {
    var line := VmRssLine(pad, kb);
    var d := DecimalString(kb);
    assert forall k :: 0 <= k < |d| ==> IsDigit(d[k]);
    assert line == "VmRSS:" + pad + d + " kB\n";
    forall k | 0 <= k < |line| ensures line[k] != '\0' && (k < |line| - 1 ==> line[k] != '\n') {
      if 6 <= k < 6 + |pad| { assert line[k] == pad[k - 6]; }
      if 6 + |pad| <= k < 6 + |pad| + |d| { assert line[k] == d[k - 6 - |pad|]; }
    }
    FgetsReadsLine(line, rest, 511);
    NulFreeIsTerminated(line);
    VmRssOfLineRead(pad, kb, line);
  }

  lemma {:induction false} VmRssOfLineRead(pad: seq<char>, kb: nat, line: seq<char>)
    requires forall k :: 0 <= k < |pad| ==> IsBlank(pad[k])
    requires kb <= LongMax && line == VmRssLine(pad, kb)
    ensures VmRssOfLine(line) == Some(kb)
  {
    var tail := pad + (DecimalString(kb) + " kB\n");
    assert line == "VmRSS:" + tail;
    assert line[..6] == "VmRSS:" && line[6..] == tail;
    ScanNumeralAfterSpaces(pad, DecimalString(kb) + " kB\n");
    ScanLongOfDecimal(kb, " kB\n");
  }

  /** read_proc_pid_stat as written: it parses from two characters after the
      last ')', which is the one-letter state field, not the first number. */
  function ReadProcPidStatAsWritten(stat: Option<seq<char>>, status: Option<seq<char>>): (r: Option<PidSample>)
    ensures r.Some? ==> stat.Some? && r.value.rssKb == VmRssKb(status)
  {
    match stat
    case None => None
    case Some(s) =>
      match StatValues(Truncate(s, 4095), 2)
      case None => None
      case Some(vs) => Some(PidSample(vs[10], vs[11], VmRssKb(status)))
  }

  /** read_proc_pid_stat as intended: the scan starts after the state
      field, at ppid (field 4), so the 11th and 12th values are utime and
      stime (fields 14 and 15). */
  function ReadProcPidStat(stat: Option<seq<char>>, status: Option<seq<char>>): (r: Option<PidSample>)
    ensures r.Some? ==> stat.Some? && r.value.rssKb == VmRssKb(status)
    ensures r.Some? ==> IsU64(r.value.utime) && IsU64(r.value.stime)
  {
    match stat
    case None => None
    case Some(s) =>
      match StatValues(Truncate(s, 4095), 3)
      case None => None
      case Some(vs) => Some(PidSample(vs[10], vs[11], VmRssKb(status)))
  }

  /** The twelve values the twelve %llu conversions store. buf holds the
      bytes fread returned, NUL-terminated after them: strrchr finds the last
      ')' of the string up to the first NUL, and sscanf reads the string that
      starts skip bytes after it, which may lie past that NUL. None when
      there is no ')' or fewer than twelve convert. */
  function StatValues(buf: seq<char>, skip: nat): (vs: Option<seq<nat>>)
    ensures vs.Some? ==> |vs.value| == 12 && forall k :: 0 <= k < 12 ==> IsU64(vs.value[k])
    ensures ')' !in Terminated(buf) ==> vs.None?
  {
    match LastIndexOf(Terminated(buf), ')')
    case None => None
    case Some(rp) =>
      var vs := ScanULongLongs(if rp + skip <= |buf| then Terminated(buf[rp + skip..]) else [], 12);
      if |vs| < 12 then None else Some(vs)
  }

  /** A line without NUL is its own string from any position on. */
  lemma NulFreeSuffix(line: seq<char>, i: nat)
    requires '\0' !in line && i <= |line|
    ensures Terminated(line) == line && Terminated(line[i..]) == line[i..]
  {
    NulFreeIsTerminated(line);
    assert '\0' !in line[i..] by {
      forall k | 0 <= k < |line[i..]| ensures line[i..][k] != '\0' {
        assert line[i..][k] == line[i + k];
      }
    }
    NulFreeIsTerminated(line[i..]);
  }

  /** The scan follows the buffer past a NUL right after the last ')': the
      string sscanf reads then starts after that NUL, and its fields convert. */
  lemma {:induction false} ScanReadsPastNul(head: seq<char>, fields: seq<int>)
    requires '\0' !in head
    requires |fields| >= 12 && forall k :: 0 <= k < |fields| ==> FitsULongLong(fields[k])
    ensures StatValues(head + [')', '\0'] + Fields(fields) + "\n", 2) == Some(Converted(fields)[..12])
  {
    var tail := Fields(fields) + "\n";
    var buf := head + [')', '\0'] + Fields(fields) + "\n";
    assert buf == (head + [')']) + (['\0'] + tail);
    StringBeforeNul(head + [')'], tail);
    assert LastIndexOf(head + [')'], ')') == Some(|head|);
    assert buf[|head| + 2..] == tail;
    FieldsLineIsClean(fields);
    NulFreeIsTerminated(tail);
    ScanFieldsRoundTrip(fields, 12, "\n");
    StatValuesAt(buf, |head|, 2, Converted(fields)[..12]);
  }

  /** The string of a buffer whose first NUL ends s is s. */
  lemma {:induction false} StringBeforeNul(s: seq<char>, rest: seq<char>)
    requires '\0' !in s
    ensures Terminated(s + (['\0'] + rest)) == s
  {
    var buf := s + (['\0'] + rest);
    assert buf[|s|] == '\0';
    TerminatedBeforeNul(buf, |s|);
    assert buf[..|s|] == s;
    NulFreeIsTerminated(s);
  }

  lemma {:induction false} StatValuesAt(buf: seq<char>, rp: nat, skip: nat, vs: seq<nat>)
    requires LastIndexOf(Terminated(buf), ')') == Some(rp) && rp + skip <= |buf|
    requires ScanULongLongs(Terminated(buf[rp + skip..]), 12) == vs && |vs| == 12
    ensures StatValues(buf, skip) == Some(vs)
  {
  }

  /** A /proc/<pid>/stat file as the kernel writes it: pid, the command in
      parentheses, the one-letter state, the numeric fields from ppid on
      (some of them signed, such as tty_nr, tpgid and nice), and a newline.
      The command may hold any character but NUL, ')' included. */
  function StatLine(pid: nat, comm: seq<char>, state: char, fields: seq<int>): seq<char>
  {
    (DecimalString(pid) + " (" + comm) + [')'] + ([' ', state] + (Fields(fields) + "\n"))
  }

  predicate IsLetter(c: char) { 'A' <= c <= 'Z' || 'a' <= c <= 'z' }

  /** Where the parse starts, as written and as intended. */
  lemma {:induction false} StatLineLayout(pid: nat, comm: seq<char>, state: char, fields: seq<int>) returns (rp: nat)
    requires '\0' !in comm && state != '\0' && state != ')'
    requires |StatLine(pid, comm, state, fields)| <= 4095
    ensures var line := StatLine(pid, comm, state, fields);
      && rp + 3 <= |line|
      && Truncate(line, 4095) == line && '\0' !in line
      && LastIndexOf(line, ')') == Some(rp)
      && line[rp + 2] == state
      && line[rp + 3..] == Fields(fields) + "\n"
  {
    var d := DecimalString(pid);
    assert forall k :: 0 <= k < |d| ==> IsFieldChar(d[k]);
    FieldsLineIsClean(fields);
    HeadIsNulFree(d, comm);
    rp := LineLayout(d + " (" + comm, state, Fields(fields) + "\n");
    TerminatedIsNulFreePrefix(StatLine(pid, comm, state, fields));
  }

  /** The numeric part of a stat line holds no ')' and no NUL. */
  lemma {:induction false} FieldsLineIsClean(fields: seq<int>)
    ensures ')' !in Fields(fields) + "\n" && '\0' !in Fields(fields) + "\n"
  {
    FieldsAreSpacedDigits(fields);
    var f := Fields(fields) + "\n";
    forall k | 0 <= k < |f| ensures f[k] != ')' && f[k] != '\0' {
      if k < |Fields(fields)| { assert IsFieldChar(Fields(fields)[k]); }
    }
  }

  /** The layout of "<head>) <state><f>" for a head without NUL and a tail
      f without ')' or NUL: the last ')' is the one after the head. */
  lemma {:induction false} LineLayout(head: seq<char>, state: char, f: seq<char>) returns (rp: nat)
    requires '\0' !in head
    requires ')' !in f && '\0' !in f
    requires state != '\0' && state != ')'
    ensures var line := head + [')'] + ([' ', state] + f);
      && rp + 3 <= |line|
      && Terminated(line) == line
      && LastIndexOf(line, ')') == Some(rp)
      && line[rp + 2] == state
      && line[rp + 3..] == f
  {
    TailIsClean(state, f);
    LastIndexOfBeforeTail(head, [' ', state] + f);
    NulFreeIsTerminated(head + [')'] + ([' ', state] + f));
    AfterParen(head, state, f);
    rp := |head|;
  }

  lemma {:induction false} HeadIsNulFree(d: seq<char>, comm: seq<char>)
    requires forall k :: 0 <= k < |d| ==> IsFieldChar(d[k])
    requires '\0' !in comm
    ensures '\0' !in d + " (" + comm
  {
    var head := d + " (" + comm;
    forall k | 0 <= k < |head| ensures head[k] != '\0' {
      if k < |d| { assert head[k] == d[k]; }
    }
  }

  lemma {:induction false} TailIsClean(state: char, f: seq<char>)
    requires ')' !in f && '\0' !in f
    requires state != '\0' && state != ')'
    ensures ')' !in [' ', state] + f && '\0' !in [' ', state] + f
  {
    var tail := [' ', state] + f;
    forall k | 0 <= k < |tail| ensures tail[k] != ')' && tail[k] != '\0' {
      if k >= 2 { assert tail[k] == f[k - 2]; }
    }
  }

  lemma {:induction false} AfterParen(head: seq<char>, state: char, f: seq<char>)
    ensures (head + [')'] + ([' ', state] + f))[|head| + 2] == state
    ensures (head + [')'] + ([' ', state] + f))[|head| + 3..] == f
  {
  }

  lemma {:induction false} LastIndexOfBeforeTail(head: seq<char>, tail: seq<char>)
    requires ')' !in tail
    ensures LastIndexOf(head + [')'] + tail, ')') == Some(|head|)
    decreases |tail|
  {
    var s := head + [')'] + tail;
    if tail == [] {
      assert s[|s| - 1] == ')';
    } else {
      assert s[..|s| - 1] == head + [')'] + tail[..|tail| - 1];
      assert s[|s| - 1] == tail[|tail| - 1];
      LastIndexOfBeforeTail(head, tail[..|tail| - 1]);
    }
  }

  /** As written, every stat line the kernel produces is rejected: the scan
      meets the state letter and converts nothing. */
  lemma {:induction false} AsWrittenRejectsEveryStatLine(pid: nat, comm: seq<char>, state: char, fields: seq<int>,
                                                        status: Option<seq<char>>)
    requires '\0' !in comm && IsLetter(state)
    requires |StatLine(pid, comm, state, fields)| <= 4095
    ensures ReadProcPidStatAsWritten(Some(StatLine(pid, comm, state, fields)), status) == None
  {
    var rp := StatLineLayout(pid, comm, state, fields);
    var line := StatLine(pid, comm, state, fields);
    StateLetterStopsScan(line, rp, state);
    AsWrittenOfNoValues(line, status);
  }

  lemma {:induction false} AsWrittenOfNoValues(line: seq<char>, status: Option<seq<char>>)
    requires Truncate(line, 4095) == line && StatValues(line, 2) == None
    ensures ReadProcPidStatAsWritten(Some(line), status) == None
  {
  }

  lemma {:induction false} StateLetterStopsScan(line: seq<char>, rp: nat, state: char)
    requires '\0' !in line
    requires LastIndexOf(line, ')') == Some(rp) && rp + 2 < |line| && line[rp + 2] == state
    requires IsLetter(state)
    ensures StatValues(line, 2) == None
  {
    NulFreeSuffix(line, rp + 2);
    var p := line[rp + 2..];
    ScanNumeralNeedsDigit(p);
    assert ScanULongLong(p) == None;
    assert ScanULongLongs(p, 12) == [];
  }

  /** As intended, the 11th and 12th values after the state are returned:
      fields 14 (utime) and 15 (stime) of the line, which the kernel writes
      unsigned and %llu therefore reads as written. */
  lemma {:induction false} ReadsUtimeAndStime(pid: nat, comm: seq<char>, state: char, fields: seq<int>,
                                             status: Option<seq<char>>)
    requires '\0' !in comm && IsLetter(state)
    requires |fields| >= 12 && forall k :: 0 <= k < |fields| ==> FitsULongLong(fields[k])
    requires |StatLine(pid, comm, state, fields)| <= 4095
    ensures ReadProcPidStat(Some(StatLine(pid, comm, state, fields)), status)
         == Some(PidSample(ULongLongOf(fields[10]), ULongLongOf(fields[11]), VmRssKb(status)))
  {
    var rp := StatLineScans(pid, comm, state, fields);
    var line := StatLine(pid, comm, state, fields);
    StatValuesOfScan(line, rp, 3, Converted(fields)[..12]);
    PidStatOfValues(line, status, Converted(fields)[..12]);
  }

  /** The twelve values after the state of a stat line read back. */
  lemma {:induction false} StatLineScans(pid: nat, comm: seq<char>, state: char, fields: seq<int>) returns (rp: nat)
    requires '\0' !in comm && IsLetter(state)
    requires |fields| >= 12 && forall k :: 0 <= k < |fields| ==> FitsULongLong(fields[k])
    requires |StatLine(pid, comm, state, fields)| <= 4095
    ensures var line := StatLine(pid, comm, state, fields);
      && rp + 3 <= |line|
      && Truncate(line, 4095) == line && '\0' !in line
      && LastIndexOf(line, ')') == Some(rp)
      && ScanULongLongs(line[rp + 3..], 12) == Converted(fields)[..12]
  {
    rp := StatLineLayout(pid, comm, state, fields);
    ScanFieldsRoundTrip(fields, 12, "\n");
  }

  lemma {:induction false} PidStatOfValues(line: seq<char>, status: Option<seq<char>>, vs: seq<nat>)
    requires Truncate(line, 4095) == line && StatValues(line, 3) == Some(vs)
    ensures ReadProcPidStat(Some(line), status) == Some(PidSample(vs[10], vs[11], VmRssKb(status)))
  {
  }

  lemma {:induction false} StatValuesOfScan(line: seq<char>, rp: nat, skip: nat, vs: seq<nat>)
    requires '\0' !in line
    requires LastIndexOf(line, ')') == Some(rp) && rp + skip <= |line|
    requires ScanULongLongs(line[rp + skip..], 12) == vs && |vs| == 12
    ensures StatValues(line, skip) == Some(vs)
  {
    NulFreeSuffix(line, rp + skip);
  }

  // ---------- sampling several processes ----------

  /** The /proc files at one moment: /proc/stat, and the stat and status
      files of the processes that exist. */
  datatype Proc = Proc(stat: Option<seq<char>>, pidStat: map<int, seq<char>>, pidStatus: map<int, seq<char>>)

  /** Which read_proc_pid_stat the sampler calls: the one as written, which
      starts its scan at the state letter, or the corrected one. */
  datatype Parse = AsWritten | Corrected

  /** read_proc_pid_stat for one pid at that moment: None when the stat
      file is missing or does not parse. */
  function ReadPid(parse: Parse, proc: Proc, pid: int): (r: Option<PidSample>)
    ensures pid !in proc.pidStat ==> r.None?
    ensures r.Some? ==> r.value.rssKb == VmRssKb(if pid in proc.pidStatus then Some(proc.pidStatus[pid]) else None)
  {
    var stat := if pid in proc.pidStat then Some(proc.pidStat[pid]) else None;
    var status := if pid in proc.pidStatus then Some(proc.pidStatus[pid]) else None;
    match parse
    case AsWritten => ReadProcPidStatAsWritten(stat, status)
    case Corrected => ReadProcPidStat(stat, status)
  }

  /** The per-pid reader of one moment, as a value the loops can be given. */
  function Reader(parse: Parse, proc: Proc): int -> Option<PidSample>
  {
    pid => ReadPid(parse, proc, pid)
  }

  /** utime and stime of one process as cpu_percent_for_pids stores them:
      zero when the pid is not positive or the read fails. */
  function TicksOf(pid: int, sample: Option<PidSample>): (t: (U64, U64))
    ensures pid <= 0 || sample.None? ==> t == (0, 0)
  {
    if pid > 0 && sample.Some? then (sample.value.utime, sample.value.stime) else (0, 0)
  }

  /** The unsigned sum of (u1 - u0) + (s1 - s0) over the processes, with
      read0 and read1 the two samples. */
  function BusyTicks(pids: seq<int>, read0: int -> Option<PidSample>, read1: int -> Option<PidSample>): (sum: U64)
    // processes whose two samples agree add nothing
    ensures (forall k :: 0 <= k < |pids| ==> read0(pids[k]) == read1(pids[k])) ==> sum == 0
    decreases |pids|
  {
    if pids == [] then 0
    else
      var pid := pids[|pids| - 1];
      var before := TicksOf(pid, read0(pid));
      var after := TicksOf(pid, read1(pid));
      AddU64(BusyTicks(pids[..|pids| - 1], read0, read1), AddU64(SubU64(after.0, before.0), SubU64(after.1, before.1)))
  }

  /** cpu_percent_for_pids: busy ticks of the processes as a percentage of
      all ticks between the two samples; 0 when a /proc/stat read fails or
      no tick passed. prior0 and prior1 are what the counters held before.
      With parse == AsWritten this is the program's figure. */
  function CpuPercent(parse: Parse, pids: seq<int>, p0: Proc, prior0: seq<nat>, p1: Proc, prior1: seq<nat>): (pct: real)
    requires |prior0| == 7 && forall k :: 0 <= k < 7 ==> IsU64(prior0[k])
    requires |prior1| == 7 && forall k :: 0 <= k < 7 ==> IsU64(prior1[k])
    ensures pct >= 0.0
    ensures BusyTicks(pids, Reader(parse, p0), Reader(parse, p1)) == 0 ==> pct == 0.0
  {
    CpuShare(ReadProcStatTotal(p0.stat, prior0), ReadProcStatTotal(p1.stat, prior1),
             BusyTicks(pids, Reader(parse, p0), Reader(parse, p1)))
  }

  /** The figure from the two /proc/stat reads and the busy ticks. */
  function CpuShare(r0: StatRead, r1: StatRead, busy: nat): (pct: real)
    requires |r0.times| == 7 && forall k :: 0 <= k < 7 ==> IsU64(r0.times[k])
    requires |r1.times| == 7 && forall k :: 0 <= k < 7 ==> IsU64(r1.times[k])
    ensures pct >= 0.0
    ensures busy == 0 ==> pct == 0.0
    ensures r0.rc < 0 || r1.rc < 0 || Total(r0.times) == Total(r1.times) ==> pct == 0.0
  {
    if r0.rc < 0 || r1.rc < 0 then 0.0
    else
      var delta := SubU64(Total(r1.times), Total(r0.times));
      if delta == 0 then 0.0 else Percentage(busy, delta)
  }

  /** 100 * part / whole in double arithmetic, taken here as exact. */
  function Percentage(part: nat, whole: nat): (pct: real)
    requires whole > 0
    ensures pct >= 0.0
    ensures part == 0 ==> pct == 0.0
    ensures part <= whole ==> pct <= 100.0
  {
    PercentageBounds(part, whole);
    100.0 * (part as real) / (whole as real)
  }

  lemma {:induction false} PercentageBounds(part: nat, whole: nat)
    requires whole > 0
    ensures 0.0 <= 100.0 * (part as real) / (whole as real)
    ensures part <= whole ==> 100.0 * (part as real) / (whole as real) <= 100.0
  {
    var q := (part as real) / (whole as real);
    assert q * (whole as real) == part as real;
    assert 100.0 * (part as real) / (whole as real) == 100.0 * q;
  }

  /** The busy ticks of a single process are its own difference. */
  lemma {:induction false} OneProcessBusy(pid: int, read0: int -> Option<PidSample>, read1: int -> Option<PidSample>)
    ensures var before := TicksOf(pid, read0(pid)); var after := TicksOf(pid, read1(pid));
      BusyTicks([pid], read0, read1) == AddU64(SubU64(after.0, before.0), SubU64(after.1, before.1))
  {
    assert [pid][..0] == [];
  }

  /** One process whose utime and stime grew by 15 ticks while the total
      grew by 100 is at 15 per cent. */
  lemma {:induction false} FifteenOfHundred(pid: int, read0: int -> Option<PidSample>, read1: int -> Option<PidSample>,
                                           t0: seq<nat>, t1: seq<nat>)
    requires |t0| == 7 && forall k :: 0 <= k < 7 ==> IsU64(t0[k])
    requires |t1| == 7 && forall k :: 0 <= k < 7 ==> IsU64(t1[k])
    requires Total(t0) == 1000 && Total(t1) == 1100
    requires TicksOf(pid, read0(pid)) == (20, 5) && TicksOf(pid, read1(pid)) == (30, 10)
    ensures CpuShare(StatRead(0, t0), StatRead(0, t1), BusyTicks([pid], read0, read1)) == 15.0
  {
    OneProcessBusy(pid, read0, read1);
    assert Percentage(15, 100) == 15.0;
  }

  /** The deltas are unsigned: a process whose second read fails after a
      first that succeeded contributes 2^64 minus its ticks, not zero. */
  lemma {:induction false} FailedSecondReadWraps(pid: int, read0: int -> Option<PidSample>, read1: int -> Option<PidSample>)
    requires pid > 0 && read0(pid).Some? && read1(pid).None?
    requires var u := read0(pid).value; 0 < u.utime + u.stime < U64Modulus
    ensures var u := read0(pid).value;
      BusyTicks([pid], read0, read1) == U64Modulus - (u.utime + u.stime)
  {
    OneProcessBusy(pid, read0, read1);
  }

  /** Counter wrap-around is harmless: however the counter wrapped while
      e ticks passed, the unsigned difference is e. */
  lemma {:induction false} ElapsedSurvivesWrap(t0: nat, e: nat)
    requires IsU64(t0) && IsU64(e)
    ensures SubU64(AddU64(t0, e), t0) == e
  {
  }

  /** cpu_percent_for_pids with the counters sampled in place into its four
      16-element arrays. */
  method CpuPercentForPids(parse: Parse, pids: array<int>, npids: int, p0: Proc, prior0: seq<nat>, p1: Proc, prior1: seq<nat>)
    returns (pct: real)
    requires |prior0| == 7 && forall k :: 0 <= k < 7 ==> IsU64(prior0[k])
    requires |prior1| == 7 && forall k :: 0 <= k < 7 ==> IsU64(prior1[k])
    requires npids <= 16 && npids <= pids.Length
    ensures pct == CpuPercent(parse, pids[..if npids < 0 then 0 else npids], p0, prior0, p1, prior1)
  {
    var n := if npids < 0 then 0 else npids;
    var read0 := Reader(parse, p0);
    var read1 := Reader(parse, p1);
    var u0 := Zeros(16);
    var s0 := Zeros(16);
    var u1 := Zeros(16);
    var s1 := Zeros(16);
    var t0 := ReadProcStatTotal(p0.stat, prior0);
    if t0.rc < 0 {
      return 0.0;
    }
    SampleAll(pids, n, read0, u0, s0);
    var t1 := ReadProcStatTotal(p1.stat, prior1);
    if t1.rc < 0 {
      return 0.0;
    }
    SampleAll(pids, n, read1, u1, s1);
    var sum := SumBusy(pids, n, u0, s0, u1, s1, read0, read1);
    var delta := SubU64(Total(t1.times), Total(t0.times));
    if delta == 0 {
      return 0.0;
    }
    pct := Percentage(sum, delta);
  }

  /** The summing loop over the sampled counters. */
  method SumBusy(pids: array<int>, n: nat, u0: array<U64>, s0: array<U64>, u1: array<U64>, s1: array<U64>,
                 read0: int -> Option<PidSample>, read1: int -> Option<PidSample>) returns (sum: U64)
    requires n <= pids.Length && n <= u0.Length && n <= s0.Length && n <= u1.Length && n <= s1.Length
    requires forall k :: 0 <= k < n ==> (u0[k], s0[k]) == TicksOf(pids[k], read0(pids[k]))
    requires forall k :: 0 <= k < n ==> (u1[k], s1[k]) == TicksOf(pids[k], read1(pids[k]))
    ensures sum == BusyTicks(pids[..n], read0, read1)
  {
    sum := 0;
    var i := 0;
    while i < n
      invariant 0 <= i <= n
      invariant sum == BusyTicks(pids[..i], read0, read1)
    {
      assert pids[..i + 1][..i] == pids[..i];
      sum := AddU64(sum, AddU64(SubU64(u1[i], u0[i]), SubU64(s1[i], s0[i])));
      i := i + 1;
    }
  }

  /** A zero-initialised counter array, as "= {0}" gives. */
  method Zeros(n: nat) returns (a: array<U64>)
    ensures fresh(a) && a.Length == n
    ensures forall k :: 0 <= k < n ==> a[k] == 0
  {
    a := new U64[n];
    var i := 0;
    while i < n
      invariant 0 <= i <= n
      invariant forall k :: 0 <= k < i ==> a[k] == 0
    {
      a[i] := 0;
      i := i + 1;
    }
  }

  /** One sampling pass: the ticks of each positive pid that can be read. */
  method SampleAll(pids: array<int>, n: nat, read: int -> Option<PidSample>, u: array<U64>, s: array<U64>)
    requires n <= pids.Length && n <= u.Length == s.Length
    requires u != s
    requires forall k :: 0 <= k < u.Length ==> u[k] == 0
    requires forall k :: 0 <= k < s.Length ==> s[k] == 0
    modifies u, s
    ensures forall k :: 0 <= k < n ==> (u[k], s[k]) == TicksOf(pids[k], read(pids[k]))
  {
    var i := 0;
    while i < n
      invariant 0 <= i <= n
      invariant forall k :: 0 <= k < i ==> (u[k], s[k]) == TicksOf(pids[k], read(pids[k]))
      invariant forall k :: i <= k < u.Length ==> u[k] == 0
      invariant forall k :: i <= k < s.Length ==> s[k] == 0
    {
      if pids[i] > 0 {
        var sample := read(pids[i]);
        if sample.Some? {
          u[i] := sample.value.utime;
          s[i] := sample.value.stime;
        }
      }
      i := i + 1;
    }
  }

  /** The contribution of one process to the memory figure: its VmRSS when
      the pid is positive and the read succeeds, else nothing. */
  function RssOf(pid: int, sample: Option<PidSample>): (kb: int)
    ensures pid <= 0 || sample.None? ==> kb == 0
  {
    if pid > 0 && sample.Some? then sample.value.rssKb else 0
  }

  /** The summed VmRSS of the processes that can be read. */
  function RssKb(pids: seq<int>, read: int -> Option<PidSample>): (kb: int)
    // processes that cannot be read add nothing
    ensures (forall k :: 0 <= k < |pids| ==> pids[k] <= 0 || read(pids[k]).None?) ==> kb == 0
    ensures (forall k :: 0 <= k < |pids| ==> read(pids[k]).Some? ==> read(pids[k]).value.rssKb >= 0) ==> kb >= 0
    decreases |pids|
  {
    if pids == [] then 0
    else RssKb(pids[..|pids| - 1], read) + RssOf(pids[|pids| - 1], read(pids[|pids| - 1]))
  }

  /** rss_mb_for_pids: the summed kB divided by 1024. With parse ==
      AsWritten this is the program's figure. */
  method RssMbForPids(parse: Parse, pids: array<int>, npids: int, proc: Proc) returns (mb: real)
    requires npids <= pids.Length
    ensures mb == (RssKb(pids[..if npids < 0 then 0 else npids], Reader(parse, proc)) as real) / 1024.0
  {
    var n := if npids < 0 then 0 else npids;
    var read := Reader(parse, proc);
    var sumKb := 0;
    var i := 0;
    while i < n
      invariant 0 <= i <= n
      invariant sumKb == RssKb(pids[..i], read)
    {
      assert pids[..i + 1][..i] == pids[..i];
      if pids[i] > 0 {
        var sample := read(pids[i]);
        if sample.Some? {
          sumKb := sumKb + sample.value.rssKb;
        }
      }
      i := i + 1;
    }
    mb := (sumKb as real) / 1024.0;
  }

  /** The memory figure for the camera and preview processes is the sum
      of their contributions, whatever order they are listed in. */
  lemma {:induction false} RssOfTwo(cam: int, prev: int, read: int -> Option<PidSample>)
    ensures RssKb([cam, prev], read) == RssOf(cam, read(cam)) + RssOf(prev, read(prev)) == RssKb([prev, cam], read)
  {
    assert [cam, prev][..1] == [cam] && [prev, cam][..1] == [prev];
    assert RssKb([cam, prev], read) == RssKb([cam], read) + RssOf(prev, read(prev));
    assert RssKb([prev, cam], read) == RssKb([prev], read) + RssOf(cam, read(cam));
    assert [cam][..0] == [] && [prev][..0] == [];
    assert RssKb([cam], read) == RssKb([], read) + RssOf(cam, read(cam));
    assert RssKb([prev], read) == RssKb([], read) + RssOf(prev, read(prev));
  }

  // ---------- sampling with the parse as written ----------

  /** Every stat file present is one the kernel could have written. */
  ghost predicate KernelFormatted(proc: Proc)
  {
    forall pid :: pid in proc.pidStat ==>
      exists p: nat, comm: seq<char>, state: char, fields: seq<int> ::
        && '\0' !in comm && IsLetter(state) && |StatLine(p, comm, state, fields)| <= 4095
        && proc.pidStat[pid] == StatLine(p, comm, state, fields)
  }

  /** As written, no pid of a kernel-formatted /proc can be read. */
  lemma {:induction false} AsWrittenReadsNoPid(proc: Proc, pid: int)
    requires KernelFormatted(proc)
    ensures Reader(AsWritten, proc)(pid).None?
  {
    if pid in proc.pidStat {
      var p: nat, comm: seq<char>, state: char, fields: seq<int> :|
        && '\0' !in comm && IsLetter(state) && |StatLine(p, comm, state, fields)| <= 4095
        && proc.pidStat[pid] == StatLine(p, comm, state, fields);
      AsWrittenRejectsEveryStatLine(p, comm, state, fields,
                                    if pid in proc.pidStatus then Some(proc.pidStatus[pid]) else None);
    }
  }

  /** Readers that fail for every pid count no busy ticks and no memory. */
  lemma {:induction false} NothingReadNothingCounted(pids: seq<int>, read0: int -> Option<PidSample>,
                                                     read1: int -> Option<PidSample>)
    requires forall pid :: read0(pid).None? && read1(pid).None?
    ensures BusyTicks(pids, read0, read1) == 0 && RssKb(pids, read0) == 0
    decreases |pids|
  {
    if pids != [] {
      NothingReadNothingCounted(pids[..|pids| - 1], read0, read1);
    }
  }

  /** As written, the stats file always shows 0 CPU and 0 MB for the camera
      and preview processes: with every stat file in the kernel's format,
      the CPU figure and the summed VmRSS are both 0, whatever the
      processes did between the samples. */
  lemma {:induction false} AsWrittenShowsNoLoad(pids: seq<int>, p0: Proc, prior0: seq<nat>, p1: Proc, prior1: seq<nat>)
    requires |prior0| == 7 && forall k :: 0 <= k < 7 ==> IsU64(prior0[k])
    requires |prior1| == 7 && forall k :: 0 <= k < 7 ==> IsU64(prior1[k])
    requires KernelFormatted(p0) && KernelFormatted(p1)
    ensures CpuPercent(AsWritten, pids, p0, prior0, p1, prior1) == 0.0
    ensures RssKb(pids, Reader(AsWritten, p1)) == 0
  {
    var read0 := Reader(AsWritten, p0);
    var read1 := Reader(AsWritten, p1);
    forall pid ensures read0(pid).None? && read1(pid).None? {
      AsWrittenReadsNoPid(p0, pid);
      AsWrittenReadsNoPid(p1, pid);
    }
    NothingReadNothingCounted(pids, read0, read1);
    forall pid ensures read1(pid).None? && read0(pid).None? {
      AsWrittenReadsNoPid(p0, pid);
      AsWrittenReadsNoPid(p1, pid);
    }
    NothingReadNothingCounted(pids, read1, read0);
  }

  /** Corrected, the busy ticks of a process are the growth of the utime
      and stime fields between its two stat files. */
  lemma {:induction false} CorrectedCountsLoad(pid: nat, comm: seq<char>, p0: Proc, state0: char, f0: seq<int>,
                                              p1: Proc, state1: char, f1: seq<int>)
    requires pid > 0 && '\0' !in comm && IsLetter(state0) && IsLetter(state1)
    requires |f0| >= 12 && forall k :: 0 <= k < |f0| ==> FitsULongLong(f0[k])
    requires |f1| >= 12 && forall k :: 0 <= k < |f1| ==> FitsULongLong(f1[k])
    requires IsU64(f0[10]) && IsU64(f0[11]) && IsU64(f1[10]) && IsU64(f1[11])
    requires pid in p0.pidStat && p0.pidStat[pid] == StatLine(pid, comm, state0, f0)
    requires pid in p1.pidStat && p1.pidStat[pid] == StatLine(pid, comm, state1, f1)
    requires |StatLine(pid, comm, state0, f0)| <= 4095 && |StatLine(pid, comm, state1, f1)| <= 4095
    ensures BusyTicks([pid], Reader(Corrected, p0), Reader(Corrected, p1))
         == AddU64(SubU64(f1[10], f0[10]), SubU64(f1[11], f0[11]))
  {
    ReadsUtimeAndStime(pid, comm, state0, f0, if pid in p0.pidStatus then Some(p0.pidStatus[pid]) else None);
    ReadsUtimeAndStime(pid, comm, state1, f1, if pid in p1.pidStatus then Some(p1.pidStatus[pid]) else None);
    OneProcessBusy(pid, Reader(Corrected, p0), Reader(Corrected, p1));
  }
}
