/** The thread that reads the preview ffmpeg's progress output and keeps the
    latest frame rate and bitrate for the stats file. Bytes arrive in chunks
    of whatever size read() returns; they are gathered into a line buffer of
    8192 bytes, and every '\r' or '\n' ends a line, which is searched for
    "fps=" and "bitrate=". */
module LogReader {
  import opened CLib

  /** sizeof(line): at most LineSize - 1 characters are kept per line. */
  const LineSize: nat := 8192
  /** The width of the %63s conversion that reads the bitrate. */
  const BitrateWidth: nat := 63

  const FpsKey := "fps="
  const BitrateKey := "bitrate="

  predicate IsLineEnd(c: char) { c == '\r' || c == '\n' }

  // ---------- the %s conversion ----------

  /** The longest run of non-space characters at the front of s. */
  function NonSpaceRun(s: seq<char>): (w: seq<char>)
    ensures w <= s
    ensures forall k :: 0 <= k < |w| ==> !IsSpace(w[k])
    ensures |w| < |s| ==> IsSpace(s[|w|])
  {
    if s == [] || IsSpace(s[0]) then [] else [s[0]] + NonSpaceRun(s[1..])
  }

  /** What sscanf(s, "%<max>s", b) leaves in b, b starting empty: white
      space is skipped, then at most max non-space characters are copied.
      When only white space remains the conversion fails and b stays empty. */
  function ScanWord(s: seq<char>, max: nat): (w: seq<char>)
    ensures |w| <= max
    ensures forall k :: 0 <= k < |w| ==> !IsSpace(w[k]) && w[k] in s
  {
    SkipSpaceIsSuffix(s);
    Truncate(NonSpaceRun(SkipSpace(s)), max)
  }

  /** The word a %s conversion reads back is the word that was written,
      whatever white space precedes it and whatever follows a space after
      it; a word longer than the width is cut to its first max characters. */
  lemma {:induction false} ScanWordReadsWord(pad: seq<char>, w: seq<char>, rest: seq<char>, max: nat)
    requires forall k :: 0 <= k < |pad| ==> IsSpace(pad[k])
    requires w != [] && forall k :: 0 <= k < |w| ==> !IsSpace(w[k])
    requires rest == [] || IsSpace(rest[0])
    ensures |w| <= max ==> ScanWord(pad + w + rest, max) == w
    ensures |w| > max ==> ScanWord(pad + w + rest, max) == w[..max]
  {
    SkipSpaceOverPad(pad, w + rest);
    assert pad + w + rest == pad + (w + rest);
    NonSpaceRunOfWord(w, rest);
  }

  lemma {:induction false} SkipSpaceOverPad(pad: seq<char>, s: seq<char>)
    requires forall k :: 0 <= k < |pad| ==> IsSpace(pad[k])
    requires s == [] || !IsSpace(s[0])
    ensures SkipSpace(pad + s) == s
    decreases |pad|
  {
    if pad != [] {
      assert (pad + s)[1..] == pad[1..] + s;
      SkipSpaceOverPad(pad[1..], s);
    } else {
      assert pad + s == s;
    }
  }

  lemma {:induction false} NonSpaceRunOfWord(w: seq<char>, rest: seq<char>)
    requires forall k :: 0 <= k < |w| ==> !IsSpace(w[k])
    requires rest == [] || IsSpace(rest[0])
    ensures NonSpaceRun(w + rest) == w
    decreases |w|
  {
    if w != [] {
      assert (w + rest)[0] == w[0];
      assert (w + rest)[1..] == w[1..] + rest;
      NonSpaceRunOfWord(w[1..], rest);
    } else {
      assert w + rest == rest;
    }
  }

  // ---------- the reader's state as values ----------

  /** What the reader publishes. The frame rate is kept as the text that
      follows "fps=", the text the %lf conversion reads its number from;
      None is the initial 0.0. The bitrate is the word after "bitrate=". */
  datatype Readings = Readings(fpsText: Option<seq<char>>, bitrate: seq<char>)

  /** The zero-initialised overlay state main creates. */
  const NoReadings := Readings(None, "")

  /** The partial line gathered so far and the readings published so far. */
  datatype Reader = Reader(line: seq<char>, readings: Readings)

  const Fresh := Reader([], NoReadings)

  /** A "fps=" in the text replaces the frame-rate reading with what
      follows the first one. */
  function WithFps(text: seq<char>, o: Readings): (o': Readings)
    ensures o'.bitrate == o.bitrate
    ensures !Contains(text, FpsKey) ==> o'.fpsText == o.fpsText
    ensures Contains(text, FpsKey) ==>
      (o'.fpsText.Some? && exists i: nat :: && OccursAt(text, FpsKey, i)
                                            && (forall j: nat :: j < i ==> !OccursAt(text, FpsKey, j))
                                            && o'.fpsText.value == text[i + |FpsKey|..])
  {
    match FindFrom(text, FpsKey, 0)
    case Some(i) => o.(fpsText := Some(text[i + |FpsKey|..]))
    case None => o
  }

  /** A "bitrate=" in the text replaces the bitrate reading with the word
      after it, at most 63 characters. */
  function WithBitrate(text: seq<char>, o: Readings): (o': Readings)
    ensures o'.fpsText == o.fpsText
    ensures !Contains(text, BitrateKey) ==> o'.bitrate == o.bitrate
    ensures Contains(text, BitrateKey) ==>
      |o'.bitrate| <= BitrateWidth && forall k :: 0 <= k < |o'.bitrate| ==> !IsSpace(o'.bitrate[k]) && o'.bitrate[k] in text
  {
    match FindFrom(text, BitrateKey, 0)
    case Some(j) =>
      var w := ScanWord(text[j + |BitrateKey|..], BitrateWidth);
      assert forall k :: 0 <= k < |w| ==> w[k] in text by {
        forall k | 0 <= k < |w| ensures w[k] in text {
          var m :| 0 <= m < |text[j + |BitrateKey|..]| && text[j + |BitrateKey|..][m] == w[k];
          assert text[j + |BitrateKey| + m] == w[k];
        }
      }
      o.(bitrate := w)
    case None => o
  }

  /** The end of a line: the text up to its first NUL is searched for the two
      keys, and each key found replaces its reading. */
  function EndOfLine(line: seq<char>, o: Readings): (o': Readings)
    ensures !Contains(Terminated(line), FpsKey) && !Contains(Terminated(line), BitrateKey) ==> o' == o
    ensures Contains(Terminated(line), BitrateKey) ==> |o'.bitrate| <= BitrateWidth && '\0' !in o'.bitrate
  {
    TerminatedIsNulFreePrefix(line);
    var text := Terminated(line);
    WithBitrate(text, WithFps(text, o))
  }

  /** One character of ffmpeg's output. */
  function Step(r: Reader, c: char): (r': Reader)
    ensures IsLineEnd(c) ==> r'.line == []
    ensures !IsLineEnd(c) ==> r'.readings == r.readings
    ensures !IsLineEnd(c) && |r.line| < LineSize - 1 ==> r'.line == r.line + [c]
    ensures !IsLineEnd(c) && |r.line| >= LineSize - 1 ==> r'.line == r.line
  {
    if IsLineEnd(c) then Reader([], EndOfLine(r.line, r.readings))
    else if |r.line| < LineSize - 1 then r.(line := r.line + [c])
    else r
  }

  /** The reader after a run of characters, one at a time. */
  function Feed(r: Reader, s: seq<char>): (r': Reader)
    // the readings change only at a line end
    ensures (forall k :: 0 <= k < |s| ==> !IsLineEnd(s[k])) ==> r'.readings == r.readings
    ensures s != [] && IsLineEnd(s[|s| - 1]) ==> r'.line == []
    decreases |s|
  {
    if s == [] then r else Step(Feed(r, s[..|s| - 1]), s[|s| - 1])
  }

  /** Feeding one more character of the input is one more step. */
  lemma {:induction false} FeedOneMore(r: Reader, input: seq<char>, i: nat)
    requires i < |input|
    ensures Feed(r, input[..i + 1]) == Step(Feed(r, input[..i]), input[i])
  {
    assert input[..i + 1][..i] == input[..i];
  }

  /** The line buffer never overflows: it holds at most LineSize - 1
      characters, leaving room for the terminating NUL. */
  lemma {:induction false} LineStaysInBuffer(r: Reader, s: seq<char>)
    requires |r.line| < LineSize
    ensures |Feed(r, s).line| < LineSize
    decreases |s|
  {
    if s != [] {
      LineStaysInBuffer(r, s[..|s| - 1]);
    }
  }

  /** How the output is cut into read() chunks does not matter: feeding two
      chunks one after the other is feeding their concatenation. */
  lemma {:induction false} FeedSplit(r: Reader, a: seq<char>, b: seq<char>)
    ensures Feed(Feed(r, a), b) == Feed(r, a + b)
    decreases |b|
  {
    if b == [] {
      assert a + b == a;
    } else {
      var b' := b[..|b| - 1];
      FeedSplit(r, a, b');
      assert (a + b)[..|a + b| - 1] == a + b';
      assert (a + b)[|a + b| - 1] == b[|b| - 1];
    }
  }

  /** A line longer than the buffer is cut: of a run without line ends only
      the first LineSize - 1 characters are kept, and nothing is published. */
  lemma {:induction false} LongLineIsCut(o: Readings, s: seq<char>)
    requires forall k :: 0 <= k < |s| ==> !IsLineEnd(s[k])
    ensures Feed(Reader([], o), s) == Reader(Truncate(s, LineSize - 1), o)
    decreases |s|
  {
    if s != [] {
      var s' := s[..|s| - 1];
      LongLineIsCut(o, s');
      if |s'| < LineSize - 1 {
        assert Truncate(s', LineSize - 1) + [s[|s| - 1]] == s;
      } else {
        assert Truncate(s, LineSize - 1) == s[..LineSize - 1] == s'[..LineSize - 1];
      }
    }
  }

  /** A whole line: the readings after it are those of its first
      LineSize - 1 characters, and the buffer is empty again. */
  lemma {:induction false} LinePublishes(o: Readings, s: seq<char>, end: char)
    requires forall k :: 0 <= k < |s| ==> !IsLineEnd(s[k])
    requires IsLineEnd(end)
    ensures Feed(Reader([], o), s + [end]) == Reader([], EndOfLine(Truncate(s, LineSize - 1), o))
  {
    LongLineIsCut(o, s);
    assert (s + [end])[..|s + [end]| - 1] == s;
  }

  /** strstr finds the first occurrence. */
  lemma {:induction false} FirstOccurrence(text: seq<char>, key: seq<char>, i: nat)
    requires OccursAt(text, key, i)
    requires forall k :: 0 <= k < i ==> !OccursAt(text, key, k)
    ensures FindFrom(text, key, 0) == Some(i)
  {
    OccurrenceFound(text, key, 0, i);
  }


  /** The bitrate published for a line is the word written after its first
      "bitrate=", up to the white space that follows it; a word longer than
      63 characters is cut to its first 63. */
  lemma {:induction false} BitrateReadsWord(pre: seq<char>, pad: seq<char>, w: seq<char>, rest: seq<char>, o: Readings)
    requires forall k :: 0 <= k < |pad| ==> IsSpace(pad[k])
    requires w != [] && forall k :: 0 <= k < |w| ==> !IsSpace(w[k])
    requires rest == [] || IsSpace(rest[0])
    requires '\0' !in pre + BitrateKey + pad + w + rest
    requires forall k :: 0 <= k < |pre| ==> !OccursAt(pre + BitrateKey + pad + w + rest, BitrateKey, k)
    ensures |w| <= BitrateWidth ==> EndOfLine(pre + BitrateKey + pad + w + rest, o).bitrate == w
    ensures |w| > BitrateWidth ==> EndOfLine(pre + BitrateKey + pad + w + rest, o).bitrate == w[..BitrateWidth]
  {
    var line := pre + BitrateKey + pad + w + rest;
    NulFreeIsTerminated(line);
    assert line[|pre|..|pre| + |BitrateKey|] == BitrateKey;
    FirstOccurrence(line, BitrateKey, |pre|);
    assert line[|pre| + |BitrateKey|..] == pad + w + rest;
    ScanWordReadsWord(pad, w, rest, BitrateWidth);
  }

  /** A key with only white space after it clears the bitrate: the %63s
      conversion fails and the empty buffer is published. */
  lemma {:induction false} BitrateWithoutValueClears(pre: seq<char>, pad: seq<char>, o: Readings)
    requires forall k :: 0 <= k < |pad| ==> IsSpace(pad[k])
    requires '\0' !in pre + BitrateKey + pad
    requires forall k :: 0 <= k < |pre| ==> !OccursAt(pre + BitrateKey + pad, BitrateKey, k)
    ensures EndOfLine(pre + BitrateKey + pad, o).bitrate == ""
  {
    var line := pre + BitrateKey + pad;
    NulFreeIsTerminated(line);
    assert line[|pre|..|pre| + |BitrateKey|] == BitrateKey;
    FirstOccurrence(line, BitrateKey, |pre|);
    assert line[|pre| + |BitrateKey|..] == pad;
    SkipSpaceOverPad(pad, []);
    assert pad + [] == pad;
  }

  /** What the stats file shows as the bitrate: the latest reading, or "N/A"
      while there is none. */
  function BitrateLabel(bitrate: seq<char>): (shown: seq<char>)
    ensures shown != []
    ensures Terminated(bitrate) != [] ==> shown == bitrate
  {
    if Terminated(bitrate) != [] then bitrate else "N/A"
  }

  /** Before any line with a bitrate, and after one whose bitrate is empty,
      the stats file says "N/A". */
  lemma {:induction false} LabelWithoutReading(o: Readings)
    requires Terminated(o.bitrate) == []
    ensures BitrateLabel(o.bitrate) == "N/A"
  {
  }

  // ---------- the reader thread's buffer, in place ----------

  /** The state of ffmpeg_log_reader: the line buffer and its length, and the
      two readings it shares with the stats writer. */
  class LineAccumulator {
    var line: array<char>
    var len: nat
    var latestFps: Option<seq<char>>
    var latestBitrate: seq<char>

    ghost predicate Valid()
      reads this
    {
      line.Length == LineSize && len < LineSize
    }

    /** The state as a value of the functions above. */
    ghost function State(): Reader
      reads this, line
      requires Valid()
    {
      Reader(line[..len], Readings(latestFps, latestBitrate))
    }

    constructor()
      ensures Valid() && fresh(line)
      ensures State() == Fresh
    {
      line := new char[LineSize];
      len := 0;
      latestFps := None;
      latestBitrate := "";
    }

    /** One character: a line end publishes the line and empties the buffer;
        any other character is kept while there is room for it. */
    method HandleChar(c: char)
      requires Valid()
      modifies this, line
      ensures Valid() && line == old(line)
      ensures State() == Step(old(State()), c)
    {
      if c == '\r' || c == '\n' {
        ghost var held := line[..len];
        line[len] := '\0';
        assert line[..len] == held;
        var next := EndOfLine(line[..len], Readings(latestFps, latestBitrate));
        latestFps := next.fpsText;
        latestBitrate := next.bitrate;
        len := 0;
      } else if len < LineSize - 1 {
        line[len] := c;
        len := len + 1;
      }
    }

    /** One read() that returned n: nothing happens unless n > 0; otherwise
        each of the n characters is handled in turn. */
    method HandleRead(buf: array<char>, n: int)
      requires Valid() && n <= buf.Length && buf != line
      modifies this, line
      ensures Valid() && line == old(line)
      ensures n <= 0 ==> State() == old(State())
      ensures n > 0 ==> State() == Feed(old(State()), old(buf[..n]))
    {
      if n <= 0 {
        return;
      }
      ghost var start := State();
      ghost var input := buf[..n];
      var i := 0;
      while i < n
        invariant 0 <= i <= n
        invariant Valid() && line == old(line)
        invariant buf[..n] == input
        invariant State() == Feed(start, input[..i])
      {
        FeedOneMore(start, input, i);
        HandleChar(buf[i]);
        i := i + 1;
      }
      assert input[..n] == input;
    }
  }
}
