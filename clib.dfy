/** C library semantics the orchestrator and the menu rely on: NUL-terminated
    strings, strstr/strchr/strrchr, snprintf/strncpy truncation, isspace,
    strcasecmp, and the glibc integer conversions behind atoi and the scanf
    conversions %d, %ld and %llu, plus the "%d" rendering used to build
    command lines. Strings are seq<char>; one char stands for one byte. */
module CLib {

  datatype Option<T> = None | Some(value: T)

  const U64Modulus: int := 0x1_0000_0000_0000_0000
  const U64Max: int := U64Modulus - 1
  const LongMin: int := -0x8000_0000_0000_0000
  const LongMax: int := 0x7fff_ffff_ffff_ffff
  const IntMin: int := -0x8000_0000
  const IntMax: int := 0x7fff_ffff

  predicate IsInt32(n: int) { IntMin <= n <= IntMax }

  // ---------- NUL-terminated views ----------

  /** The string a NUL-terminated buffer denotes: everything before its first NUL. */
  function Terminated(buf: seq<char>): (s: seq<char>)
    ensures |s| <= |buf|
    ensures |s| < |buf| ==> buf[|s|] == '\0'
  {
    if buf == [] || buf[0] == '\0' then [] else [buf[0]] + Terminated(buf[1..])
  }

  /** A buffer without NUL denotes all of itself. */
  lemma {:induction false} NulFreeIsTerminated(buf: seq<char>)
    requires '\0' !in buf
    ensures Terminated(buf) == buf
  {
    if buf != [] {
      assert buf[0] != '\0' && '\0' !in buf[1..];
      NulFreeIsTerminated(buf[1..]);
    }
  }

  /** The string a buffer denotes holds no NUL and begins the buffer. */
  lemma {:induction false} TerminatedIsNulFreePrefix(buf: seq<char>)
    ensures Terminated(buf) <= buf && '\0' !in Terminated(buf)
  {
    if buf != [] && buf[0] != '\0' {
      TerminatedIsNulFreePrefix(buf[1..]);
    }
  }

  /** A NUL at k ends the string: nothing after it belongs to it. */
  lemma {:induction false} TerminatedBeforeNul(buf: seq<char>, k: nat)
    requires k < |buf| && buf[k] == '\0'
    ensures Terminated(buf) == Terminated(buf[..k])
  {
    if k > 0 && buf[0] != '\0' {
      assert buf[1..][..k - 1] == buf[..k][1..];
      TerminatedBeforeNul(buf[1..], k - 1);
    }
  }

  /** What snprintf(dst, n + 1, "%s", s) and strncpy followed by dst[n] = 0 leave: at most n chars of s. */
  function Truncate(s: seq<char>, n: nat): (r: seq<char>)
    ensures r <= s && |r| <= n
    ensures |s| <= n ==> r == s
    ensures |s| > n ==> |r| == n
  {
    if |s| <= n then s else s[..n]
  }

  // ---------- searching ----------

  predicate OccursAt(s: seq<char>, pat: seq<char>, k: nat)
  {
    k + |pat| <= |s| && s[k..k + |pat|] == pat
  }

  /** strstr(s + from, pat): the first occurrence of pat starting at or after from. */
  function FindFrom(s: seq<char>, pat: seq<char>, from: nat): (r: Option<nat>)
    ensures r.Some? ==> from <= r.value && OccursAt(s, pat, r.value)
    ensures forall k :: from <= k && (r.None? || k < r.value) ==> !OccursAt(s, pat, k)
    decreases |s| - from
  {
    if from + |pat| > |s| then None
    else if s[from..from + |pat|] == pat then Some(from)
    else FindFrom(s, pat, from + 1)
  }

  /** strstr(s + from, pat) != NULL */
  predicate ContainsFrom(s: seq<char>, pat: seq<char>, from: nat)
  {
    FindFrom(s, pat, from).Some?
  }

  /** strstr(s, pat) != NULL */
  predicate Contains(s: seq<char>, pat: seq<char>)
  {
    ContainsFrom(s, pat, 0)
  }

  /** Any occurrence at or after from is found by strstr. */
  lemma OccurrenceFound(s: seq<char>, pat: seq<char>, from: nat, k: nat)
    requires from <= k && OccursAt(s, pat, k)
    ensures ContainsFrom(s, pat, from)
    ensures FindFrom(s, pat, from).value <= k
  {
  }

  /** A string that contains a longer pattern contains every prefix of it. */
  lemma {:induction false} ContainsPrefixOfPattern(s: seq<char>, pat: seq<char>, pre: seq<char>)
    requires pre <= pat && Contains(s, pat)
    ensures Contains(s, pre)
  {
    var k := FindFrom(s, pat, 0).value;
    assert s[k..k + |pre|] == s[k..k + |pat|][..|pre|];
    assert OccursAt(s, pre, k);
    OccurrenceFound(s, pre, 0, k);
  }

  /** strrchr(s, c): the last position holding c. */
  function LastIndexOf(s: seq<char>, c: char): (r: Option<nat>)
    ensures r.Some? ==> r.value < |s| && s[r.value] == c
    ensures r.Some? ==> forall k :: r.value < k < |s| ==> s[k] != c
    ensures r.None? ==> c !in s
  {
    if s == [] then None
    else if s[|s| - 1] == c then Some(|s| - 1)
    else LastIndexOf(s[..|s| - 1], c)
  }

  // ---------- characters ----------

  /** isspace in the C locale. */
  predicate IsSpace(c: char)
  {
    c == ' ' || c == '\t' || c == '\n' || c == '\U{0B}' || c == '\U{0C}' || c == '\r'
  }

  predicate IsDigit(c: char) { '0' <= c <= '9' }

  /** tolower in the C locale. */
  function ToLower(c: char): char
  {
    if 'A' <= c <= 'Z' then (c as int + 32) as char else c
  }

  /** strcasecmp(a, b) == 0 */
  predicate EqualsIgnoreCase(a: seq<char>, b: seq<char>)
    ensures a == b ==> EqualsIgnoreCase(a, b)
    ensures EqualsIgnoreCase(a, b) ==> |a| == |b|
  {
    |a| == |b| && forall i :: 0 <= i < |a| ==> ToLower(a[i]) == ToLower(b[i])
  }

  /** What the scanf directives skip before a conversion: leading white space. */
  function SkipSpace(s: seq<char>): (r: seq<char>)
    ensures |r| <= |s|
    ensures r != [] ==> !IsSpace(r[0])
  {
    if s != [] && IsSpace(s[0]) then SkipSpace(s[1..]) else s
  }

  /** What SkipSpace leaves is the tail of its argument. */
  lemma {:induction false} SkipSpaceIsSuffix(s: seq<char>)
    ensures SkipSpace(s) == s[|s| - |SkipSpace(s)|..]
  {
    if s != [] && IsSpace(s[0]) {
      SkipSpaceIsSuffix(s[1..]);
    }
  }

  // ---------- integer conversions ----------

  /** The longest run of decimal digits at the front of s. */
  function DigitRun(s: seq<char>): (d: seq<char>)
    ensures |d| <= |s|
    ensures forall k :: 0 <= k < |d| ==> IsDigit(d[k])
  {
    if s != [] && IsDigit(s[0]) then [s[0]] + DigitRun(s[1..]) else []
  }

  function DigitValue(c: char): nat
    requires IsDigit(c)
  {
    c as int - '0' as int
  }

  /** The number a run of decimal digits spells, most significant first. */
  function DigitsValue(d: seq<char>): nat
    requires forall k :: 0 <= k < |d| ==> IsDigit(d[k])
  {
    if d == [] then 0 else 10 * DigitsValue(d[..|d| - 1]) + DigitValue(d[|d| - 1])
  }

  /** A numeral as strtol and the scanf integer conversions read it: white space,
      an optional sign, then at least one decimal digit; rest is what follows. */
  datatype Numeral = Numeral(negative: bool, magnitude: nat, rest: seq<char>)

  function ScanNumeral(s: seq<char>): (r: Option<Numeral>)
    ensures r.Some? ==> |r.value.rest| < |s|
  {
    var t := SkipSpace(s);
    var r := SignedNumeral(t);
    r
  }

  /** The numeral at the very front of t, after the white space. */
  function SignedNumeral(t: seq<char>): (r: Option<Numeral>)
    ensures r.Some? ==> |r.value.rest| < |t|
  {
    var negative := t != [] && t[0] == '-';
    var u := if t != [] && (t[0] == '-' || t[0] == '+') then t[1..] else t;
    var d := DigitRun(u);
    if d == [] then None
    else
      Some(Numeral(negative, DigitsValue(d), u[|d|..]))
  }

  /** strtol: the signed value, saturated to the range of a 64-bit long. */
  function StrToLong(n: Numeral): (v: int)
    ensures LongMin <= v <= LongMax
    ensures var m: int := n.magnitude; var x := if n.negative then -m else m;
      && (LongMin <= x <= LongMax ==> v == x)
      && (x > LongMax ==> v == LongMax)
      && (x < LongMin ==> v == LongMin)
  {
    var m: int := n.magnitude;
    var x := if n.negative then -m else m;
    if x < LongMin then LongMin else if x > LongMax then LongMax else x
  }

  /** strtoull: overflow gives ULLONG_MAX, a minus sign negates modulo 2^64. */
  function StrToULongLong(n: Numeral): (v: nat)
    ensures v <= U64Max
    ensures !n.negative && n.magnitude <= U64Max ==> v == n.magnitude
    ensures n.negative && n.magnitude <= U64Max ==> (v + n.magnitude) % U64Modulus == 0
    ensures n.magnitude > U64Max ==> v == U64Max
  {
    if n.magnitude > U64Max then U64Max
    else if n.negative && n.magnitude > 0 then U64Modulus - n.magnitude
    else n.magnitude
  }

  /** A value whose "%d" rendering %llu converts without saturating. */
  predicate FitsULongLong(v: int) { -U64Max <= v <= U64Max }

  /** The unsigned long long that %llu stores for the rendering of v: v
      itself when it is not negative, otherwise v modulo 2^64. */
  function ULongLongOf(v: int): (w: nat)
    requires FitsULongLong(v)
    ensures w <= U64Max
    ensures v >= 0 ==> w == v
    ensures (w - v) % U64Modulus == 0
  {
    if v >= 0 then v else v + U64Modulus
  }

  /** The (int) conversion gcc applies to a long: keep the low 32 bits, two's complement. */
  function WrapInt32(x: int): (v: int)
    ensures IsInt32(v)
    ensures IsInt32(x) ==> v == x
  {
    (x - IntMin) % 0x1_0000_0000 + IntMin
  }

  /** sscanf "%d": glibc converts with strtol and stores the (int) of the long. */
  function ScanInt(s: seq<char>): (r: Option<(int, seq<char>)>)
    ensures r.Some? ==> IsInt32(r.value.0) && |r.value.1| < |s|
  {
    match ScanNumeral(s)
    case None => None
    case Some(n) => Some((WrapInt32(StrToLong(n)), n.rest))
  }

  /** sscanf "%ld" */
  function ScanLong(s: seq<char>): (r: Option<(int, seq<char>)>)
    ensures r.Some? ==> LongMin <= r.value.0 <= LongMax
  {
    match ScanNumeral(s)
    case None => None
    case Some(n) => Some((StrToLong(n), n.rest))
  }

  /** sscanf "%llu" */
  function ScanULongLong(s: seq<char>): (r: Option<(nat, seq<char>)>)
    ensures r.Some? ==> r.value.0 <= U64Max && |r.value.1| < |s|
  {
    match ScanNumeral(s)
    case None => None
    case Some(n) => Some((StrToULongLong(n), n.rest))
  }

  /** atoi: glibc's (int) strtol(s, NULL, 10); no numeral gives 0. */
  function Atoi(s: seq<char>): (v: int)
    ensures IsInt32(v)
    ensures ScanNumeral(s).None? ==> v == 0
  {
    match ScanInt(s)
    case None => 0
    case Some((v, _)) => v
  }

  // ---------- rendering "%d" ----------

  function DigitChar(d: nat): (c: char)
    requires d < 10
    ensures IsDigit(c) && DigitValue(c) == d
  {
    ('0' as int + d) as char
  }

  /** The decimal digits of n, most significant first, without leading zeros. */
  function NatDigits(n: nat): (s: seq<char>)
    ensures |s| >= 1 && forall k :: 0 <= k < |s| ==> IsDigit(s[k])
  {
    if n < 10 then [DigitChar(n)] else NatDigits(n / 10) + [DigitChar(n % 10)]
  }

  /** snprintf(buf, size, "%d", n) for a buffer large enough for any int. */
  function DecimalString(n: int): (s: seq<char>)
    ensures |s| >= 1 && (s[0] == '-' || IsDigit(s[0]))
    ensures n >= 0 ==> forall k :: 0 <= k < |s| ==> IsDigit(s[k])
  {
    if n < 0 then ['-'] + NatDigits(-n) else NatDigits(n)
  }

  lemma {:induction false} NatDigitsValue(n: nat)
    ensures DigitsValue(NatDigits(n)) == n
  {
    if n >= 10 {
      var s := NatDigits(n);
      assert s[..|s| - 1] == NatDigits(n / 10);
      NatDigitsValue(n / 10);
    }
  }

  lemma {:induction false} DigitRunOfDigits(d: seq<char>, rest: seq<char>)
    requires forall k :: 0 <= k < |d| ==> IsDigit(d[k])
    requires rest == [] || !IsDigit(rest[0])
    ensures DigitRun(d + rest) == d
  {
    if d != [] {
      assert (d + rest)[1..] == d[1..] + rest;
      DigitRunOfDigits(d[1..], rest);
    }
  }

  /** Digits, then something that is not a digit: the numeral is the digits. */
  lemma {:induction false} ScanNumeralOfDigits(digits: seq<char>, rest: seq<char>)
    requires digits != [] && forall k :: 0 <= k < |digits| ==> IsDigit(digits[k])
    requires rest == [] || !IsDigit(rest[0])
    ensures ScanNumeral(digits + rest) == Some(Numeral(false, DigitsValue(digits), rest))
  {
    var u := digits + rest;
    assert u[0] == digits[0] && IsDigit(u[0]);
    assert SkipSpace(u) == u;
    var d := DigitRun(u);
    assert SignedNumeral(u) == Some(Numeral(false, DigitsValue(d), u[|d|..]));
    assert d == digits by { DigitRunOfDigits(digits, rest); }
    assert u[|digits|..] == rest;
  }

  /** A minus sign, digits, then something that is not a digit. */
  lemma {:induction false} ScanNumeralOfNegativeDigits(digits: seq<char>, rest: seq<char>)
    requires digits != [] && forall k :: 0 <= k < |digits| ==> IsDigit(digits[k])
    requires rest == [] || !IsDigit(rest[0])
    ensures ScanNumeral(['-'] + digits + rest) == Some(Numeral(true, DigitsValue(digits), rest))
  {
    var u := digits + rest;
    var s := ['-'] + digits + rest;
    assert s[0] == '-' && s[1..] == u;
    assert SkipSpace(s) == s;
    var d := DigitRun(u);
    assert SignedNumeral(s) == Some(Numeral(true, DigitsValue(d), u[|d|..]));
    assert d == digits by { DigitRunOfDigits(digits, rest); }
    assert u[|digits|..] == rest;
  }

  /** Reading back what "%d" wrote: the scanf/strtol numeral of DecimalString(n) is n. */
  lemma ScanNumeralOfDecimal(n: int, rest: seq<char>)
    requires rest == [] || !IsDigit(rest[0])
    ensures ScanNumeral(DecimalString(n) + rest)
         == Some(Numeral(n < 0, if n < 0 then -n else n, rest))
  {
    var m: nat := if n < 0 then -n else n;
    NatDigitsValue(m);
    if n < 0 {
      ScanNumeralOfNegativeDigits(NatDigits(m), rest);
    } else {
      ScanNumeralOfDigits(NatDigits(m), rest);
    }
  }

  /** %d followed by %d, atoi or strtol round-trips for every int. */
  lemma ScanIntOfDecimal(n: int, rest: seq<char>)
    requires IsInt32(n)
    requires rest == [] || !IsDigit(rest[0])
    ensures ScanInt(DecimalString(n) + rest) == Some((n, rest))
    ensures Atoi(DecimalString(n) + rest) == n
  {
    ScanNumeralOfDecimal(n, rest);
  }

  /** The conversions skip a leading white-space character. */
  lemma {:induction false} ScanNumeralAfterSpace(c: char, x: seq<char>)
    requires IsSpace(c)
    ensures ScanNumeral([c] + x) == ScanNumeral(x)
  {
    assert ([c] + x)[1..] == x;
    assert SkipSpace([c] + x) == SkipSpace(x);
  }

  /** A conversion fails at a character that is neither space, sign nor digit. */
  lemma {:induction false} ScanNumeralNeedsDigit(s: seq<char>)
    requires s != [] && !IsSpace(s[0]) && !IsDigit(s[0]) && s[0] != '-' && s[0] != '+'
    ensures ScanNumeral(s) == None
  {
    assert SkipSpace(s) == s;
    assert DigitRun(s) == [];
  }

  /** %llu reads back a "%d"-style rendering: a value that is not negative
      as itself, a negative one modulo 2^64. */
  lemma ScanULongLongOfDecimal(n: int, rest: seq<char>)
    requires FitsULongLong(n)
    requires rest == [] || !IsDigit(rest[0])
    ensures ScanULongLong(DecimalString(n) + rest) == Some((ULongLongOf(n), rest))
  {
    ScanNumeralOfDecimal(n, rest);
  }

  /** The conversions skip any run of white space. */
  lemma {:induction false} ScanNumeralAfterSpaces(pad: seq<char>, x: seq<char>)
    requires forall k :: 0 <= k < |pad| ==> IsSpace(pad[k])
    ensures ScanNumeral(pad + x) == ScanNumeral(x)
  {
    if pad != [] {
      assert pad + x == [pad[0]] + (pad[1..] + x);
      ScanNumeralAfterSpace(pad[0], pad[1..] + x);
      ScanNumeralAfterSpaces(pad[1..], x);
    } else {
      assert pad + x == x;
    }
  }

  /** %ld reads back the "%d" rendering of any long. */
  lemma ScanLongOfDecimal(n: int, rest: seq<char>)
    requires LongMin <= n <= LongMax
    requires rest == [] || !IsDigit(rest[0])
    ensures ScanLong(DecimalString(n) + rest) == Some((n, rest))
  {
    ScanNumeralOfDecimal(n, rest);
  }

  /** atoi reads back the "%d" rendering of any int. */
  lemma AtoiOfDecimal(n: int)
    requires IsInt32(n)
    ensures Atoi(DecimalString(n)) == n
  {
    ScanIntOfDecimal(n, []);
    assert DecimalString(n) + [] == DecimalString(n);
  }
}
