/** Bytes, character classes and numerals of the ACTS text format (parser_utils).

    A text is a `string` whose characters stand for bytes: the bytes of a file
    are the characters below 256. Larger characters are no bytes of UTF-8 and
    start no code point, so every theorem here covers every byte string. */
module Text {

  datatype Option<+T> = None | Some(value: T)

  predicate IsDigit(c: char) { '0' <= c <= '9' }

  predicate IsIdentifierStart(c: char) { 'a' <= c <= 'z' || 'A' <= c <= 'Z' || c == '_' }

  predicate IsIdentifierChar(c: char) { IsIdentifierStart(c) || IsDigit(c) }

  predicate IsIdentifier(s: string) {
    |s| > 0 && IsIdentifierStart(s[0]) && forall k | 0 <= k < |s| :: IsIdentifierChar(s[k])
  }

  datatype CharClass = Blank | White | Digit | Sign | IdentifierStart | IdentifierChar

  predicate InClass(cls: CharClass, c: char) {
    match cls
    case Blank => c == ' ' || c == '\t'
    case White => c == ' ' || c == '\t' || c == '\r' || c == '\n'
    case Digit => IsDigit(c)
    case Sign => c == '+' || c == '-'
    case IdentifierStart => IsIdentifierStart(c)
    case IdentifierChar => IsIdentifierChar(c)
  }

  /** The ranges of a class as the comments of the grammar spell them. */
  function Ranges(cls: CharClass): seq<(char, char)> {
    match cls
    case Blank => [(' ', ' '), ('\t', '\t')]
    case White => [(' ', ' '), ('\t', '\t'), ('\r', '\r'), ('\n', '\n')]
    case Digit => [('0', '9')]
    case Sign => [('+', '+'), ('-', '-')]
    case IdentifierStart => [('a', 'z'), ('A', 'Z'), ('_', '_')]
    case IdentifierChar => [('a', 'z'), ('A', 'Z'), ('0', '9'), ('_', '_')]
  }

  predicate InRanges(rs: seq<(char, char)>, c: char) { exists k | 0 <= k < |rs| :: rs[k].0 <= c <= rs[k].1 }

  /** The tests of characters accept exactly these ranges. */
  lemma ClassMembers(cls: CharClass, c: char)
    ensures InClass(cls, c) <==> InRanges(Ranges(cls), c)
  {
    var rs := Ranges(cls);
    if InClass(cls, c) {
      assert || (rs[0].0 <= c <= rs[0].1) || (|rs| > 1 && rs[1].0 <= c <= rs[1].1)
             || (|rs| > 2 && rs[2].0 <= c <= rs[2].1) || (|rs| > 3 && rs[3].0 <= c <= rs[3].1);
    }
  }

  function ToLower(c: char): char {
    if 'A' <= c <= 'Z' then (c as int - 'A' as int + 'a' as int) as char else c
  }

  predicate IEquals(a: string, b: string) {
    |a| == |b| && forall k | 0 <= k < |a| :: ToLower(a[k]) == ToLower(b[k])
  }

  /** Characters are the same up to their case when they are equal or the two forms of one letter. */
  lemma SameLetter(c: char, d: char)
    ensures ToLower(c) == ToLower(d) <==>
            c == d || ('A' <= c <= 'Z' && d as int == c as int + 32) || ('A' <= d <= 'Z' && c as int == d as int + 32)
  {}

  /** Whether `t` stands at position `i` of `s`. */
  predicate At(s: string, i: nat, t: string) {
    i + |t| <= |s| && forall k | 0 <= k < |t| :: s[i + k] == t[k]
  }

  /** Whether `t` stands at position `i` of `s` when the case of letters is ignored. */
  predicate AtI(s: string, i: nat, t: string) {
    i + |t| <= |s| && forall k | 0 <= k < |t| :: ToLower(s[i + k]) == ToLower(t[k])
  }

  lemma AtSlice(s: string, i: nat, t: string)
    ensures At(s, i, t) <==> i + |t| <= |s| && s[i..i + |t|] == t
    ensures AtI(s, i, t) <==> i + |t| <= |s| && IEquals(s[i..i + |t|], t)
  {
    if i + |t| <= |s| {
      var u := s[i..i + |t|];
      assert forall k | 0 <= k < |t| :: u[k] == s[i + k];
    }
  }

  lemma AtSplit(s: string, i: nat, a: string, b: string)
    ensures At(s, i, a + b) <==> At(s, i, a) && At(s, i + |a|, b)
  {
    var c := a + b;
    if At(s, i, c) {
      assert forall k | 0 <= k < |a| :: s[i + k] == c[k] == a[k];
      forall k | 0 <= k < |b| ensures s[i + |a| + k] == b[k] {
        assert s[i + (|a| + k)] == c[|a| + k];
      }
    }
    if At(s, i, a) && At(s, i + |a|, b) {
      forall k | 0 <= k < |c| ensures s[i + k] == c[k] {
        if k >= |a| { assert s[(i + |a|) + (k - |a|)] == b[k - |a|]; }
      }
    }
  }

  /** The bytes of the UTF-8 code point at position `i`, or 0 when no complete one starts there. */
  function CodepointLength(s: string, i: nat): (len: nat)
    requires i <= |s|
    ensures i + len <= |s|
  {
    if i == |s| then 0
    else
      var b := s[i] as int;
      if b < 0x80 then 1
      else if 0xC0 <= b < 0xE0 && i + 2 <= |s| then 2
      else if 0xE0 <= b < 0xF0 && i + 3 <= |s| then 3
      else if 0xF0 <= b < 0xF8 && i + 4 <= |s| then 4
      else 0
  }

  /** The leading bits of the first byte tell the length: 0, 110, 1110 and 11110 start one to four bytes. */
  lemma LeadingBits(s: string, i: nat)
    requires i < |s|
    ensures var b := s[i] as int;
            && (CodepointLength(s, i) == 1 <==> b / 128 == 0)
            && (CodepointLength(s, i) == 2 <==> b / 32 == 6 && i + 2 <= |s|)
            && (CodepointLength(s, i) == 3 <==> b / 16 == 14 && i + 3 <= |s|)
            && (CodepointLength(s, i) == 4 <==> b / 8 == 30 && i + 4 <= |s|)
            && CodepointLength(s, i) <= 4
  {}

  /** Where the longest run of code points that start with no character of `stop` ends. */
  function SkipText(stop: string, s: string, i: nat): (j: nat)
    requires i <= |s|
    ensures i <= j <= |s|
    ensures j < |s| ==> s[j] in stop || CodepointLength(s, j) == 0
    decreases |s| - i
  {
    if i == |s| || s[i] in stop || CodepointLength(s, i) == 0 then i
    else SkipText(stop, s, i + CodepointLength(s, i))
  }

  /** `v` is made of complete code points, none of them starting with a character of `stop`. */
  predicate Covers(stop: string, v: string) { SkipText(stop, v, 0) == |v| }

  /** Such a text is skipped as a whole wherever it stands before a stop character or the end. */
  lemma SkipCovered(stop: string, s: string, i: nat, v: string)
    requires At(s, i, v) && Covers(stop, v)
    requires i + |v| == |s| || s[i + |v|] in stop
    ensures SkipText(stop, s, i) == i + |v|
  {
    SkipCoveredFrom(stop, s, i, v, 0);
  }

  lemma {:induction false} SkipCoveredFrom(stop: string, s: string, i: nat, v: string, k: nat)
    requires At(s, i, v) && k <= |v| && SkipText(stop, v, k) == |v|
    requires i + |v| == |s| || s[i + |v|] in stop
    ensures SkipText(stop, s, i + k) == i + |v|
    decreases |v| - k
  {
    if k < |v| {
      assert s[i + k] == v[k];
      SkipCoveredFrom(stop, s, i, v, k + CodepointLength(v, k));
    }
  }

  /** The white space that std::string_view trimming removes: ' ', '\t', '\n', '\v', '\f', '\r'. */
  predicate IsTrimmable(c: char) { c in " \t\n\U{0B}\U{0C}\r" }

  function TrimLeft(s: string): (t: string)
    ensures t == [] || !IsTrimmable(t[0])
    ensures |t| <= |s| && t == s[|s| - |t|..]
  {
    if s != [] && IsTrimmable(s[0]) then TrimLeft(s[1..]) else s
  }

  function TrimRight(s: string): (t: string)
    ensures t == [] || !IsTrimmable(t[|t| - 1])
    ensures t <= s
  {
    if s != [] && IsTrimmable(s[|s| - 1]) then TrimRight(s[..|s| - 1]) else s
  }

  function Trimmed(s: string): string { TrimRight(TrimLeft(s)) }

  predicate IsTrimmed(s: string) {
    s == [] || (!IsTrimmable(s[0]) && !IsTrimmable(s[|s| - 1]))
  }

  /** Trimming gives what lies between the first and the last character that is no white space. */
  lemma {:induction false} TrimmedBetween(s: string, a: nat, b: nat)
    requires a < b <= |s| && !IsTrimmable(s[a]) && !IsTrimmable(s[b - 1])
    requires forall k | 0 <= k < a || b <= k < |s| :: IsTrimmable(s[k])
    ensures Trimmed(s) == s[a..b]
    decreases |s|
  {
    hide IsTrimmable, Trimmed, TrimLeft, TrimRight;
    TrimmedStep(s);
    if a > 0 {
      TrimmedBetween(s[1..], a - 1, b - 1);
      assert s[1..][a - 1..b - 1] == s[a..b];
    } else {
      TrimmedEnd(s, b);
    }
  }

  lemma TrimmedStep(s: string)
    requires s != []
    ensures Trimmed(s) == if IsTrimmable(s[0]) then Trimmed(s[1..]) else TrimRight(s)
  {
    hide IsTrimmable, TrimRight;
  }

  lemma {:induction false} TrimmedEnd(s: string, b: nat)
    requires 0 < b <= |s| && !IsTrimmable(s[b - 1]) && forall k | b <= k < |s| :: IsTrimmable(s[k])
    ensures TrimRight(s) == s[..b]
    decreases |s|
  {
    hide IsTrimmable;
    if b < |s| {
      TrimmedEnd(s[..|s| - 1], b);
      assert s[..|s| - 1][..b] == s[..b];
    } else {
      assert s[..b] == s;
    }
  }

  // ---- Integers -----------------------------------------------------------

  const INT_MIN := -0x8000_0000
  const INT_MAX := 0x7FFF_FFFF

  predicate FitsInt(n: int) { INT_MIN <= n <= INT_MAX }

  predicate AllDigits(s: string) { forall k | 0 <= k < |s| :: IsDigit(s[k]) }

  function DigitsValue(s: string): nat
    requires AllDigits(s)
  {
    if s == [] then 0 else 10 * DigitsValue(s[..|s| - 1]) + (s[|s| - 1] as int - '0' as int)
  }

  /** std::from_chars on the whole of `s`: an optional '-', digits, and a value that fits. */
  function FromChars(s: string): Option<int> {
    var digits := if s != [] && s[0] == '-' then s[1..] else s;
    if digits == [] || !AllDigits(digits) then None
    else
      var n: int := if s[0] == '-' then 0 - DigitsValue(digits) else DigitsValue(digits);
      if FitsInt(n) then Some(n) else None
  }

  /** parse_int: std::from_chars after dropping a '+' sign. */
  function ParseInt(s: string): Option<int> {
    FromChars(if |s| > 1 && s[0] == '+' && s[1] != '-' then s[1..] else s)
  }

  function NatToString(n: nat): (s: string)
    ensures s != [] && AllDigits(s)
  {
    var digit := ('0' as int + n % 10) as char;
    if n < 10 then [digit] else NatToString(n / 10) + [digit]
  }

  /** How a stream and std::to_string print an int. */
  function IntToString(n: int): (s: string)
    ensures s != []
  {
    if n < 0 then "-" + NatToString(-n) else NatToString(n)
  }

  lemma {:induction false} DigitsRoundTrip(n: nat)
    ensures DigitsValue(NatToString(n)) == n
  {
    if n >= 10 {
      DigitsRoundTrip(n / 10);
      var s := NatToString(n);
      assert s[..|s| - 1] == NatToString(n / 10);
    }
  }

  lemma IntRoundTrip(n: int)
    requires FitsInt(n)
    ensures ParseInt(IntToString(n)) == Some(n)
  {
    DigitsRoundTrip(if n < 0 then -n else n);
  }

  /** A numeral with a sign: '+' has no effect and '-' negates, and what does not fit is no int. */
  lemma SignedNumerals(t: string)
    requires t != "" && AllDigits(t)
    ensures ParseInt("+" + t) == ParseInt(t)
    ensures ParseInt(t) == if DigitsValue(t) <= 0x7FFF_FFFF then Some(DigitsValue(t)) else None
    ensures ParseInt("-" + t) == if DigitsValue(t) <= 0x8000_0000 then Some(0 - DigitsValue(t)) else None
  {
    hide AllDigits, DigitsValue;
    assert t[0] != '-' && t[0] != '+' by { FirstDigit(t); }
    var plus, minus := "+" + t, "-" + t;
    assert plus[0] == '+' && plus[1] == t[0] && plus[1..] == t;
    assert minus[0] == '-' && minus[1..] == t;
  }

  lemma FirstDigit(t: string)
    requires t != "" && AllDigits(t)
    ensures IsDigit(t[0])
  {}

  /** Distinct numbers have distinct numerals. */
  lemma NatToStringInjective(m: nat, n: nat)
    requires NatToString(m) == NatToString(n)
    ensures m == n
  {
    DigitsRoundTrip(m);
    DigitsRoundTrip(n);
  }
}
