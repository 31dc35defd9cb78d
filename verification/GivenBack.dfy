/** Exactly which models are given back when they are printed and the text is parsed again. */
module GivenBack {
  import opened Text
  import opened Acts
  import opened Rules
  import opened RoundTrip
  import opened ModelRoundTrip
  import opened Image

  // ---- Texts that end within a code point ------------------------------------------------------

  /** The bytes of the code point that a byte announces, or 0. */
  function Announced(c: char): nat {
    var b := c as int;
    if b < 0x80 then 1
    else if 0xC0 <= b < 0xE0 then 2
    else if 0xE0 <= b < 0xF0 then 3
    else if 0xF0 <= b < 0xF8 then 4
    else 0
  }

  /** How many bytes a text lacks to consist of code points none of which starts with a character of `stop`; 4 when no
      number of them helps. */
  function Missing(stop: string, v: string): nat {
    var c := SkipText(stop, v, 0);
    if c == |v| then 0
    else if v[c] !in stop && c + Announced(v[c]) > |v| then c + Announced(v[c]) - |v|
    else 4
  }

  /** A run of code points that does not stop at a stop character has it within a code point. */
  lemma {:induction false} Crossing(stop: string, s: string, i: nat, k: nat, b: nat, e: nat) returns (p: nat)
    requires i <= k <= b < e <= |s| && SkipText(stop, s, k) == e && s[b] in stop
    ensures k <= p < b && SkipText(stop, s[i..b], k - i) == p - i && s[p] !in stop
    ensures p + Announced(s[p]) > b && p + Announced(s[p]) <= e && SkipText(stop, s, p + Announced(s[p])) == e
    decreases |s| - k
  {
    var len := CodepointLength(s, k);
    assert len == Announced(s[k]);
    if k < b { assert s[i..b][k - i] == s[k]; }
    if k + len <= b {
      p := Crossing(stop, s, i, k + len, b, e);
    } else {
      p := k;
    }
  }

  lemma CrossingLacks(stop: string, s: string, i: nat, b: nat, e: nat)
    requires i <= b < e <= |s| && SkipText(stop, s, i) == e && s[b] in stop
    ensures var d := Missing(stop, s[i..b]); b + d <= e && SkipText(stop, s, b + d) == e
  {
    var p := Crossing(stop, s, i, i, b, e);
    hide SkipText;
    assert s[i..b][p - i] == s[p];
  }

  lemma {:induction false} RunOfSlice(stop: string, s: string, i: nat, k: nat, b: nat)
    requires i <= k <= b <= |s|
    ensures SkipText(stop, s, k) == SkipText(stop, s, i + SkipText(stop, s[i..b], k - i))
    decreases |s| - k
  {
    if k < b {
      assert s[i..b][k - i] == s[k];
      var len := CodepointLength(s[i..b], k - i);
      if s[k] !in stop && len > 0 { RunOfSlice(stop, s, i, k + len, b); }
    }
  }

  /** The bytes after a text that lacks some are taken for the rest of its last code point. */
  lemma Completed(stop: string, s: string, i: nat, b: nat)
    requires i <= b <= |s| && Missing(stop, s[i..b]) < 4 && b + Missing(stop, s[i..b]) <= |s|
    ensures SkipText(stop, s, i) == SkipText(stop, s, b + Missing(stop, s[i..b]))
  {
    RunOfSlice(stop, s, i, i, b);
    var c := i + SkipText(stop, s[i..b], 0);
    if c < b {
      assert s[i..b][c - i] == s[c];
      assert CodepointLength(s, c) == Announced(s[c]);
    }
  }

  // ---- One text ----------------------------------------------------------------------------------

  /** How many white bytes after a text can be taken for a part of it: all of them at the end of the input, and all but
      one in front of something else. */
  function Spare(s: string, b: nat): nat
    requires b <= |s|
  {
    var w := Whitespace(s, b);
    if w == |s| || w == b then w - b else w - b - 1
  }

  /** What follows the white space, if anything, is a part of a run of code points and no white space. */
  predicate GoesOn(stop: string, s: string, b: nat)
    requires b <= |s|
  {
    var w := Whitespace(s, b);
    w < |s| ==> s[w] !in stop && s[w] as int < 0x80 && !IsTrimmable(s[w])
  }

  lemma SliceTrimmed(s: string, i: nat, b: nat, e: nat, v: string)
    requires i <= e <= |s| && Span(s, i, b, v) && v != "" && !IsTrimmable(v[0]) && Trimmed(s[i..e]) == v
    ensures i <= b <= e && s[i..b] == v && forall k | b <= k < e :: IsTrimmable(s[k])
  {
    SliceSpan(s, i, b, v);
    SpanBounds(s, i, b, v);
    hide Span, IsTrimmable;
    var a := TrimmedIs(s, i, e);
    assert a == i;
    assert |v| == TrimEnd(s, i, e) - i;
  }

  /** A text that is read from its place again lacks no more bytes than can be taken from the white space after it. */
  lemma LacksLittle(stop: string, s: string, i: nat, b: nat, e: nat, v: string)
    requires i <= e <= |s| && Span(s, i, b, v) && v != "" && !IsTrimmable(v[0])
    requires SkipText(stop, s, i) == e && Trimmed(s[i..e]) == v
    requires b < |s| && s[b] in stop && (IsTrimmable(s[b]) ==> GoesOn(stop, s, b))
    ensures Missing(stop, v) <= Spare(s, b)
  {
    hide *;
    SliceTrimmed(s, i, b, e, v);
    if e == b {
      LacksNothing(stop, s, i, b);
    } else {
      CrossingLacks(stop, s, i, b, e);
      WithinSpare(stop, s, b, Missing(stop, v), e);
    }
  }

  lemma LacksNothing(stop: string, s: string, i: nat, b: nat)
    requires i <= b <= |s| && SkipText(stop, s, i) == b
    ensures Missing(stop, s[i..b]) == 0
  {
    SliceSkip(stop, s, i, i, b);
    hide SkipText;
  }

  lemma WithinSpare(stop: string, s: string, b: nat, d: nat, e: nat)
    requires b < e <= |s| && b + d <= e && SkipText(stop, s, b + d) == e && GoesOn(stop, s, b)
    requires forall k | b <= k < e :: IsTrimmable(s[k])
    ensures d <= Spare(s, b)
  {
    hide IsTrimmable;
    var w := Whitespace(s, b);
    assert w < |s| ==> e <= w;
    assert w < |s| && s[w] !in stop ==> SkipText(stop, s, w) != w;
  }

  // ---- Values read back ------------------------------------------------------------------------------

  /** Where a line of the parameter section ends: the next line, another section or the end of the input follows. */
  predicate LineEnds(s: string, e: nat) {
    && e < |s| && s[e] == '\n'
    && var w := Whitespace(s, e);
       w < |s| ==> s[w] == '[' || IsIdentifierStart(s[w])
  }

  lemma LineGoesOn(s: string, e: nat)
    requires LineEnds(s, e)
    ensures GoesOn(",;\n\r", s, e)
  {
    hide Whitespace;
    var w := Whitespace(s, e);
    if w < |s| { Ordinary(s[w]); }
  }

  lemma Ordinary(c: char)
    requires c == '[' || IsIdentifierStart(c)
    ensures c !in ",;\n\r" && c !in ",; \t\n\r" && !IsTrimmable(c)
  {}

  /** What an enum value may be so that it is read back, with `spare` bytes after it that it may lack. */
  predicate TextGivenBack(v: Value, spare: nat) {
    && v.EnumValue? && v.text != [] && v.text[0] !in ",; \t\n\r" && IsTrimmed(v.text)
    && Missing(",;\n\r", v.text) <= spare
  }

  /** A place where a value may end: a comma or the end of the line. */
  predicate ValueEnds(s: string, b: nat) { b < |s| && (s[b] == ',' || LineEnds(s, b)) }

  lemma EnumUnfolds(s: string, z: nat)
    requires z <= |s| && Element(EnumElement, s, z, {}).Match?
    ensures var j, r := AnyExcept(",; \t\n\r", s, z), Element(EnumElement, s, z, {});
            j.Some? && r.pos == SkipText(",;\n\r", s, j.value) && r.value == EnumValue(Trimmed(s[z..r.pos]))
  {
    hide AnyExcept, SkipText, Trimmed;
  }

  lemma StartsRun(s: string, z: nat)
    requires z <= |s| && AnyExcept(",; \t\n\r", s, z).Some?
    ensures z < |s| && s[z] !in ",; \t\n\r"
    ensures SkipText(",;\n\r", s, z) == SkipText(",;\n\r", s, AnyExcept(",; \t\n\r", s, z).value)
  {
    NotAStop(s[z]);
  }

  lemma EnumElementIs(s: string, z: nat)
    requires z <= |s| && Element(EnumElement, s, z, {}).Match?
    ensures var r := Element(EnumElement, s, z, {});
            && z < r.pos && SkipText(",;\n\r", s, z) == r.pos && r.value == EnumValue(Trimmed(s[z..r.pos]))
            && s[z] !in ",; \t\n\r"
  {
    hide *;
    EnumUnfolds(s, z);
    StartsRun(s, z);
  }

  /** An empty value is not read back. */
  lemma NotEmpty(s: string, i: nat)
    requires ValueEnds(s, i) && Element(EnumElement, s, Whitespace(s, i), {}).Match?
    ensures Element(EnumElement, s, Whitespace(s, i), {}).value != EnumValue("")
  {
    hide Trimmed, Element, IsTrimmable, SkipText, Whitespace, IsTrimmed;
    var z := Whitespace(s, i);
    EnumElementIs(s, z);
    if s[i] == ',' {
      SolidWhitespace(s, i);
      CommaStops(s, i);
    } else {
      Ordinary(s[z]);
      var e := Element(EnumElement, s, z, {}).pos;
      NothingTrimmed(s, z, e);
    }
  }

  lemma CommaStops(s: string, i: nat)
    requires i < |s| && s[i] == ','
    ensures s[i] in ",; \t\n\r" && s[i] in ",;\n\r" && !IsTrimmable(s[i])
  {
    var a, b := ",; \t\n\r", ",;\n\r";
    assert a[0] == s[i] && b[0] == s[i];
  }

  lemma BreakStops(s: string, i: nat)
    requires i < |s| && s[i] == '\n'
    ensures s[i] in ",;\n\r" && s[i] in "\n\r"
  {
    var a, b := ",;\n\r", "\n\r";
    assert a[2] == s[i] && b[0] == s[i];
  }

  lemma NothingTrimmed(s: string, z: nat, e: nat)
    requires z < e <= |s| && !IsTrimmable(s[z])
    ensures Trimmed(s[z..e]) != ""
  {
    hide *;
    var a := TrimmedIs(s, z, e);
    assert TrimEnd(s, z, e) > z;
  }

  lemma FirstIsSolid(v: string)
    requires v != "" && IsTrimmed(v)
    ensures !IsTrimmable(v[0]) && !InClass(White, v[0])
  {
    NotTrimmable(v[0]);
  }

  lemma LineStops(s: string, b: nat)
    requires ValueEnds(s, b)
    ensures b < |s| && s[b] in ",;\n\r" && (IsTrimmable(s[b]) ==> GoesOn(",;\n\r", s, b))
  {
    hide IsTrimmable, GoesOn, LineEnds;
    if s[b] == ',' {
      CommaStops(s, b);
    } else {
      LineGoesOn(s, b);
      assert s[b] == '\n' by { LineIsBreak(s, b); }
      BreakStops(s, b);
    }
  }

  lemma LineIsBreak(s: string, b: nat)
    requires LineEnds(s, b)
    ensures b < |s| && s[b] == '\n'
  {}

  lemma ValueIsGivenBack(v: string, spare: nat)
    requires v != "" && IsTrimmed(v) && v[0] !in ",;\n\r" && Missing(",;\n\r", v) <= spare
    ensures TextGivenBack(EnumValue(v), spare)
  {
    NorBlank(v);
  }

  lemma ReadBack(s: string, i: nat, b: nat, v: string)
    requires Span(s, i, b, v) && ValueEnds(s, b)
    requires Element(EnumElement, s, Whitespace(s, i), {}).Match?
    requires Element(EnumElement, s, Whitespace(s, i), {}).value == EnumValue(v)
    ensures i <= b && TextGivenBack(EnumValue(v), Spare(s, b))
  {
    hide *;
    var z := Whitespace(s, i);
    EnumElementIs(s, z);
    var e := Element(EnumElement, s, z, {}).pos;
    if v == "" {
      EmptySpan(s, i, b);
      NotEmpty(s, i);
    } else {
      SpanBounds(s, i, b, v);
      TrimmedCovers(",;\n\r", s, z, e);
      FirstIsSolid(v);
      SolidWhitespace(s, i);
      LineStops(s, b);
      LacksLittle(",;\n\r", s, i, b, e, v);
      ValueIsGivenBack(v, Spare(s, b));
    }
  }

  // ---- Parameters read back ------------------------------------------------------------------------------

  /** Only the last value of a line may lack anything. */
  predicate AllGivenBack(vs: seq<Value>, spare: nat) {
    forall k | 0 <= k < |vs| :: TextGivenBack(vs[k], if k == |vs| - 1 then spare else 0)
  }

  lemma FirstAndRest(vs: seq<Value>, spare: nat)
    requires vs != [] && TextGivenBack(vs[0], if |vs| == 1 then spare else 0) && AllGivenBack(vs[1..], spare)
    ensures AllGivenBack(vs, spare)
  {
    hide TextGivenBack;
    forall k | 0 <= k < |vs| ensures TextGivenBack(vs[k], if k == |vs| - 1 then spare else 0) {
      if k > 0 { assert vs[1..][k - 1] == vs[k]; }
    }
  }

  lemma NoneGivenBack(spare: nat)
    ensures AllGivenBack([], spare)
  {}

  lemma LacksNone(v: Value)
    ensures TextGivenBack(v, 0) <==> WellFormedValue(ENUM, v)
  {
    if v.EnumValue? {
      var c := SkipText(",;\n\r", v.text, 0);
      hide SkipText, IsTrimmed;
    }
  }

  lemma NoSpare(s: string, b: nat)
    requires b < |s| && s[b] == ','
    ensures Spare(s, b) == 0
  {}

  lemma NextOfMore(s: string, i: nat, j: nat, vs: seq<Value>)
    requires i < j <= |s| && At(s, i, ",") && Whitespace(s, i) == i && Whitespace(s, i + 1) == Whitespace(s, j)
    requires vs != [] && MoreElements(EnumElement, s, i, {}).Match? && MoreElements(EnumElement, s, i, {}).value == vs
    ensures var r := Element(EnumElement, s, Whitespace(s, j), {});
            && r.Match? && r.value == vs[0] && vs[0].EnumValue?
            && MoreElements(EnumElement, s, r.pos, {}).Match? && MoreElements(EnumElement, s, r.pos, {}).value == vs[1..]
  {
    hide *;
    NextAtComma(s, i);
    MoreUnfolds(s, i);
    EnumElementKind(s, Whitespace(s, j));
  }

  lemma NextAtComma(s: string, i: nat)
    requires i < |s| && At(s, i, ",") && Whitespace(s, i) == i
    ensures NextElement(EnumElement, s, i, {}) == Element(EnumElement, s, Whitespace(s, i + 1), {})
  {
    hide Element, At, Whitespace;
  }

  lemma MoreUnfolds(s: string, i: nat)
    requires i <= |s| && MoreElements(EnumElement, s, i, {}).Match? && MoreElements(EnumElement, s, i, {}).value != []
    ensures var r, vs := NextElement(EnumElement, s, i, {}), MoreElements(EnumElement, s, i, {}).value;
            && r.Match? && r.value == vs[0]
            && MoreElements(EnumElement, s, r.pos, {}).Match? && MoreElements(EnumElement, s, r.pos, {}).value == vs[1..]
  {
    hide NextElement;
  }

  lemma EnumElementKind(s: string, z: nat)
    requires z <= |s|
    ensures var r := Element(EnumElement, s, z, {}); r.Match? ==> r.value.EnumValue?
  {
    hide AnyExcept, SkipText, Trimmed;
  }

  lemma CutMore(s: string, i: nat, e: nat, vs: seq<Value>) returns (j: nat, k: nat)
    requires vs != [] && vs[0].EnumValue? && Span(s, i, e, PrintMoreValues(vs)) && LineEnds(s, e)
    ensures i <= j <= k <= e < |s| && Span(s, i, j, ", ") && Span(s, j, k, vs[0].text)
    ensures Span(s, k, e, PrintMoreValues(vs[1..])) && ValueEnds(s, k) && if |vs| == 1 then k == e else s[k] == ','
  {
    hide Span, Whitespace;
    j, k := Cut3(s, i, e, ", ", PrintValue(vs[0]), PrintMoreValues(vs[1..]));
    AfterValue(s, k, e, vs[1..]);
  }

  lemma AfterValue(s: string, k: nat, e: nat, vs: seq<Value>)
    requires Span(s, k, e, PrintMoreValues(vs)) && LineEnds(s, e)
    ensures k <= e && ValueEnds(s, k) && if vs == [] then k == e else s[k] == ','
  {
    hide LineEnds;
    if vs == [] {
      EmptySpan(s, k, e);
    } else {
      var j, l := Cut3(s, k, e, ", ", PrintValue(vs[0]), PrintMoreValues(vs[1..]));
      SpanBounds(s, k, j, ", ");
    }
    LineIsBreak(s, e);
  }

  /** A value that another one follows has been read up to its end. */
  lemma InnerValue(s: string, j: nat, k: nat, v: Value)
    requires v.EnumValue? && Span(s, j, k, v.text) && k < |s| && s[k] == ',' && TextGivenBack(v, Spare(s, k))
    ensures TextGivenBack(v, 0) && Whitespace(s, j) == j && Element(EnumElement, s, j, {}) == Match(k, v)
  {
    hide *;
    NoSpare(s, k);
    LacksNone(v);
    EnumIs(v);
    EnumSpan(s, j, k, v.text);
    SolidWhitespace(s, j);
  }

  lemma EnumIs(v: Value)
    requires v.EnumValue?
    ensures v == EnumValue(v.text)
  {}

  lemma {:induction false} MoreReadBack(s: string, i: nat, e: nat, vs: seq<Value>)
    requires Span(s, i, e, PrintMoreValues(vs)) && LineEnds(s, e) && i <= |s|
    requires MoreElements(EnumElement, s, i, {}).Match? && MoreElements(EnumElement, s, i, {}).value == vs
    ensures e < |s| && AllGivenBack(vs, Spare(s, e))
    decreases |vs|
  {
    hide *;
    LineIsBreak(s, e);
    if vs == [] {
      NoneGivenBack(Spare(s, e));
    } else {
      MoreAreEnums(s, i);
      var j, k := CutMore(s, i, e, vs);
      CommaSpan(s, i, j);
      NextOfMore(s, i, j, vs);
      EnumIs(vs[0]);
      ReadBack(s, j, k, vs[0].text);
      if |vs| > 1 {
        InnerValue(s, j, k, vs[0]);
        MoreReadBack(s, k, e, vs[1..]);
      } else {
        NoneGivenBack(Spare(s, e));
      }
      FirstAndRest(vs, Spare(s, e));
    }
  }

  lemma MoreAreEnums(s: string, i: nat)
    requires i <= |s| && MoreElements(EnumElement, s, i, {}).Match?
    ensures var vs := MoreElements(EnumElement, s, i, {}).value; vs != [] ==> vs[0].EnumValue?
  {
    if NextElement(EnumElement, s, i, {}).Match? {
      NextIsElement(EnumElement, s, i, {});
      EnumElementKind(s, AfterComma(s, i));
    }
    hide Element, NextElement, AfterComma;
  }

  lemma ValuesReadBack(s: string, i: nat, e: nat, vs: seq<Value>)
    requires vs != [] && Span(s, i, e, PrintValues(vs)) && LineEnds(s, e) && i <= |s|
    requires List(EnumElement, s, Whitespace(s, i), {}).Match? && List(EnumElement, s, Whitespace(s, i), {}).value == vs
    ensures e < |s| && AllGivenBack(vs, Spare(s, e))
  {
    hide *;
    LineIsBreak(s, e);
    FirstOfList(s, Whitespace(s, i), vs);
    EnumIs(vs[0]);
    var k := CutFirst(s, i, e, vs);
    AfterValue(s, k, e, vs[1..]);
    ReadBack(s, i, k, vs[0].text);
    if |vs| > 1 {
      InnerValue(s, i, k, vs[0]);
      MoreReadBack(s, k, e, vs[1..]);
    } else {
      NoneGivenBack(Spare(s, e));
    }
    FirstAndRest(vs, Spare(s, e));
  }

  lemma FirstOfList(s: string, z: nat, vs: seq<Value>)
    requires z <= |s| && vs != [] && List(EnumElement, s, z, {}).Match? && List(EnumElement, s, z, {}).value == vs
    ensures var r := Element(EnumElement, s, z, {});
            && r.Match? && r.value == vs[0] && vs[0].EnumValue?
            && MoreElements(EnumElement, s, r.pos, {}).Match? && MoreElements(EnumElement, s, r.pos, {}).value == vs[1..]
  {
    EnumElementKind(s, z);
    hide Element, MoreElements;
  }

  lemma CutFirst(s: string, i: nat, e: nat, vs: seq<Value>) returns (k: nat)
    requires vs != [] && vs[0].EnumValue? && Span(s, i, e, PrintValues(vs))
    ensures i <= k <= e <= |s| && Span(s, i, k, vs[0].text) && Span(s, k, e, PrintMoreValues(vs[1..]))
  {
    hide Span;
    k := Cut(s, i, e, PrintValue(vs[0]), PrintMoreValues(vs[1..]));
  }

  predicate ParameterGivenBack(p: Parameter, spare: nat) {
    && IsIdentifier(p.name) && p.values != []
    && if p.ptype.ENUM? then AllGivenBack(p.values, spare)
       else forall k | 0 <= k < |p.values| :: WellFormedValue(p.ptype, p.values[k])
  }

  lemma WithoutSpare(p: Parameter)
    ensures ParameterGivenBack(p, 0) <==> WellFormedParameter(p)
  {
    hide IsIdentifier, TextGivenBack, WellFormedValue;
    if p.ptype.ENUM? {
      forall k | 0 <= k < |p.values|
        ensures TextGivenBack(p.values[k], 0) == WellFormedValue(p.ptype, p.values[k])
      {
        LacksNone(p.values[k]);
      }
    }
  }

  lemma RuleIsOf(s: string, i: nat)
    requires i <= |s| && ParameterRule(s, i).Match?
    ensures ParameterOf(ParameterRule(s, i).value.ptype, s, i) == ParameterRule(s, i)
  {
    hide ParameterHead, List, LineEnd, Spaces, Whitespace;
  }

  lemma PartsOf(t: ParameterType, s: string, i: nat)
    requires i <= |s| && ParameterOf(t, s, i).Match?
    ensures var p, head := ParameterOf(t, s, i).value, ParameterHead(t, s, i);
            && head.Match? && p.name == head.value && IsIdentifier(p.name) && p.ptype == t && p.values != []
            && var r := List(KindOf(t), s, Whitespace(s, head.pos), {}); r.Match? && r.value == p.values
  {
    hide ParameterHead, List, LineEnd, Spaces, Whitespace;
  }

  lemma OtherValues(t: ParameterType, s: string, i: nat)
    requires i <= |s| && ParameterOf(t, s, i).Match? && !t.ENUM?
    ensures WellFormedParameter(ParameterOf(t, s, i).value)
  {
    ParameterOfOk(t, s, i);
    hide ParameterOf, WellFormedParameter, ListTrims, ParameterHead;
    if ParameterHead(t, s, i).Match? { OthersTrim(KindOf(t), s, Whitespace(s, ParameterHead(t, s, i).pos), {}); }
  }

  lemma CutParameter(s: string, i: nat, e: nat, p: Parameter) returns (j: nat)
    requires Span(s, i, e, PrintParameter(p))
    ensures i <= j <= e && Span(s, i, j, p.name + " " + PrintType(p.ptype)) && Span(s, j, e, PrintValues(p.values))
  {
    hide Span, PrintType, PrintValues;
    j := Cut(s, i, e, p.name + " " + PrintType(p.ptype), PrintValues(p.values));
  }

  lemma EnumReadBack(s: string, i: nat, e: nat, p: Parameter)
    requires p.ptype.ENUM? && IsIdentifier(p.name) && p.values != [] && Span(s, i, e, PrintParameter(p)) && LineEnds(s, e)
    requires i <= |s| && ParameterHead(ENUM, s, i).Match?
    requires var r := List(EnumElement, s, Whitespace(s, ParameterHead(ENUM, s, i).pos), {});
             r.Match? && r.value == p.values
    ensures e < |s| && AllGivenBack(p.values, Spare(s, e))
  {
    hide *;
    var j := CutParameter(s, i, e, p);
    HeadSpan(s, i, j, p.name, ENUM);
    ValuesReadBack(s, j, e, p.values);
  }

  lemma ParameterReadBack(s: string, i: nat, e: nat, p: Parameter)
    requires Span(s, i, e, PrintParameter(p)) && LineEnds(s, e)
    requires i <= |s| && ParameterRule(s, i).Match? && ParameterRule(s, i).value == p
    ensures e < |s| && ParameterGivenBack(p, Spare(s, e))
  {
    hide *;
    LineIsBreak(s, e);
    RuleIsOf(s, i);
    PartsOf(p.ptype, s, i);
    if p.ptype.ENUM? {
      EnumKind();
      EnumReadBack(s, i, e, p);
      EnumGivenBack(p, Spare(s, e));
    } else {
      OtherValues(p.ptype, s, i);
      OtherGivenBack(p, Spare(s, e));
    }
  }

  lemma EnumKind()
    ensures KindOf(ENUM) == EnumElement
  {}

  lemma EnumGivenBack(p: Parameter, spare: nat)
    requires p.ptype.ENUM? && IsIdentifier(p.name) && p.values != [] && AllGivenBack(p.values, spare)
    ensures ParameterGivenBack(p, spare)
  {}

  lemma OtherGivenBack(p: Parameter, spare: nat)
    requires !p.ptype.ENUM? && WellFormedParameter(p)
    ensures ParameterGivenBack(p, spare)
  {}

  /** Only the last value of the last parameter may lack anything. */
  predicate ParametersGivenBack(ps: seq<Parameter>, spare: nat) {
    && ps != [] && (forall k | 0 <= k < |ps| - 1 :: WellFormedParameter(ps[k]))
    && ParameterGivenBack(ps[|ps| - 1], spare)
  }

  lemma {:induction false} NamesAreIdentifiers(s: string, i: nat)
    requires i <= |s| && MoreParameters(s, i).Match?
    ensures forall p | p in MoreParameters(s, i).value :: IsIdentifier(p.name)
    decreases |s| - i
  {
    hide ParameterRule, Spacing, IsIdentifier;
    if ParameterRule(s, i).Match? {
      RuleIsOf(s, i);
      PartsOf(ParameterRule(s, i).value.ptype, s, i);
      NamesAreIdentifiers(s, Spacing(s, ParameterRule(s, i).pos));
    }
  }

  lemma ParameterStarts(s: string, i: nat, j: nat, p: Parameter)
    requires IsIdentifier(p.name) && Span(s, i, j, PrintParameter(p))
    ensures i < j <= |s| && IsIdentifierStart(s[i]) && Spacing(s, i) == i && Whitespace(s, i) == i
  {
    var a := p.name + " " + PrintType(p.ptype);
    var k := Cut(s, i, j, a, PrintValues(p.values));
    hide PrintType, PrintValues;
    SpanBounds(s, i, k, a);
    assert a[0] == p.name[0];
    IdentifierIsSolid(s, i);
    SpacingStops(s, i);
  }

  /** What a section of parameters ends with: an empty line, and another section or the end of the input. */
  predicate ClosingLine(s: string, e: nat) { e < |s| && s[e] == '\n' && (e + 1 == |s| || s[e + 1] == '[') }

  lemma LastLineEnds(s: string, j: nat)
    requires ClosingLine(s, j + 1) && s[j] == '\n'
    ensures LineEnds(s, j) && Spare(s, j) == if j + 2 == |s| then 2 else 1
  {
    var e := j + 2;
    assert Whitespace(s, e) == e;
    assert Whitespace(s, j + 1) == e;
  }

  lemma InnerLineEnds(s: string, j: nat)
    requires j + 1 < |s| && s[j] == '\n' && IsIdentifierStart(s[j + 1])
    ensures LineEnds(s, j) && Spare(s, j) == 0
  {
    assert Whitespace(s, j + 1) == j + 1;
  }

  lemma FirstOfMoreParameters(s: string, i: nat, ps: seq<Parameter>)
    requires i <= |s| && ps != [] && MoreParameters(s, i).Match? && MoreParameters(s, i).value == ps
    ensures var r := ParameterRule(s, i);
            && r.Match? && r.value == ps[0]
            && MoreParameters(s, Spacing(s, r.pos)).Match? && MoreParameters(s, Spacing(s, r.pos)).value == ps[1..]
  {
    hide ParameterRule, Spacing;
  }

  lemma {:induction false} LinesReadBack(s: string, i: nat, e: nat, ps: seq<Parameter>)
    requires ps != [] && Span(s, i, e, Lines(PrintParameters(ps))) && ClosingLine(s, e) && i <= |s|
    requires MoreParameters(s, Spacing(s, i)).Match? && MoreParameters(s, Spacing(s, i)).value == ps
    ensures ParametersGivenBack(ps, if e + 1 == |s| then 2 else 1)
    decreases |ps|
  {
    hide *;
    PrintedLines(ps);
    NamesAreIdentifiers(s, Spacing(s, i));
    var j, k := CutLine(s, i, e, PrintParameters(ps));
    ParameterStarts(s, i, j, ps[0]);
    FirstOfMoreParameters(s, i, ps);
    if |ps| == 1 {
      NoLines(s, k, e, ps[1..]);
      LastLineEnds(s, j);
      ParameterReadBack(s, i, j, ps[0]);
      LastGivenBack(ps, Spare(s, j));
    } else {
      NextLineStarts(s, k, e, ps[1..]);
      InnerLineEnds(s, j);
      ParameterReadBack(s, i, j, ps[0]);
      WithoutSpare(ps[0]);
      ParameterLine(s, i, j, ps[0]);
      LinesReadBack(s, k, e, ps[1..]);
      InnerGivenBack(ps, if e + 1 == |s| then 2 else 1);
    }
  }

  lemma PrintedLines(ps: seq<Parameter>)
    requires ps != []
    ensures PrintParameters(ps)[0] == PrintParameter(ps[0]) && PrintParameters(ps)[1..] == PrintParameters(ps[1..])
  {
    hide PrintParameter;
  }

  lemma NoLines(s: string, k: nat, e: nat, ps: seq<Parameter>)
    requires ps == [] && Span(s, k, e, Lines(PrintParameters(ps)))
    ensures k == e
  {}

  lemma NextLineStarts(s: string, k: nat, e: nat, ps: seq<Parameter>)
    requires ps != [] && IsIdentifier(ps[0].name) && Span(s, k, e, Lines(PrintParameters(ps)))
    ensures k < |s| && IsIdentifierStart(s[k]) && Spacing(s, k) == k && s[k] != ','
  {
    hide *;
    PrintedLines(ps);
    var j, l := CutLine(s, k, e, PrintParameters(ps));
    ParameterStarts(s, k, j, ps[0]);
    IdentifierIsSolid(s, k);
  }

  lemma LastGivenBack(ps: seq<Parameter>, spare: nat)
    requires |ps| == 1 && ParameterGivenBack(ps[0], spare)
    ensures ParametersGivenBack(ps, spare)
  {
    hide ParameterGivenBack;
  }

  lemma InnerGivenBack(ps: seq<Parameter>, spare: nat)
    requires |ps| > 1 && WellFormedParameter(ps[0]) && ParametersGivenBack(ps[1..], spare)
    ensures ParametersGivenBack(ps, spare)
  {
    hide ParameterGivenBack, WellFormedParameter;
    forall k | 0 <= k < |ps| - 1 ensures WellFormedParameter(ps[k]) {
      if k > 0 { assert ps[1..][k - 1] == ps[k]; }
    }
  }

  // ---- The name of the system -----------------------------------------------------------------------------

  predicate NameGivenBack(name: string) { IsTrimmed(name) && Missing("\n\r", name) <= 1 }

  lemma TrimmedIsTrimmed(v: string)
    ensures IsTrimmed(Trimmed(v))
  {
    hide IsTrimmable;
    var t := TrimLeft(v);
    if TrimRight(t) != [] { assert TrimRight(t)[0] == t[0]; }
  }

  lemma NameIsTrimmed(s: string, i: nat)
    requires i <= |s| && SystemSection(s, i).Match?
    ensures IsTrimmed(SystemSection(s, i).value)
  {
    hide SectionHeader, LitI, Lit, Whitespace, Spacing, Spaces, IsTrimmed, Trimmed, SkipText;
    var start := NameStart(s, i).pos;
    TrimmedIsTrimmed(s[start..SkipText("\n\r", s, start)]);
  }

  lemma AfterName(s: string, l: nat, e: nat)
    requires Span(s, l, e, "\n\n") && e < |s| && s[e] == '['
    ensures l + 2 == e && s[l] == '\n' && s[l + 1] == '\n'
    ensures GoesOn("\n\r", s, l) && Spare(s, l) == 1 && Spacing(s, l) == e && Spacing(s, l + 1) == e
  {
    SpanBounds(s, l, e, "\n\n");
    AtSecond(s, l, "\n\n");
    assert Whitespace(s, e) == e;
    assert Whitespace(s, l + 1) == e;
    SpacingStops(s, e);
    assert Spacing(s, l + 1) == Spacing(s, e);
  }

  lemma SystemReadBack(s: string, e: nat, name: string)
    requires Span(s, 0, e, PrintSystemSection(name)) && e < |s| && s[e] == '['
    requires SystemSection(s, 0).Match? && SystemSection(s, 0).value == name
    ensures NameGivenBack(name)
  {
    hide *;
    NameIsTrimmed(s, 0);
    var k, l := SystemLayout(s, 0, e, name);
    AfterName(s, l, e);
    BreakStops(s, l);
    if name == "" {
      EmptyLacksNothing();
    } else {
      FirstIsSolid(name);
      LacksLittle("\n\r", s, k, l, SkipText("\n\r", s, k), name);
    }
    NameIs(name);
  }

  lemma EmptyLacksNothing()
    ensures Missing("\n\r", "") == 0
  {}

  lemma NameIs(name: string)
    requires IsTrimmed(name) && Missing("\n\r", name) <= 1
    ensures NameGivenBack(name)
  {}

  /** A text that can take what it lacks from the white space after it. */
  lemma Fits(stop: string, s: string, i: nat, b: nat, v: string)
    requires IsTrimmed(v) && Span(s, i, b, v) && Missing(stop, v) < 4 && b + Missing(stop, v) <= |s|
    requires forall k | b <= k < b + Missing(stop, v) :: IsTrimmable(s[k])
    requires SkipText(stop, s, b + Missing(stop, v)) == b + Missing(stop, v)
    ensures i <= b && SkipText(stop, s, i) == b + Missing(stop, v) && Trimmed(s[i..b + Missing(stop, v)]) == v
  {
    hide *;
    SliceSpan(s, i, b, v);
    Completed(stop, s, i, b);
    if v == "" {
      NothingFits(stop);
    } else {
      Regained(s, i, b, b + Missing(stop, v), v);
    }
  }

  lemma NothingFits(stop: string)
    ensures Missing(stop, "") == 0 && Trimmed("") == ""
  {}

  lemma Regained(s: string, i: nat, b: nat, e: nat, v: string)
    requires i <= b <= e <= |s| && s[i..b] == v && IsTrimmed(v) && v != ""
    requires forall k | b <= k < e :: IsTrimmable(s[k])
    ensures Trimmed(s[i..e]) == v
  {
    hide IsTrimmable, Trimmed;
    var u := s[i..e];
    assert u[..|v|] == v;
    assert forall k | |v| <= k < |u| :: u[k] == s[i + k];
    assert u[0] == v[0] && u[|v| - 1] == v[|v| - 1];
    TrimmedBetween(u, 0, |v|);
  }

  lemma SystemFits(s: string, e: nat, name: string)
    requires NameGivenBack(name) && Span(s, 0, e, PrintSystemSection(name)) && e < |s| && s[e] == '['
    ensures SystemSection(s, 0) == Match(e, name) && s[0] == '['
  {
    hide SystemSection, Spacing, SkipText, Trimmed, IsTrimmed, PrintSystemSection, Span, IsTrimmable, Missing, GoesOn, Spare;
    var k, l := SystemLayout(s, 0, e, name);
    AfterName(s, l, e);
    NewlineFits(s, k, l, name);
  }

  lemma NewlineFits(s: string, i: nat, b: nat, name: string)
    requires NameGivenBack(name) && Span(s, i, b, name) && b + 1 < |s| && s[b] == '\n' && s[b + 1] == '\n'
    ensures i <= b && b <= SkipText("\n\r", s, i) <= b + 1 && Trimmed(s[i..SkipText("\n\r", s, i)]) == name
  {
    hide *;
    NameParts(name);
    BreakStops(s, b);
    BreakStops(s, b + 1);
    BreakIsTrimmable(s, b);
    AtBreak("\n\r", s, b + Missing("\n\r", name));
    Fits("\n\r", s, i, b, name);
  }

  lemma NameParts(name: string)
    requires NameGivenBack(name)
    ensures IsTrimmed(name) && Missing("\n\r", name) <= 1
  {}

  lemma AtBreak(stop: string, s: string, b: nat)
    requires b <= |s| && (b < |s| ==> s[b] in stop)
    ensures SkipText(stop, s, b) == b
  {}

  lemma BreakIsTrimmable(s: string, b: nat)
    requires b < |s| && s[b] == '\n'
    ensures IsTrimmable(s[b])
  {}

  // ---- Parameters that are given back -----------------------------------------------------------------------

  /** The values of the last line, which ends at `b`, have been read up to `q`, and nothing but its end follows. */
  predicate ReadsOn(s: string, q: nat, b: nat) {
    && b <= q <= |s| && NoComma(s, q)
    && LineEnd(s, q).Match? && Spacing(s, LineEnd(s, q).pos) == b + 2
  }

  /** The last line of the section and the empty line after it. */
  predicate LastLine(s: string, b: nat) { b < |s| && s[b] == '\n' && ClosingLine(s, b + 1) }

  lemma LastLineParts(s: string, b: nat)
    requires LastLine(s, b)
    ensures b + 2 <= |s| && s[b] == '\n' && s[b + 1] == '\n' && LineEnds(s, b)
    ensures Spare(s, b) == if b + 2 == |s| then 2 else 1
  {
    LastLineEnds(s, b);
  }

  lemma LineFits(s: string, b: nat, d: nat)
    requires LastLine(s, b) && d <= Spare(s, b)
    ensures ReadsOn(s, b + d, b) && SkipText(",;\n\r", s, b + d) == b + d
    ensures forall k | b <= k < b + d :: IsTrimmable(s[k])
  {
    LastLineEnds(s, b);
    BreakStops(s, b);
    BreakStops(s, b + 1);
    AtBreak(",;\n\r", s, b + d);
    hide Spare, SkipText, LineEnds;
    SpacingStops(s, b + 2);
    assert Whitespace(s, b + 1) == b + 2;
    NoCommaAt(s, b + 2);
  }

  lemma LastValueFits(s: string, i: nat, b: nat, v: Value) returns (q: nat)
    requires LastLine(s, b) && TextGivenBack(v, Spare(s, b)) && Span(s, i, b, v.text)
    ensures i < q && ReadsOn(s, q, b) && i < |s| && !InClass(White, s[i])
    ensures Element(EnumElement, s, i, {}) == Match(q, v)
  {
    hide *;
    LastLineParts(s, b);
    TextParts(v, Spare(s, b));
    q := b + Missing(",;\n\r", v.text);
    LineFits(s, b, Missing(",;\n\r", v.text));
    ReadsUpTo(s, q, b);
    Fits(",;\n\r", s, i, b, v.text);
    SpanBounds(s, i, b, v.text);
    EnumIs(v);
    EnumReads(s, i, q, v.text);
  }

  lemma ReadsUpTo(s: string, q: nat, b: nat)
    requires ReadsOn(s, q, b)
    ensures b <= q <= |s| && NoComma(s, q) && LineEnd(s, q).Match? && Spacing(s, LineEnd(s, q).pos) == b + 2
  {}

  lemma TextParts(v: Value, spare: nat)
    requires TextGivenBack(v, spare) && spare <= 2
    ensures v.EnumValue? && v.text != [] && v.text[0] !in ",; \t\n\r" && IsTrimmed(v.text)
    ensures Missing(",;\n\r", v.text) <= spare
  {}

  lemma InnerFits(s: string, i: nat, k: nat, v: Value)
    requires TextGivenBack(v, 0) && Span(s, i, k, v.text) && k < |s| && s[k] == ','
    ensures i < k && !InClass(White, s[i]) && Element(EnumElement, s, i, {}) == Match(k, v)
  {
    LacksNone(v);
    hide *;
    InnerParts(v);
    EnumSpan(s, i, k, v.text);
  }

  lemma InnerParts(v: Value)
    requires TextGivenBack(v, 0)
    ensures v.EnumValue? && v == EnumValue(v.text)
  {}

  lemma NoMoreElements(s: string, q: nat)
    requires NoComma(s, q)
    ensures q <= |s| && MoreElements(EnumElement, s, q, {}) == Match(q, [])
  {
    hide At, Whitespace, Element;
    assert NextElement(EnumElement, s, q, {}) == NoMatch;
  }

  lemma AllParts(vs: seq<Value>, spare: nat)
    requires vs != [] && AllGivenBack(vs, spare)
    ensures TextGivenBack(vs[0], if |vs| == 1 then spare else 0) && AllGivenBack(vs[1..], spare)
    ensures vs[0].EnumValue?
  {
    forall k | 0 <= k < |vs[1..]| ensures TextGivenBack(vs[1..][k], if k == |vs[1..]| - 1 then spare else 0) {
      assert vs[1..][k] == vs[k + 1];
      assert TextGivenBack(vs[k + 1], if k + 1 == |vs| - 1 then spare else 0);
    }
  }

  lemma {:induction false} MoreFits(s: string, i: nat, b: nat, vs: seq<Value>) returns (q: nat)
    requires vs != [] && LastLine(s, b) && AllGivenBack(vs, Spare(s, b)) && Span(s, i, b, PrintMoreValues(vs))
    ensures i < |s| && i < q && ReadsOn(s, q, b) && MoreElements(EnumElement, s, i, {}) == Match(q, vs)
    decreases |vs|
  {
    hide *;
    LastLineParts(s, b);
    AllParts(vs, Spare(s, b));
    var j, k := CutMore(s, i, b, vs);
    CommaSpan(s, i, j);
    if |vs| == 1 {
      q := LastValueFits(s, j, b, vs[0]);
      ReadsUpTo(s, q, b);
      NoMoreElements(s, q);
      OneMoreElement(s, i, j, q, q, EnumElement, vs, {});
    } else {
      InnerFits(s, j, k, vs[0]);
      q := MoreFits(s, k, b, vs[1..]);
      ReadsUpTo(s, q, b);
      OneMoreElement(s, i, j, k, q, EnumElement, vs, {});
    }
  }

  lemma ValuesFit(s: string, i: nat, b: nat, vs: seq<Value>) returns (q: nat)
    requires vs != [] && LastLine(s, b) && AllGivenBack(vs, Spare(s, b)) && Span(s, i, b, PrintValues(vs))
    ensures i < |s| && !InClass(White, s[i]) && i < q && ReadsOn(s, q, b) && List(EnumElement, s, i, {}) == Match(q, vs)
  {
    hide *;
    LastLineParts(s, b);
    AllParts(vs, Spare(s, b));
    var k := CutFirst(s, i, b, vs);
    AfterValue(s, k, b, vs[1..]);
    if |vs| == 1 {
      q := LastValueFits(s, i, b, vs[0]);
      ReadsUpTo(s, q, b);
      NoMoreElements(s, q);
      FirstElement(s, i, q, q, vs);
    } else {
      InnerFits(s, i, k, vs[0]);
      q := MoreFits(s, k, b, vs[1..]);
      ReadsUpTo(s, q, b);
      FirstElement(s, i, k, q, vs);
    }
  }

  lemma FirstElement(s: string, i: nat, k: nat, q: nat, vs: seq<Value>)
    requires vs != [] && i < k <= q <= |s| && Element(EnumElement, s, i, {}) == Match(k, vs[0])
    requires MoreElements(EnumElement, s, k, {}) == Match(q, vs[1..])
    ensures List(EnumElement, s, i, {}) == Match(q, vs)
  {
    hide Element, MoreElements;
    assert [vs[0]] + vs[1..] == vs;
  }

  lemma LastParameterFits(s: string, i: nat, b: nat, p: Parameter) returns (r: nat)
    requires LastLine(s, b) && ParameterGivenBack(p, Spare(s, b)) && Span(s, i, b, PrintParameter(p))
    ensures i < r <= |s| && Spacing(s, i) == i && ParameterRule(s, i) == Match(r, p) && Spacing(s, r) == b + 2
  {
    hide *;
    LastLineParts(s, b);
    ParameterName(p, Spare(s, b));
    ParameterStarts(s, i, b, p);
    if p.ptype.ENUM? {
      EnumValues(p, Spare(s, b));
      var j := CutParameter(s, i, b, p);
      var q := ValuesFit(s, j, b, p.values);
      HeadSpan(s, i, j, p.name, p.ptype);
      ReadsUpTo(s, q, b);
      SolidWhitespace(s, j);
      r := LineEnd(s, q).pos;
      EnumRule(s, i, j, q, p);
    } else {
      OtherWellFormed(p, Spare(s, b));
      AfterLastLine(s, b);
      ParameterLine(s, i, b, p);
      r := b + 1;
    }
  }

  lemma ParameterName(p: Parameter, spare: nat)
    requires ParameterGivenBack(p, spare)
    ensures IsIdentifier(p.name)
  {}

  lemma EnumValues(p: Parameter, spare: nat)
    requires ParameterGivenBack(p, spare) && p.ptype.ENUM?
    ensures p.values != [] && AllGivenBack(p.values, spare)
  {}

  lemma OtherWellFormed(p: Parameter, spare: nat)
    requires ParameterGivenBack(p, spare) && !p.ptype.ENUM?
    ensures WellFormedParameter(p)
  {}

  lemma AfterLastLine(s: string, b: nat)
    requires LastLine(s, b)
    ensures b + 2 <= |s| && Spacing(s, b + 1) == b + 2 && Spacing(s, b + 2) == b + 2 && SectionEnds(s, b + 2)
    ensures b + 2 < |s| ==> s[b + 2] != ','
  {
    SpacingStops(s, b + 2);
  }

  lemma EnumRule(s: string, i: nat, j: nat, q: nat, p: Parameter)
    requires p.ptype.ENUM? && i < j < q <= |s| && Whitespace(s, j - 1) == j && List(EnumElement, s, j, {}) == Match(q, p.values)
    requires ParameterHead(ENUM, s, i) == Match(j - 1, p.name) && ParameterHead(BOOLEAN, s, i) == NoMatch
    requires LineEnd(s, q).Match?
    ensures ParameterRule(s, i) == Match(LineEnd(s, q).pos, p)
  {
    hide ParameterHead, List, LineEnd, Whitespace, Spaces;
  }

  lemma {:induction false} LinesFit(s: string, i: nat, e: nat, ps: seq<Parameter>)
    requires ClosingLine(s, e) && ParametersGivenBack(ps, if e + 1 == |s| then 2 else 1)
    requires Span(s, i, e, Lines(PrintParameters(ps)))
    ensures i <= |s| && MoreParameters(s, Spacing(s, i)) == Match(e + 1, ps)
    decreases |ps|
  {
    hide *;
    ParametersParts(ps, if e + 1 == |s| then 2 else 1);
    PrintedLines(ps);
    var j, k := CutLine(s, i, e, PrintParameters(ps));
    if |ps| == 1 {
      NoLines(s, k, e, ps[1..]);
      LastLineIs(s, j);
      var r := LastParameterFits(s, i, j, ps[0]);
      AfterLastLine(s, j);
      NoParameters(s, j + 2);
      MoreStep(s, i, r, j + 2, ps);
    } else {
      NextIsIdentifier(ps, if e + 1 == |s| then 2 else 1);
      NextLineStarts(s, k, e, ps[1..]);
      LinesFit(s, k, e, ps[1..]);
      ParameterLine(s, i, j, ps[0]);
      MoreStep(s, i, k, e + 1, ps);
    }
  }

  lemma LastLineIs(s: string, j: nat)
    requires j < |s| && s[j] == '\n' && ClosingLine(s, j + 1)
    ensures LastLine(s, j) && Spare(s, j) == if j + 2 == |s| then 2 else 1
  {
    LastLineEnds(s, j);
  }

  lemma ParametersParts(ps: seq<Parameter>, spare: nat)
    requires ParametersGivenBack(ps, spare)
    ensures ps != []
    ensures if |ps| == 1 then ParameterGivenBack(ps[0], spare)
            else WellFormedParameter(ps[0]) && ParametersGivenBack(ps[1..], spare)
  {
    hide ParameterGivenBack, WellFormedParameter;
    assert forall k | 0 <= k < |ps| - 1 :: ps[1..][k] == ps[k + 1];
  }

  lemma NextIsIdentifier(ps: seq<Parameter>, spare: nat)
    requires |ps| > 1 && ParametersGivenBack(ps[1..], spare)
    ensures IsIdentifier(ps[1..][0].name)
  {
    hide IsIdentifier;
  }

  lemma NoParameters(s: string, i: nat)
    requires SectionEnds(s, i)
    ensures MoreParameters(s, i) == Match(i, [])
  {
    NoParameter(s, i);
    hide ParameterRule;
  }

  lemma MoreStep(s: string, i: nat, r: nat, e: nat, ps: seq<Parameter>)
    requires ps != [] && i < r <= |s| && Spacing(s, i) == i && ParameterRule(s, i) == Match(r, ps[0])
    requires MoreParameters(s, Spacing(s, r)) == Match(e, ps[1..])
    ensures MoreParameters(s, Spacing(s, i)) == Match(e, ps)
  {
    hide ParameterRule, Spacing;
    assert [ps[0]] + ps[1..] == ps;
  }

  lemma SectionFits(s: string, i: nat, e: nat, ps: seq<Parameter>)
    requires Span(s, i, e, PrintSection("Parameter", PrintParameters(ps), "\n")) && SectionEnds(s, e)
    requires ParametersGivenBack(ps, if e == |s| then 2 else 1)
    ensures i < e && s[i] == '[' && ParameterSection(s, i) == Match(e, ps)
  {
    hide *;
    var j, k := CutSection(s, i, e, ps);
    LinesFit(s, j, k, ps);
    ParametersParts(ps, if e == |s| then 2 else 1);
    SectionOf(s, i, Spacing(s, j), e, ps);
  }

  lemma CutSection(s: string, i: nat, e: nat, ps: seq<Parameter>) returns (j: nat, k: nat)
    requires Span(s, i, e, PrintSection("Parameter", PrintParameters(ps), "\n")) && SectionEnds(s, e)
    ensures i < j <= k && k + 1 == e <= |s| && s[i] == '[' && Span(s, j, k, Lines(PrintParameters(ps)))
    ensures ClosingLine(s, k) && SectionHeader(s, i, "Parameter") == Match(Spacing(s, j), ())
  {
    hide Span, SectionHeader, Spacing, Lines;
    j, k := Cut3(s, i, e, "[" + "Parameter" + "]\n", Lines(PrintParameters(ps)), "\n");
    HeaderSpan(s, i, j, "Parameter");
    SpanBounds(s, k, e, "\n");
    OneCharacter(s, k, e, "\n");
  }

  lemma SectionReadBack(s: string, i: nat, e: nat, ps: seq<Parameter>)
    requires ps != [] && Span(s, i, e, PrintSection("Parameter", PrintParameters(ps), "\n")) && SectionEnds(s, e)
    requires i <= |s| && ParameterSection(s, i).Match? && ParameterSection(s, i).value == ps
    ensures e <= |s| && ParametersGivenBack(ps, if e == |s| then 2 else 1)
  {
    hide *;
    var j, k := CutSection(s, i, e, ps);
    MoreOfSection(s, i, Spacing(s, j), ps);
    LinesReadBack(s, j, k, ps);
  }

  lemma MoreOfSection(s: string, i: nat, j: nat, ps: seq<Parameter>)
    requires i <= |s| && j <= |s| && SectionHeader(s, i, "Parameter") == Match(j, ())
    requires ParameterSection(s, i).Match? && ParameterSection(s, i).value == ps
    ensures MoreParameters(s, j).Match? && MoreParameters(s, j).value == ps
  {
    hide SectionHeader, ParameterRule, Spacing;
  }

  // ---- Models ---------------------------------------------------------------------------------------------------

  /** What limits the texts of a model: the name, and the last value of the last parameter, may lack no more bytes than the
      lines after them lend, all other values nothing. */
  predicate TextsGivenBack(m: Model) {
    && NameGivenBack(m.name)
    && ParametersGivenBack(m.parameters, if m.relations == [] && m.constraints == [] then 2 else 1)
  }

  /** What the format can give back. */
  predicate IsGivenBack(m: Model) {
    && TextsGivenBack(m)
    && RelationsOk(m.relations, Declared(m.parameters))
    && ConstraintsOk(m.constraints, Declared(m.parameters))
  }

  /** The parts of a printed model. */
  lemma CutModel(m: Model) returns (i: nat, j: nat, k: nat)
    ensures var s := PrintModel(m);
            && i <= j <= k <= |s| && Span(s, 0, i, PrintSystemSection(m.name))
            && Span(s, i, j, PrintSection("Parameter", PrintParameters(m.parameters), "\n"))
            && Span(s, j, k, RelationPart(PrintRelations(m.relations)))
            && Span(s, k, |s|, ConstraintPart(m.constraints != [], PrintConstraints(m.constraints), "\n"))
  {
    var s := PrintModel(m);
    var a, b := PrintSystemSection(m.name), PrintSection("Parameter", PrintParameters(m.parameters), "\n");
    var c := RelationPart(PrintRelations(m.relations));
    var d := ConstraintPart(m.constraints != [], PrintConstraints(m.constraints), "\n");
    assert s == a + b + c + d;
    hide *;
    WholeSpan(s);
    j, k := Cut3(s, 0, |s|, a + b, c, d);
    i := Cut(s, 0, j, a, b);
  }

  lemma PartStarts(s: string, i: nat, e: nat, name: string, texts: seq<string>)
    requires Span(s, i, e, PrintSection(name, texts, "\n"))
    ensures i < e <= |s| && s[i] == '['
  {
    var k := Cut(s, i, e, "[" + name + "]\n" + Lines(texts), "\n");
    SpanBounds(s, i, k, "[" + name + "]\n" + Lines(texts));
  }

  /** What follows the parameters: the input ends there exactly when there are no relations and no constraints. */
  lemma RestStarts(s: string, j: nat, k: nat, m: Model)
    requires Span(s, j, k, RelationPart(PrintRelations(m.relations))) && j <= k <= |s|
    requires Span(s, k, |s|, ConstraintPart(m.constraints != [], PrintConstraints(m.constraints), "\n"))
    ensures SectionEnds(s, j) && (j == |s| <==> m.relations == [] && m.constraints == [])
  {
    hide Span, PrintSection, PrintRelations, PrintConstraints;
    if m.relations != [] {
      PartStarts(s, j, k, "Relation", PrintRelations(m.relations));
    } else {
      EmptySpan(s, j, k);
      if m.constraints != [] {
        PartStarts(s, k, |s|, "Constraint", PrintConstraints(m.constraints));
      } else {
        EmptySpan(s, k, |s|);
      }
    }
  }

  /** What the rules have matched when a text has been parsed. */
  lemma ParsedParts(s: string)
    requires Parse(s).Match?
    ensures var m, r := Parse(s).value, SystemSection(s, Spacing(s, 0));
            && r.Match? && r.value == m.name
            && ParameterSection(s, r.pos).Match? && ParameterSection(s, r.pos).value == m.parameters
            && RelationsOk(m.relations, Declared(m.parameters))
            && ConstraintsOk(m.constraints, Declared(m.parameters))
  {
    hide SystemSection, ParameterSection, RelationSection, ConstraintSection, Spacing, WellFormedRelation,
         WellFormedConstraint, Declared;
    var i1 := SystemSection(s, Spacing(s, 0)).pos;
    var r := ParameterSection(s, i1);
    assert [] + r.value == r.value;
    var ds := Declared(r.value);
    RelationSectionOk(s, r.pos, ds);
    var rs := Optional(RelationSection(s, r.pos, ds), r.pos);
    ConstraintSectionOk(s, rs.pos, ds);
    var cs := Optional(ConstraintSection(s, rs.pos, ds), rs.pos);
    assert [] + rs.value == rs.value && [] + cs.value == cs.value;
  }

  lemma ModelReadBack(m: Model)
    requires Parse(PrintModel(m)).Match? && Parse(PrintModel(m)).value == m
    ensures IsGivenBack(m)
  {
    var s := PrintModel(m);
    var i, j, k := CutModel(m);
    hide *;
    RestStarts(s, j, k, m);
    PartStarts(s, i, j, "Parameter", PrintParameters(m.parameters));
    StartsWithBracket(s, i, m.name);
    ParsedParts(s);
    SystemReadBack(s, i, m.name);
    SystemFits(s, i, m.name);
    SectionReadBack(s, i, j, m.parameters);
    AllIsGivenBack(m);
  }

  lemma StartsWithBracket(s: string, i: nat, name: string)
    requires Span(s, 0, i, PrintSystemSection(name))
    ensures 0 < |s| && s[0] == '[' && Spacing(s, 0) == 0
  {
    SpanBounds(s, 0, i, PrintSystemSection(name));
    SpacingStops(s, 0);
  }

  lemma AllIsGivenBack(m: Model)
    requires NameGivenBack(m.name) && RelationsOk(m.relations, Declared(m.parameters))
    requires ParametersGivenBack(m.parameters, if m.relations == [] && m.constraints == [] then 2 else 1)
    requires ConstraintsOk(m.constraints, Declared(m.parameters))
    ensures IsGivenBack(m)
  {
    hide NameGivenBack, ParametersGivenBack, RelationsOk, ConstraintsOk, Declared;
  }

  lemma RestParses(s: string, j: nat, k: nat, m: Model)
    requires Span(s, j, k, RelationPart(PrintRelations(m.relations))) && j <= k <= |s|
    requires Span(s, k, |s|, ConstraintPart(m.constraints != [], PrintConstraints(m.constraints), "\n"))
    requires RelationsOk(m.relations, Declared(m.parameters)) && ConstraintsOk(m.constraints, Declared(m.parameters))
    ensures var ds := Declared(m.parameters);
            && Optional(RelationSection(s, j, ds), j) == Match(k, m.relations)
            && Optional(ConstraintSection(s, k, ds), k) == Match(|s|, m.constraints)
  {
    var ds := Declared(m.parameters);
    var ctexts := PrintConstraints(m.constraints);
    hide WellFormedRelation, WellFormedConstraint, RelationSection, ConstraintSection, Span, Optional, ReadsAs,
         PrintRelationWith, RelationPart, ConstraintPart, Spacing, SectionEnds, NotRelation, Declared, PrintConstraint;
    forall n | 0 <= n < |ctexts| ensures ReadsAs(ctexts[n], m.constraints[n], ds) {
      PrintedReadsAs(m.constraints[n], ds);
    }
    EachReadAs(ctexts, m.constraints, ds);
    EachRelationText(PrintRelations(m.relations), m.relations, ": (", ds);
    ConstraintPartSpan(s, k, m.constraints != [], ctexts, m.constraints, "\n", ds);
    RelationPartSpan(s, j, k, PrintRelations(m.relations), m.relations, ": (", ds);
  }

  lemma ModelFits(m: Model)
    requires IsGivenBack(m)
    ensures Parse(PrintModel(m)) == Match(|PrintModel(m)|, m)
  {
    var s := PrintModel(m);
    var i, j, k := CutModel(m);
    hide *;
    GivenBackParts(m);
    RestStarts(s, j, k, m);
    PartStarts(s, i, j, "Parameter", PrintParameters(m.parameters));
    StartsWithBracket(s, i, m.name);
    SystemFits(s, i, m.name);
    SectionFits(s, i, j, m.parameters);
    RestParses(s, j, k, m);
    Assembled(s, i, j, k, m);
  }

  lemma GivenBackParts(m: Model)
    requires IsGivenBack(m)
    ensures NameGivenBack(m.name) && RelationsOk(m.relations, Declared(m.parameters))
    ensures ParametersGivenBack(m.parameters, if m.relations == [] && m.constraints == [] then 2 else 1)
    ensures ConstraintsOk(m.constraints, Declared(m.parameters))
  {
    hide NameGivenBack, ParametersGivenBack, RelationsOk, ConstraintsOk, Declared;
  }

  lemma Assembled(s: string, i: nat, j: nat, k: nat, m: Model)
    requires i <= j <= k <= |s| && Spacing(s, 0) == 0
    requires SystemSection(s, 0) == Match(i, m.name) && ParameterSection(s, i) == Match(j, m.parameters)
    requires Optional(RelationSection(s, j, Declared(m.parameters)), j) == Match(k, m.relations)
    requires Optional(ConstraintSection(s, k, Declared(m.parameters)), k) == Match(|s|, m.constraints)
    ensures Parse(s) == Match(|s|, m)
  {
    hide SystemSection, ParameterSection, RelationSection, ConstraintSection, Optional, Declared, Spacing;
    assert [] + m.parameters == m.parameters && [] + m.relations == m.relations && [] + m.constraints == m.constraints;
  }

  /** The round trip, exactly: printing a model and parsing the text gives the model back if and only if it is of this
      form. */
  lemma RoundTripExactly(m: Model)
    ensures Parse(PrintModel(m)) == Match(|PrintModel(m)|, m) <==> IsGivenBack(m)
  {
    hide *;
    if IsGivenBack(m) { ModelFits(m); }
    if Parse(PrintModel(m)) == Match(|PrintModel(m)|, m) { ModelReadBack(m); }
  }

  /** Parsing, printing and parsing again, exactly: it is the same as parsing if and only if the parsed model is of this
      form. */
  lemma NormalisesExactly(s: string)
    requires Parse(s).Match?
    ensures var m := Parse(s).value;
            Parse(PrintModel(m)) == Match(|PrintModel(m)|, m) <==> TextsGivenBack(m)
  {
    hide *;
    ParsedParts(s);
    var m := Parse(s).value;
    RoundTripExactly(m);
    JustTheTexts(m);
  }

  lemma JustTheTexts(m: Model)
    requires RelationsOk(m.relations, Declared(m.parameters)) && ConstraintsOk(m.constraints, Declared(m.parameters))
    ensures IsGivenBack(m) <==> TextsGivenBack(m)
  {
    hide TextsGivenBack, RelationsOk, ConstraintsOk, Declared;
  }

  /** Well-formed models lack nothing. */
  lemma WellFormedIsGivenBack(m: Model)
    requires WellFormed(m)
    ensures IsGivenBack(m)
  {
    hide *;
    ParsePrint(m);
    RoundTripExactly(m);
  }

  // ---- Texts that are not given back ----------------------------------------------------------------------------

  /** A text with a single enum value, which stands there as `raw`. */
  function OneValueText(name: string, raw: string): string {
    PrintSystemSection("") + PrintSection("Parameter", [OneValueLine(name, raw)], "")
  }

  function OneValueLine(name: string, raw: string): string { name + " " + PrintType(ENUM) + raw }

  function OneValueModel(name: string, text: string): Model {
    Model("", [Parameter(name, ENUM, [EnumValue(text)])], [], [])
  }

  /** Where its value stands. */
  lemma CutOneValue(name: string, raw: string) returns (i: nat, j: nat, l: nat, k: nat)
    ensures var s := OneValueText(name, raw);
            && i < j <= l <= k < |s| && k + 1 == |s| && s[k] == '\n'
            && Span(s, 0, i, PrintSystemSection("")) && s[i] == '['
            && Span(s, j, l, name + " " + PrintType(ENUM)) && Span(s, l, k, raw)
            && SectionHeader(s, i, "Parameter") == Match(Spacing(s, j), ())
  {
    var s := OneValueText(name, raw);
    var line := OneValueLine(name, raw);
    assert [line][1..] == [] && Lines([]) == "";
    hide Span, Lines, PrintType, PrintSystemSection, SectionHeader, Spacing;
    WholeSpan(s);
    i := Cut(s, 0, |s|, PrintSystemSection(""), PrintSection("Parameter", [line], ""));
    var e, n;
    j, e := Cut3(s, i, |s|, "[" + "Parameter" + "]\n", Lines([line]), "");
    EmptySpan(s, e, |s|);
    HeaderSpan(s, i, j, "Parameter");
    k, n := CutLine(s, j, e, [line]);
    EmptySpan(s, n, e);
    l := Cut(s, j, k, name + " " + PrintType(ENUM), raw);
  }

  /** Whatever is not empty, starts with no comma, semicolon or white space and consists of code points other than
      commas, semicolons and breaks is accepted as a value. */
  lemma OneValueParses(name: string, raw: string)
    requires IsIdentifier(name) && raw != "" && raw[0] !in ",; \t\n\r" && Covers(",;\n\r", raw)
    ensures Parse(OneValueText(name, raw)) == Match(|OneValueText(name, raw)|, OneValueModel(name, Trimmed(raw)))
  {
    hide *;
    var s, m := OneValueText(name, raw), OneValueModel(name, Trimmed(raw));
    OneValueParts(name, Trimmed(raw));
    var i, j, l, k := CutOneValue(name, raw);
    EmptyNameIsGivenBack();
    SystemFits(s, i, "");
    StartsWithBracket(s, i, "");
    HeadSpan(s, j, l, name, ENUM);
    OneValueFits(s, l, k, raw);
    LineBreak(s, k);
    SolidWhitespace(s, l);
    SectionEndsThere(s);
    NoCommaAtEnd(s, k);
    NoMoreElements(s, k);
    OneElement(s, l, k, EnumValue(Trimmed(raw)));
    EnumRule(s, j, l, k, m.parameters[0]);
    IdentifierIsSolid(s, j);
    SpacingStops(s, j);
    NoParameters(s, |s|);
    MoreStep(s, j, k + 1, |s|, m.parameters);
    SectionOf(s, i, j, |s|, m.parameters);
    NothingFollows(s, Declared(m.parameters));
    Assembled(s, i, |s|, |s|, m);
  }

  lemma OneValueParts(name: string, text: string)
    ensures var m := OneValueModel(name, text);
            && m.name == "" && m.relations == [] && m.constraints == [] && |m.parameters| == 1 && m.parameters[1..] == []
            && m.parameters[0] == Parameter(name, ENUM, [EnumValue(text)])
  {}

  lemma EmptyNameIsGivenBack()
    ensures NameGivenBack("")
  {}

  lemma OneValueFits(s: string, l: nat, k: nat, raw: string)
    requires Span(s, l, k, raw) && k < |s| && s[k] == '\n'
    requires raw != "" && raw[0] !in ",; \t\n\r" && Covers(",;\n\r", raw)
    ensures l < k && !InClass(White, s[l]) && Element(EnumElement, s, l, {}) == Match(k, EnumValue(Trimmed(raw)))
  {
    SpanBounds(s, l, k, raw);
    SliceSpan(s, l, k, raw);
    BreakStops(s, k);
    assert At(s, l, raw) && l + |raw| == k;
    hide At, Covers, Trimmed, Span;
    SkipCovered(",;\n\r", s, l, raw);
    FirstCodepoint(s, l, raw[0]);
    hide SkipText, AnyExcept;
  }

  lemma SectionEndsThere(s: string)
    ensures SectionEnds(s, |s|) && Spacing(s, |s|) == |s| && Whitespace(s, |s|) == |s|
  {}

  lemma NoCommaAtEnd(s: string, k: nat)
    requires k + 1 == |s| && s[k] == '\n'
    ensures NoComma(s, k)
  {
    assert Whitespace(s, k + 1) == k + 1;
  }

  lemma OneElement(s: string, l: nat, k: nat, v: Value)
    requires l < k <= |s| && Element(EnumElement, s, l, {}) == Match(k, v) && MoreElements(EnumElement, s, k, {}) == Match(k, [])
    ensures List(EnumElement, s, l, {}) == Match(k, [v])
  {
    hide Element, MoreElements;
    assert [v] + [] == [v];
  }

  lemma NothingFollows(s: string, ds: set<string>)
    ensures Optional(RelationSection(s, |s|, ds), |s|) == Match(|s|, [])
    ensures Optional(ConstraintSection(s, |s|, ds), |s|) == Match(|s|, [])
  {}

  lemma OneValueGivenBack(name: string, text: string)
    requires IsGivenBack(OneValueModel(name, text))
    ensures TextGivenBack(EnumValue(text), 2)
  {
    OneValueParts(name, text);
    hide NameGivenBack, RelationsOk, ConstraintsOk, TextGivenBack, IsIdentifier;
    assert AllGivenBack([EnumValue(text)], 2);
    assert [EnumValue(text)][0] == EnumValue(text);
  }

  /** A vertical tab alone is accepted as a value and trimmed to nothing, so what is printed is not read back. */
  lemma VerticalTabIsLost(name: string)
    requires IsIdentifier(name)
    ensures var s, m := OneValueText(name, "\U{0B}"), OneValueModel(name, "");
            Parse(s) == Match(|s|, m) && Parse(PrintModel(m)) != Match(|PrintModel(m)|, m)
  {
    VerticalTab();
    hide *;
    var m := OneValueModel(name, "");
    OneValueParses(name, "\U{0B}");
    RoundTripExactly(m);
    NotEmptyText(2);
    if IsGivenBack(m) { OneValueGivenBack(name, ""); }
  }

  lemma NotEmptyText(spare: nat)
    ensures !TextGivenBack(EnumValue(""), spare)
  {}

  lemma VerticalTab()
    ensures "\U{0B}"[0] !in ",; \t\n\r" && Covers(",;\n\r", "\U{0B}") && Trimmed("\U{0B}") == ""
  {
    var s := "\U{0B}";
    assert TrimLeft(s) == TrimLeft(s[1..]) == "";
    assert SkipText(",;\n\r", s, 1) == 1;
  }

  /** A code point whose other bytes are spaces is accepted and cut. The two lines after the value lend what one of two or
      three bytes lacks, so that its model is given back although it is not well-formed; they do not lend enough for one
      of four bytes. */
  lemma CutCodepoint(name: string, c: char, spaces: string)
    requires IsIdentifier(name) && c as int >= 0xC0 && Announced(c) > 1
    requires |spaces| + 1 == Announced(c) && forall k | 0 <= k < |spaces| :: spaces[k] == ' '
    ensures var s, m := OneValueText(name, [c] + spaces), OneValueModel(name, [c]);
            && Parse(s) == Match(|s|, m) && !TextTrims(s) && !WellFormed(m)
            && (Parse(PrintModel(m)) == Match(|PrintModel(m)|, m) <==> Announced(c) < 4)
  {
    hide *;
    var m := OneValueModel(name, [c]);
    CutIsAccepted(c, spaces);
    OneValueParses(name, [c] + spaces);
    Lacking(c);
    OneByteModel(name, c);
    RoundTripExactly(m);
    IntoEmpty(OneValueText(name, [c] + spaces));
    ParsedIsWellFormed(OneValueText(name, [c] + spaces), EmptyModel());
  }

  lemma IntoEmpty(s: string)
    ensures Consistent(EmptyModel()) && Parse(s) == ParseInto(s, EmptyModel())
  {
    hide ParseInto;
  }

  lemma CutIsAccepted(c: char, spaces: string)
    requires c as int >= 0xC0 && |spaces| + 1 == Announced(c) && forall k | 0 <= k < |spaces| :: spaces[k] == ' '
    ensures var s := [c] + spaces;
            s != "" && s[0] !in ",; \t\n\r" && Covers(",;\n\r", s) && Trimmed(s) == [c]
  {
    var s := [c] + spaces;
    assert SkipText(",;\n\r", s, |s|) == |s|;
    assert s[..1] == [c] && s[0..1] == [c];
    TrimmedBetween(s, 0, 1);
  }

  lemma Lacking(c: char)
    requires c as int >= 0xC0 && Announced(c) > 1
    ensures Missing(",;\n\r", [c]) == Announced(c) - 1 && IsTrimmed([c])
  {
    assert SkipText(",;\n\r", [c], 0) == 0;
  }

  lemma OneByteModel(name: string, c: char)
    requires IsIdentifier(name) && c as int >= 0xC0 && Missing(",;\n\r", [c]) > 0 && IsTrimmed([c])
    ensures IsGivenBack(OneValueModel(name, [c])) <==> Missing(",;\n\r", [c]) <= 2
    ensures !WellFormed(OneValueModel(name, [c]))
  {
    OneValueParts(name, [c]);
    OneByteValue(c);
    var v := EnumValue([c]);
    LacksNone(v);
    hide IsIdentifier, Missing, WellFormedValue, TextGivenBack;
    var p := OneValueModel(name, [c]).parameters[0];
    assert p.values[0] == v;
    if TextGivenBack(v, 2) { assert AllGivenBack([v], 2); }
  }

  lemma OneByteValue(c: char)
    requires c as int >= 0xC0 && IsTrimmed([c])
    ensures forall spare :: TextGivenBack(EnumValue([c]), spare) <==> Missing(",;\n\r", [c]) <= spare
  {
    hide Missing, IsTrimmed;
  }
}
