/** Printing a whole model and parsing the text gives the model back. */
module ModelRoundTrip {
  import opened Text
  import opened Acts
  import opened Rules
  import opened RoundTrip

  // ---- White space -----------------------------------------------------------------------

  /** Neither white space nor the start of a comment. */
  predicate IsSolid(c: char) { !InClass(White, c) && c != '-' }

  lemma SpacingStops(s: string, i: nat)
    requires i <= |s| && (i < |s| ==> IsSolid(s[i]))
    ensures Spacing(s, i) == i && Whitespace(s, i) == i
  {
    if i < |s| { NotAt(s, i, "--"); }
  }

  lemma {:induction false} SpacingAfterWhitespace(s: string, i: nat)
    requires i <= |s|
    ensures Spacing(s, Whitespace(s, i)) == Spacing(s, i)
    decreases |s| - i
  {
    if i < |s| && InClass(White, s[i]) { SpacingAfterWhitespace(s, i + 1); }
  }

  predicate NoComma(s: string, i: nat) { i <= |s| && !At(s, Whitespace(s, i), ",") }

  /** When no comma follows the spacing, none follows the white space either. */
  lemma NoCommaAfter(s: string, i: nat)
    requires i <= |s| && (Spacing(s, i) < |s| ==> s[Spacing(s, i)] != ',')
    ensures NoComma(s, i)
  {
    SpacingAfterWhitespace(s, i);
    var w := Whitespace(s, i);
    if w < |s| && s[w] == ',' { SpacingStops(s, w); }
    NoCommaAt(s, w);
  }

  lemma NoCommaAt(s: string, i: nat)
    requires i <= |s| && (i < |s| ==> s[i] != ',')
    ensures !At(s, i, ",")
  {
    NotAt(s, i, ",");
  }

  /** An end of line and the blank lines after it. */
  lemma LineBreak(s: string, i: nat)
    requires i < |s| && s[i] == '\n'
    ensures LineEnd(s, i) == Match(i + 1, ()) && Spaces(s, i) == i && Spacing(s, i) == Spacing(s, i + 1)
    ensures Whitespace(s, i) == Whitespace(s, i + 1)
  {}

  // ---- Lists of values ----------------------------------------------------------------------

  lemma TrimmedStays(v: string)
    requires IsTrimmed(v)
    ensures Trimmed(v) == v
  {}

  lemma EnumText(s: string, i: nat, j: nat, v: string)
    requires WellFormedValue(ENUM, EnumValue(v)) && Span(s, i, j, v) && j < |s| && (s[j] == ',' || s[j] == '\n')
    ensures i < j && s[i] == v[0] && SkipText(",;\n\r", s, i) == j
  {
    SpanBounds(s, i, j, v);
    SkipCovered(",;\n\r", s, i, v);
  }

  lemma EnumSpan(s: string, i: nat, j: nat, v: string)
    requires WellFormedValue(ENUM, EnumValue(v)) && Span(s, i, j, v) && j < |s| && (s[j] == ',' || s[j] == '\n')
    ensures i < j && !InClass(White, s[i]) && Element(EnumElement, s, i, {}) == Match(j, EnumValue(v))
  {
    hide *;
    EnumParts(v);
    EnumText(s, i, j, v);
    TrimmedStays(v);
    SliceSpan(s, i, j, v);
    EnumReads(s, i, j, v);
  }

  lemma EnumParts(v: string)
    requires WellFormedValue(ENUM, EnumValue(v))
    ensures v != [] && v[0] !in ",; \t\n\r" && IsTrimmed(v)
  {}

  /** An enum value: what the run of code points from here is trimmed to. */
  lemma EnumReads(s: string, i: nat, j: nat, v: string)
    requires v != [] && v[0] !in ",; \t\n\r" && i < j <= |s| && s[i] == v[0]
    requires SkipText(",;\n\r", s, i) == j && Trimmed(s[i..j]) == v
    ensures !InClass(White, s[i]) && Element(EnumElement, s, i, {}) == Match(j, EnumValue(v))
  {
    FirstCodepoint(s, i, v[0]);
    hide SkipText, AnyExcept, Trimmed;
  }

  lemma FirstCodepoint(s: string, i: nat, c: char)
    requires i < |s| && s[i] == c && c !in ",; \t\n\r" && SkipText(",;\n\r", s, i) > i
    ensures var r := AnyExcept(",; \t\n\r", s, i);
            r.Some? && SkipText(",;\n\r", s, r.value) == SkipText(",;\n\r", s, i)
    ensures !InClass(White, c)
  {
    var stop := ",; \t\n\r";
    assert stop[2] != c && stop[3] != c && stop[4] != c && stop[5] != c;
  }

  lemma NumberSpan(s: string, i: nat, j: nat, n: int)
    requires FitsInt(n) && Span(s, i, j, IntToString(n)) && j < |s| && !IsDigit(s[j])
    ensures i < j && !InClass(White, s[i]) && Element(IntegerElement, s, i, {}) == Match(j, IntValue(n))
  {
    SpanBounds(s, i, j, IntToString(n));
    NumeralStarts(n);
    hide Span, Integer, IntToString;
    IntegerSpan(s, i, j, n);
  }

  lemma ValueSpan(s: string, i: nat, j: nat, t: ParameterType, v: Value)
    requires WellFormedValue(t, v) && Span(s, i, j, PrintValue(v)) && j < |s| && (s[j] == ',' || s[j] == '\n')
    ensures i < j && !InClass(White, s[i]) && Element(KindOf(t), s, i, {}) == Match(j, v)
  {
    SpanBounds(s, i, j, PrintValue(v));
    match t {
      case BOOLEAN =>
        hide Span;
        BooleanSpan(s, i, j, v.b);
      case ENUM =>
        hide Span, Element, Covers, Trimmed, IsTrimmed;
        EnumSpan(s, i, j, v.text);
      case INTEGER =>
        NumberSpan(s, i, j, v.n);
    }
  }

  /** ", " before an element. */
  lemma CommaSpan(s: string, i: nat, j: nat)
    requires Span(s, i, j, ", ")
    ensures i + 2 == j <= |s| && s[i] == ',' && At(s, i, ",") && Whitespace(s, i) == i
    ensures Whitespace(s, i + 1) == Whitespace(s, j) && (j < |s| && !InClass(White, s[j]) ==> Whitespace(s, j) == j)
  {
    SpanBounds(s, i, j, ", ");
    AtSecond(s, i, ", ");
  }

  lemma {:induction false} MoreValuesSpan(s: string, i: nat, e: nat, t: ParameterType, vs: seq<Value>)
    requires forall k | 0 <= k < |vs| :: WellFormedValue(t, vs[k])
    requires Span(s, i, e, PrintMoreValues(vs)) && e < |s| && s[e] == '\n' && NoComma(s, e)
    decreases |vs|
    ensures i <= e && (s[i] == ',' || s[i] == '\n') && MoreElements(KindOf(t), s, i, {}) == Match(e, vs)
  {
    if vs == [] {
      EmptySpan(s, i, e);
      hide At, Whitespace, Span, Element;
      assert NextElement(KindOf(t), s, i, {}) == NoMatch;
    } else {
      hide Span, WellFormedValue, MoreElements, NoComma;
      var j, k := Cut3(s, i, e, ", ", PrintValue(vs[0]), PrintMoreValues(vs[1..]));
      MoreValuesSpan(s, k, e, t, vs[1..]);
      FirstOfMoreValues(s, i, j, k, e, t, vs);
    }
  }

  lemma FirstOfMoreValues(s: string, i: nat, j: nat, k: nat, e: nat, t: ParameterType, vs: seq<Value>)
    requires vs != [] && WellFormedValue(t, vs[0])
    requires Span(s, i, j, ", ") && Span(s, j, k, PrintValue(vs[0])) && k <= e < |s| && (s[k] == ',' || s[k] == '\n')
    requires MoreElements(KindOf(t), s, k, {}) == Match(e, vs[1..])
    ensures i < j && s[i] == ',' && MoreElements(KindOf(t), s, i, {}) == Match(e, vs)
  {
    hide Span, WellFormedValue, Element, MoreElements, Whitespace, At, PrintValue;
    ValueSpan(s, j, k, t, vs[0]);
    CommaSpan(s, i, j);
    OneMoreElement(s, i, j, k, e, KindOf(t), vs, {});
  }

  lemma OneMoreElement(s: string, i: nat, j: nat, k: nat, e: nat, kind: ElementKind, vs: seq<Value>, ds: set<string>)
    requires vs != [] && i + 2 == j <= k <= e <= |s|
    requires At(s, i, ",") && Whitespace(s, i) == i && Whitespace(s, i + 1) == j
    requires Element(kind, s, j, ds) == Match(k, vs[0]) && MoreElements(kind, s, k, ds) == Match(e, vs[1..])
    ensures MoreElements(kind, s, i, ds) == Match(e, vs)
  {
    hide At, Whitespace, Element;
    assert NextElement(kind, s, i, ds) == Match(k, vs[0]);
    assert [vs[0]] + vs[1..] == vs;
  }

  lemma ValuesSpan(s: string, i: nat, e: nat, t: ParameterType, vs: seq<Value>)
    requires vs != [] && forall k | 0 <= k < |vs| :: WellFormedValue(t, vs[k])
    requires Span(s, i, e, PrintValues(vs)) && e < |s| && s[e] == '\n' && NoComma(s, e)
    ensures i < e && !InClass(White, s[i]) && List(KindOf(t), s, i, {}) == Match(e, vs)
  {
    hide Span, WellFormedValue, Element, MoreElements, NoComma;
    var j := Cut(s, i, e, PrintValue(vs[0]), PrintMoreValues(vs[1..]));
    MoreValuesSpan(s, j, e, t, vs[1..]);
    ValueSpan(s, i, j, t, vs[0]);
    assert [vs[0]] + vs[1..] == vs;
  }

  // ---- Parameters ----------------------------------------------------------------------------

  lemma OnlyTypeWord(s: string, i: nat, j: nat, t: ParameterType)
    requires Span(s, i, j, TypeWord(t)) && j < |s| && s[j] == ')'
    ensures i < j && !InClass(White, s[i]) && ParameterTypeName(t, s, i) == Match(j, ())
    ensures forall u | u != t :: ParameterTypeName(u, s, i) == NoMatch
  {
    LitISpan(s, i, j, TypeWord(t), TypeWord(t));
    SpanBounds(s, i, j, TypeWord(t));
    if !t.BOOLEAN? { NotLitI(s, i, "boolean"); NotLitI(s, i, "bool"); }
    if !t.ENUM? { NotLitI(s, i, "enum"); }
    if !t.INTEGER? { NotLitI(s, i, "integer"); NotLitI(s, i, "int"); }
    if t.INTEGER? && AtI(s, i, "integer") { FourthLetter(s, i, "integer"); }
  }

  lemma FourthLetter(s: string, i: nat, t: string)
    requires AtI(s, i, t) && |t| > 3
    ensures ToLower(s[i + 3]) == ToLower(t[3])
  {}

  lemma TagEnd(s: string, i: nat, j: nat)
    requires Span(s, i, j, ") : ")
    ensures j == i + 4 <= |s| && s[i] == ')' && At(s, i, ")") && Whitespace(s, i) == i
    ensures Whitespace(s, i + 1) == i + 2 && At(s, i + 2, ":") && Whitespace(s, i + 3) == Whitespace(s, j)
  {
    var t := ") : ";
    assert s[i + 0] == t[0] && s[i + 1] == t[1] && s[i + 2] == t[2] && s[i + 3] == t[3];
    RunEnds(White, s, i + 1, i + 2);
  }

  /** The type decides which of the three alternatives gets past the tag. */
  lemma TagSpan(s: string, i: nat, j: nat, t: ParameterType)
    requires Span(s, i, j, PrintType(t))
    ensures i + 4 < j <= |s| && s[i] == '(' && TypeTag(t, s, i) == Match(j - 3, ())
    ensures Whitespace(s, j - 3) == j - 2 && At(s, j - 2, ":") && Whitespace(s, j - 1) == Whitespace(s, j)
    ensures forall u | u != t :: TypeTag(u, s, i) == NoMatch
  {
    hide Span, ParameterTypeName, TypeWord, At, Whitespace;
    var k, l := Cut3(s, i, j, "(", TypeWord(t), ") : ");
    TagEnd(s, l, j);
    OnlyTypeWord(s, k, l, t);
    LitSpan(s, i, k, "(");
    SpanBounds(s, i, k, "(");
    SolidWhitespace(s, k);
  }

  lemma SolidWhitespace(s: string, i: nat)
    requires i < |s| && !InClass(White, s[i])
    ensures Whitespace(s, i) == i
  {}

  lemma HeadSpan(s: string, i: nat, j: nat, name: string, t: ParameterType)
    requires IsIdentifier(name) && Span(s, i, j, name + " " + PrintType(t))
    ensures i < j <= |s| && IsIdentifierStart(s[i]) && ParameterHead(t, s, i) == Match(j - 1, name)
    ensures Whitespace(s, j - 1) == Whitespace(s, j)
    ensures forall u | u != t :: ParameterHead(u, s, i) == NoMatch
  {
    hide Span, TypeTag, At, Whitespace, PrintType;
    var k, l := Cut3(s, i, j, name, " ", PrintType(t));
    TagSpan(s, l, j, t);
    OneBlank(s, k, l);
    IdentifierSpan(s, i, k, name);
    assert At(s, j - 2, ":") ==> Lit(s, j - 2, ":") == Match(j - 1, ());
    hide Identifier;
    assert IsIdentifierStart(s[i]) by { SpanBounds(s, i, k, name); }
  }

  lemma OneBlank(s: string, i: nat, j: nat)
    requires Span(s, i, j, " ") && j < |s| && !InClass(White, s[j])
    ensures i < j && s[i] == ' ' && Whitespace(s, i) == j && Spaces(s, i) == j
  {
    SpanBounds(s, i, j, " ");
    RunEnds(White, s, i, j);
    RunEnds(Blank, s, i, j);
  }

  lemma ParameterSpan(s: string, i: nat, e: nat, p: Parameter)
    requires WellFormedParameter(p) && Span(s, i, e, PrintParameter(p)) && e < |s| && s[e] == '\n' && NoComma(s, e)
    ensures i < e && IsIdentifierStart(s[i]) && ParameterRule(s, i) == Match(e + 1, p)
  {
    var t := p.ptype;
    hide Span, ParameterHead, List, PrintType, NoComma, Spaces;
    var j := Cut(s, i, e, p.name + " " + PrintType(t), PrintValues(p.values));
    ValuesSpan(s, j, e, t, p.values);
    HeadSpan(s, i, j, p.name, t);
    SolidWhitespace(s, j);
    LineBreak(s, e);
    assert ParameterOf(t, s, i) == Match(e + 1, p);
    assert forall u | u != t :: ParameterOf(u, s, i) == NoMatch;
  }

  /** A section ends where the next one begins, or with the input. */
  predicate SectionEnds(s: string, i: nat) { i <= |s| && (i < |s| ==> s[i] == '[') }

  lemma {:induction false} ParameterLines(s: string, i: nat, e: nat, ps: seq<Parameter>)
    requires forall k | 0 <= k < |ps| :: WellFormedParameter(ps[k])
    requires Span(s, i, e, Lines(PrintParameters(ps))) && e <= |s| && SectionEnds(s, Spacing(s, e))
    ensures i <= e && MoreParameters(s, Spacing(s, i)) == Match(Spacing(s, e), ps)
    ensures Spacing(s, i) < |s| ==> s[Spacing(s, i)] != ','
    decreases |ps|
  {
    if ps == [] {
      EmptySpan(s, i, e);
      NoParameter(s, Spacing(s, e));
      hide ParameterRule, Spacing, Span, At;
    } else {
      assert PrintParameters(ps)[1..] == PrintParameters(ps[1..]);
      assert PrintParameters(ps)[0] == PrintParameter(ps[0]);
      hide *;
      var j, k := CutLine(s, i, e, PrintParameters(ps));
      ParameterLines(s, k, e, ps[1..]);
      FirstParameterLine(s, i, j, e, ps);
    }
  }

  lemma FirstParameterLine(s: string, i: nat, j: nat, e: nat, ps: seq<Parameter>)
    requires ps != [] && WellFormedParameter(ps[0]) && Span(s, i, j, PrintParameter(ps[0]))
    requires j < e <= |s| && s[j] == '\n' && (Spacing(s, j + 1) < |s| ==> s[Spacing(s, j + 1)] != ',')
    requires MoreParameters(s, Spacing(s, j + 1)) == Match(Spacing(s, e), ps[1..])
    ensures i < j && MoreParameters(s, Spacing(s, i)) == Match(Spacing(s, e), ps)
    ensures Spacing(s, i) < |s| ==> s[Spacing(s, i)] != ','
  {
    hide *;
    ParameterLine(s, i, j, ps[0]);
    OneMoreParameter(s, i, j + 1, e, ps);
  }

  lemma ParameterLine(s: string, i: nat, j: nat, p: Parameter)
    requires WellFormedParameter(p) && Span(s, i, j, PrintParameter(p))
    requires j < |s| && s[j] == '\n' && (Spacing(s, j + 1) < |s| ==> s[Spacing(s, j + 1)] != ',')
    ensures i < j && s[i] != ',' && Spacing(s, i) == i && ParameterRule(s, i) == Match(j + 1, p)
  {
    hide *;
    LineBreak(s, j);
    NoCommaAfter(s, j);
    ParameterSpan(s, i, j, p);
    IdentifierIsSolid(s, i);
    SpacingStops(s, i);
  }

  lemma OneMoreParameter(s: string, i: nat, k: nat, e: nat, ps: seq<Parameter>)
    requires ps != [] && i < k <= e <= |s| && ParameterRule(s, i) == Match(k, ps[0])
    requires MoreParameters(s, Spacing(s, k)) == Match(Spacing(s, e), ps[1..])
    ensures MoreParameters(s, i) == Match(Spacing(s, e), ps)
  {
    hide ParameterRule, Spacing;
    assert [ps[0]] + ps[1..] == ps;
  }

  lemma NoParameter(s: string, i: nat)
    requires SectionEnds(s, i)
    ensures ParameterRule(s, i) == NoMatch
  {}

  lemma OneCharacter(s: string, i: nat, j: nat, t: string)
    requires Span(s, i, j, t) && |t| == 1
    ensures j == i + 1
  {}

  /** The first of several lines. */
  lemma CutLine(s: string, i: nat, e: nat, texts: seq<string>) returns (j: nat, k: nat)
    requires texts != [] && Span(s, i, e, Lines(texts))
    ensures i <= j < k <= e <= |s| && k == j + 1 && Span(s, i, j, texts[0]) && s[j] == '\n'
    ensures Span(s, k, e, Lines(texts[1..]))
  {
    hide Span;
    j, k := Cut3(s, i, e, texts[0], "\n", Lines(texts[1..]));
    SpanBounds(s, j, k, "\n");
    OneCharacter(s, j, k, "\n");
  }

  // ---- Relations -------------------------------------------------------------------------------

  function NameValues(names: seq<string>): (vs: seq<Value>)
    ensures Names(vs) == names
  {
    seq(|names|, k requires 0 <= k < |names| => EnumValue(names[k]))
  }

  predicate AllDeclared(names: seq<string>, ds: set<string>) {
    forall k | 0 <= k < |names| :: names[k] in ds && IsIdentifier(names[k])
  }

  lemma RestDeclared(names: seq<string>, ds: set<string>)
    requires names != [] && AllDeclared(names, ds)
    ensures names[0] in ds && IsIdentifier(names[0]) && AllDeclared(names[1..], ds)
  {
    hide IsIdentifier;
  }

  lemma NameSpan(s: string, i: nat, j: nat, name: string, ds: set<string>)
    requires IsIdentifier(name) && name in ds && Span(s, i, j, name) && j < |s| && s[j] == ','
    ensures i < j && IsIdentifierStart(s[i]) && Element(NameElement, s, i, ds) == Match(j, EnumValue(name))
  {
    IdentifierSpan(s, i, j, name);
  }

  lemma NoMoreNames(s: string, i: nat, j: nat, ds: set<string>)
    requires Span(s, i, j, ", ") && j < |s| && IsDigit(s[j])
    ensures i + 2 == j && s[i] == ',' && At(s, i, ",") && Whitespace(s, i + 1) == j
    ensures MoreElements(NameElement, s, i, ds) == Match(i, [])
  {
    CommaSpan(s, i, j);
    hide At, Whitespace;
    assert NextElement(NameElement, s, i, ds) == NoMatch;
  }

  lemma FirstOfMoreNames(s: string, i: nat, j: nat, k: nat, e: nat, names: seq<string>, ds: set<string>)
    requires names != [] && names[0] in ds && IsIdentifier(names[0])
    requires Span(s, i, j, ", ") && Span(s, j, k, names[0]) && k < |s| && s[k] == ',' && k <= e <= |s|
    requires MoreElements(NameElement, s, k, ds) == Match(e, NameValues(names[1..]))
    ensures i < j && s[i] == ',' && MoreElements(NameElement, s, i, ds) == Match(e, NameValues(names))
  {
    hide Span, At, MoreElements, Element, Whitespace;
    NameSpan(s, j, k, names[0], ds);
    CommaSpan(s, i, j);
    assert NameValues(names)[1..] == NameValues(names[1..]);
    OneMoreElement(s, i, j, k, e, NameElement, NameValues(names), ds);
  }

  lemma {:induction false} MoreNamesSpan(s: string, i: nat, j: nat, e: nat, names: seq<string>, ds: set<string>)
    requires AllDeclared(names, ds)
    requires Span(s, i, j, ", ") && Span(s, j, e, PrintReferences(names)) && e < |s| && IsDigit(s[e])
    ensures i < j <= e && s[i] == ',' && s[e - 2] == ',' && At(s, e - 2, ",") && Whitespace(s, e - 1) == e
    ensures MoreElements(NameElement, s, i, ds) == Match(e - 2, NameValues(names))
    decreases |names|
  {
    if names == [] {
      NoMoreNames(s, i, j, ds);
    } else {
      hide *;
      RestDeclared(names, ds);
      var k, l := CutReferences(s, j, e, names);
      MoreNamesSpan(s, k, l, e, names[1..], ds);
      FirstOfMoreNames(s, i, j, k, e - 2, names, ds);
    }
  }

  lemma NamesSpan(s: string, i: nat, e: nat, names: seq<string>, ds: set<string>)
    requires names != [] && AllDeclared(names, ds)
    requires Span(s, i, e, PrintReferences(names)) && e < |s| && IsDigit(s[e])
    ensures i + 2 < e && IsIdentifierStart(s[i])
    ensures At(s, e - 2, ",") && Whitespace(s, e - 2) == e - 2 && Whitespace(s, e - 1) == e
    ensures List(NameElement, s, i, ds) == Match(e - 2, NameValues(names))
  {
    hide *;
    RestDeclared(names, ds);
    var j, k := CutReferences(s, i, e, names);
    MoreNamesSpan(s, j, k, e, names[1..], ds);
    NameSpan(s, i, j, names[0], ds);
    CommaIsSolid(s, e - 2);
    NamesList(s, i, j, e, names, ds);
  }

  lemma CutReferences(s: string, i: nat, e: nat, names: seq<string>) returns (j: nat, k: nat)
    requires names != [] && Span(s, i, e, PrintReferences(names))
    ensures i <= j <= k <= e <= |s| && Span(s, i, j, names[0]) && Span(s, j, k, ", ")
    ensures Span(s, k, e, PrintReferences(names[1..]))
  {
    hide Span;
    j, k := Cut3(s, i, e, names[0], ", ", PrintReferences(names[1..]));
  }

  lemma NamesList(s: string, i: nat, j: nat, e: nat, names: seq<string>, ds: set<string>)
    requires names != [] && i < j && j + 2 <= e <= |s|
    requires Element(NameElement, s, i, ds) == Match(j, EnumValue(names[0]))
    requires MoreElements(NameElement, s, j, ds) == Match(e - 2, NameValues(names[1..]))
    ensures List(NameElement, s, i, ds) == Match(e - 2, NameValues(names))
  {
    ConsNames(names);
    hide Element, MoreElements, NameValues;
  }

  lemma CommaIsSolid(s: string, i: nat)
    requires i < |s| && s[i] == ','
    ensures Whitespace(s, i) == i
  {}

  lemma ConsNames(names: seq<string>)
    requires names != []
    ensures [EnumValue(names[0])] + NameValues(names[1..]) == NameValues(names)
  {}

  lemma StrengthSpan(s: string, i: nat, j: nat, n: nat)
    requires n <= INT_MAX && Span(s, i, j, NatToString(n)) && j < |s| && s[j] == ')'
    ensures i < j && IsDigit(s[i]) && Strength(s, i) == Match(j, n)
  {
    assert IntToString(n) == NatToString(n);
    NumeralSpan(s, i, j, n);
    SliceSpan(s, i, j, NatToString(n));
    IntRoundTrip(n);
    hide ParseInt, NatToString, Span;
  }

  predicate IsOpening(opening: string) { opening == ": (" || opening == " : (" }

  lemma OpeningSpan(s: string, i: nat, j: nat, opening: string)
    requires IsOpening(opening) && Span(s, i, j, opening) && j < |s| && !InClass(White, s[j])
    ensures i < j && !IsIdentifierChar(s[i]) && i <= j - 3
    ensures Whitespace(s, i) == j - 3 && At(s, j - 3, ":")
    ensures Whitespace(s, j - 2) == j - 1 && At(s, j - 1, "(") && Whitespace(s, j) == j
  {
    assert s[i + 0] == opening[0] && s[i + 1] == opening[1] && s[i + 2] == opening[2];
    if |opening| == 4 { assert s[i + 3] == opening[3]; }
    RunEnds(White, s, i, j - 3);
    RunEnds(White, s, j - 2, j - 1);
  }

  lemma RelationHeadSpan(s: string, i: nat, j: nat, name: string, opening: string)
    requires IsOpening(opening) && IsIdentifier(name)
    requires Span(s, i, j, name + opening) && j < |s| && !InClass(White, s[j])
    ensures i < j && IsIdentifierStart(s[i]) && RelationHead(s, i) == Match(j, name) && Whitespace(s, j) == j
  {
    hide Span, At, Whitespace;
    var k := Cut(s, i, j, name, opening);
    OpeningSpan(s, k, j, opening);
    IdentifierSpan(s, i, k, name);
    assert IsIdentifierStart(s[i]) by { SpanBounds(s, i, k, name); }
    assert Lit(s, j - 3, ":") == Match(j - 2, ());
    assert Lit(s, j - 1, "(") == Match(j, ());
    hide Identifier, Lit;
  }

  lemma RelationSpan(s: string, i: nat, e: nat, r: Relation, opening: string, ds: set<string>)
    requires IsOpening(opening) && WellFormedRelation(r, ds)
    requires Span(s, i, e, PrintRelationWith(r, opening)) && e < |s| && s[e] == '\n'
    ensures i < e && IsIdentifierStart(s[i]) && RelationRule(s, i, ds) == Match(Spacing(s, e + 1), r)
  {
    hide Span, At, Whitespace, Spacing, RelationHead, List, Strength, Spaces, IsOpening;
    var k, l := Cut3(s, i, e, r.name + opening + PrintReferences(r.parameters), NatToString(r.strength), ")");
    var j := Cut(s, i, k, r.name + opening, PrintReferences(r.parameters));
    SpanBounds(s, l, e, ")");
    StrengthSpan(s, k, l, r.strength);
    NamesSpan(s, j, k, r.parameters, ds);
    IdentifierIsSolid(s, j);
    RelationHeadSpan(s, i, j, r.name, opening);
    LineBreak(s, e);
    LitSpan(s, l, e, ")");
    SolidWhitespace(s, l);
    RelationSteps(s, i, j, k, l, e, r, ds);
  }

  lemma IdentifierIsSolid(s: string, i: nat)
    requires i < |s| && IsIdentifierStart(s[i])
    ensures !InClass(White, s[i]) && IsSolid(s[i]) && s[i] != ','
  {}

  lemma RelationSteps(s: string, i: nat, j: nat, k: nat, l: nat, e: nat, r: Relation, ds: set<string>)
    requires i < j && j + 2 < k < l < e < |s| && LineEnd(s, e) == Match(e + 1, ()) && Spaces(s, e) == e
    requires RelationHead(s, i) == Match(j, r.name) && Whitespace(s, j) == j
    requires List(NameElement, s, j, ds) == Match(k - 2, NameValues(r.parameters))
    requires Lit(s, Whitespace(s, k - 2), ",") == Match(k - 1, ()) && Whitespace(s, k - 1) == k
    requires Strength(s, k) == Match(l, r.strength) && Lit(s, Whitespace(s, l), ")") == Match(e, ())
    ensures RelationRule(s, i, ds) == Match(Spacing(s, e + 1), r)
  {
    hide Whitespace, Spacing, RelationHead, List, Strength, Spaces, LineEnd, Lit, NameValues, Names;
    assert RelationNames(s, j, ds) == Match(k - 1, r.parameters);
    assert RelationStrength(s, k - 1) == Match(e, r.strength);
    hide RelationNames, RelationStrength;
  }

  lemma NoRelations(s: string, i: nat, ds: set<string>)
    requires SectionEnds(s, i)
    ensures Relations(s, i, ds) == Match(i, [])
  {
    assert RelationHead(s, i) == NoMatch;
    hide RelationHead;
    assert RelationRule(s, i, ds) == NoMatch;
  }

  predicate RelationText(t: string, r: Relation, opening: string, ds: set<string>) {
    WellFormedRelation(r, ds) && t == PrintRelationWith(r, opening)
  }

  /** The texts print the relations, which are well-formed. */
  predicate AllRelationTexts(texts: seq<string>, rs: seq<Relation>, opening: string, ds: set<string>) {
    && |texts| == |rs|
    && (rs != [] ==>
          && RelationText(texts[0], rs[0], opening, ds)
          && AllRelationTexts(texts[1..], rs[1..], opening, ds))
  }

  lemma {:induction false} EachRelationText(texts: seq<string>, rs: seq<Relation>, opening: string, ds: set<string>)
    requires |texts| == |rs|
    requires forall k | 0 <= k < |rs| :: RelationText(texts[k], rs[k], opening, ds)
    ensures AllRelationTexts(texts, rs, opening, ds)
    decreases |rs|
  {
    hide RelationText;
    if rs != [] { EachRelationText(texts[1..], rs[1..], opening, ds); }
  }

  lemma {:induction false} RelationLines(s: string, i: nat, e: nat, texts: seq<string>, rs: seq<Relation>,
                                         opening: string, ds: set<string>)
    requires IsOpening(opening) && AllRelationTexts(texts, rs, opening, ds)
    requires Span(s, i, e, Lines(texts)) && e <= |s| && SectionEnds(s, Spacing(s, e))
    ensures i <= e && Relations(s, Spacing(s, i), ds) == Match(Spacing(s, e), rs)
    decreases |rs|
  {
    hide *;
    if rs == [] {
      NoRelationLines(texts, rs, opening, ds);
      EmptySpan(s, i, e);
      NoRelations(s, Spacing(s, e), ds);
    } else {
      RestOfRelationTexts(texts, rs, opening, ds);
      var j, k := CutLine(s, i, e, texts);
      RelationLines(s, k, e, texts[1..], rs[1..], opening, ds);
      FirstRelationLine(s, i, j, e, texts[0], rs, opening, ds);
    }
  }

  lemma NoRelationLines(texts: seq<string>, rs: seq<Relation>, opening: string, ds: set<string>)
    requires rs == [] && AllRelationTexts(texts, rs, opening, ds)
    ensures Lines(texts) == ""
  {}

  lemma RestOfRelationTexts(texts: seq<string>, rs: seq<Relation>, opening: string, ds: set<string>)
    requires rs != [] && AllRelationTexts(texts, rs, opening, ds)
    ensures texts != [] && RelationText(texts[0], rs[0], opening, ds) && AllRelationTexts(texts[1..], rs[1..], opening, ds)
  {}

  lemma FirstRelationLine(s: string, i: nat, j: nat, e: nat, t: string, rs: seq<Relation>, opening: string, ds: set<string>)
    requires rs != [] && IsOpening(opening) && RelationText(t, rs[0], opening, ds)
    requires Span(s, i, j, t) && j < e <= |s| && s[j] == '\n'
    requires Relations(s, Spacing(s, j + 1), ds) == Match(Spacing(s, e), rs[1..])
    ensures i <= |s| && Relations(s, Spacing(s, i), ds) == Match(Spacing(s, e), rs)
  {
    hide Span, Spacing, RelationRule, Relations, PrintRelationWith, WellFormedRelation, IsOpening;
    RelationSpan(s, i, j, rs[0], opening, ds);
    SpacingStops(s, i);
    OneMoreRelation(s, i, Spacing(s, j + 1), Spacing(s, e), rs, ds);
  }

  lemma OneMoreRelation(s: string, i: nat, k: nat, e: nat, rs: seq<Relation>, ds: set<string>)
    requires rs != [] && i < k <= |s| && RelationRule(s, i, ds) == Match(k, rs[0])
    requires Relations(s, k, ds) == Match(e, rs[1..])
    ensures Relations(s, i, ds) == Match(e, rs)
  {
    hide RelationRule;
    assert [rs[0]] + rs[1..] == rs;
  }

  // ---- Lines of constraints ------------------------------------------------------------------------

  /** At the end of a line, `t` is read as constraint `c`. */
  ghost predicate ReadsAs(t: string, c: Constraint, ds: set<string>) {
    && t != "" && (t[0] == '(' || IsIdentifierStart(t[0]))
    && forall s: string, i: nat, j: nat | Span(s, i, j, t) && j < |s| && s[j] == '\n' && i <= |s| ::
      ImplicationRule(s, i, ds) == Match(j, c)
  }

  lemma PrintedReadsAs(c: Constraint, ds: set<string>)
    requires WellFormedConstraint(c, ds)
    ensures ReadsAs(PrintConstraint(c), c, ds)
  {
    var t := PrintConstraint(c);
    PrintStarts(c, ds);
    forall s: string, i: nat, j: nat | Span(s, i, j, t) && j < |s| && s[j] == '\n' && i <= |s|
      ensures ImplicationRule(s, i, ds) == Match(j, c)
    {
      StopsAt(s, j);
      ConstraintRoundTrip(s, i, c, ds);
    }
  }

  lemma NoConstraint(s: string, i: nat, ds: set<string>)
    requires SectionEnds(s, i)
    ensures ConstraintRule(s, i, ds) == NoMatch
  {
    NotAt(s, i, "(");
    assert Parenthesized(s, i, ds) == NoMatch;
    assert AtomicProp(s, i, ds) == NoMatch;
    hide At, AtomicProp, Parenthesized;
    assert Operand(s, i, ds) == NoMatch;
    assert OperandOf(AND, s, i, ds) == NoMatch;
    assert Operands(AND, s, i, ds) == NoMatch;
    assert OperandOf(OR, s, i, ds) == NoMatch;
    hide OperandOf;
    assert Operands(OR, s, i, ds) == NoMatch;
  }

  lemma ConstraintLine(s: string, i: nat, j: nat, t: string, c: Constraint, ds: set<string>)
    requires ReadsAs(t, c, ds) && Span(s, i, j, t) && j < |s| && s[j] == '\n'
    ensures i < j && IsSolid(s[i]) && ConstraintRule(s, i, ds) == Match(Spacing(s, j + 1), c)
  {
    SpanBounds(s, i, j, t);
    LineBreak(s, j);
    hide Spacing, LineEnd, Spaces;
  }

  ghost predicate AllReadAs(texts: seq<string>, cs: seq<Constraint>, ds: set<string>) {
    |texts| == |cs| && (cs != [] ==> ReadsAs(texts[0], cs[0], ds) && AllReadAs(texts[1..], cs[1..], ds))
  }

  lemma {:induction false} EachReadAs(texts: seq<string>, cs: seq<Constraint>, ds: set<string>)
    requires |texts| == |cs| && forall k | 0 <= k < |cs| :: ReadsAs(texts[k], cs[k], ds)
    ensures AllReadAs(texts, cs, ds)
    decreases |cs|
  {
    hide ReadsAs;
    if cs != [] { EachReadAs(texts[1..], cs[1..], ds); }
  }

  lemma {:induction false} ConstraintLines(s: string, i: nat, e: nat, texts: seq<string>, cs: seq<Constraint>,
                                           ds: set<string>)
    requires AllReadAs(texts, cs, ds)
    requires Span(s, i, e, Lines(texts)) && e <= |s| && Constraints(s, Spacing(s, e), ds) == Match(Spacing(s, e), [])
    ensures i <= e && Constraints(s, Spacing(s, i), ds) == Match(Spacing(s, e), cs)
    decreases |cs|
  {
    hide *;
    if cs == [] {
      NoConstraintLines(texts, cs, ds);
      EmptySpan(s, i, e);
    } else {
      RestReadAs(texts, cs, ds);
      var j, k := CutLine(s, i, e, texts);
      ConstraintLines(s, k, e, texts[1..], cs[1..], ds);
      FirstConstraintLine(s, i, j, e, texts[0], cs, ds);
    }
  }

  lemma NoConstraintLines(texts: seq<string>, cs: seq<Constraint>, ds: set<string>)
    requires cs == [] && AllReadAs(texts, cs, ds)
    ensures Lines(texts) == ""
  {}

  lemma NoConstraints(s: string, i: nat, ds: set<string>)
    requires SectionEnds(s, i)
    ensures Constraints(s, i, ds) == Match(i, [])
  {
    NoConstraint(s, i, ds);
    hide ConstraintRule;
  }

  lemma RestReadAs(texts: seq<string>, cs: seq<Constraint>, ds: set<string>)
    requires cs != [] && AllReadAs(texts, cs, ds)
    ensures texts != [] && ReadsAs(texts[0], cs[0], ds) && AllReadAs(texts[1..], cs[1..], ds)
  {
    hide ReadsAs;
  }

  lemma FirstConstraintLine(s: string, i: nat, j: nat, e: nat, t: string, cs: seq<Constraint>, ds: set<string>)
    requires cs != [] && ReadsAs(t, cs[0], ds) && Span(s, i, j, t) && j < e <= |s| && s[j] == '\n'
    requires Constraints(s, Spacing(s, j + 1), ds) == Match(Spacing(s, e), cs[1..])
    ensures i <= |s| && Constraints(s, Spacing(s, i), ds) == Match(Spacing(s, e), cs)
  {
    hide Span, Spacing, ConstraintRule, Constraints, ReadsAs;
    ConstraintLine(s, i, j, t, cs[0], ds);
    SpacingStops(s, i);
    OneMoreConstraint(s, i, Spacing(s, j + 1), Spacing(s, e), cs, ds);
  }

  lemma OneMoreConstraint(s: string, i: nat, k: nat, e: nat, cs: seq<Constraint>, ds: set<string>)
    requires cs != [] && i < k <= |s| && ConstraintRule(s, i, ds) == Match(k, cs[0])
    requires Constraints(s, k, ds) == Match(e, cs[1..])
    ensures Constraints(s, i, ds) == Match(e, cs)
  {
    hide ConstraintRule;
    assert [cs[0]] + cs[1..] == cs;
  }

  // ---- Sections ----------------------------------------------------------------------------------------

  lemma HeaderSpan(s: string, i: nat, j: nat, name: string)
    requires Span(s, i, j, "[" + name + "]\n") && name != "" && !InClass(White, name[0]) && name[0] != '-'
    ensures i + 1 < j <= |s| && s[i] == '[' && s[i + 1] == name[0]
    ensures SectionHeader(s, i, name) == Match(Spacing(s, j), ())
  {
    var k, l := Cut3(s, i, j, "[", name, "]\n");
    SpanBounds(s, i, k, "[");
    SpanBounds(s, k, l, name);
    SpanBounds(s, l, j, "]\n");
    AtSecond(s, l, "]\n");
    LitSpan(s, i, k, "[");
    LitISpan(s, k, l, name, name);
    assert At(s, l, "]");
    LineBreak(s, l + 1);
    SolidWhitespace(s, k);
    SolidWhitespace(s, l);
    hide Span, At, AtI, Spacing, LineEnd, Spaces, Whitespace;
  }

  /** A header of another section, or none. */
  lemma NoHeader(s: string, i: nat, name: string)
    requires name != "" && i <= |s|
    requires i < |s| ==> i + 1 < |s| && !InClass(White, s[i + 1]) && ToLower(s[i + 1]) != ToLower(name[0])
    ensures SectionHeader(s, i, name) == NoMatch
  {
    if i < |s| {
      SolidWhitespace(s, i + 1);
      NotLitI(s, i + 1, name);
      hide AtI, LitI;
    }
  }

  lemma NameStarts(s: string, i: nat, j: nat, name: string)
    requires IsTrimmed(name) && Span(s, i, j, name) && j < |s| && s[j] == '\n'
    ensures NoBlank(s, i)
  {
    SpanBounds(s, i, j, name);
    if name != "" {
      assert s[i] == name[0];
      NotTrimmable(name[0]);
    }
  }

  lemma NotTrimmable(c: char)
    requires !IsTrimmable(c)
    ensures !InClass(White, c) && !InClass(Blank, c)
  {
    var whitespace := " \t\n\U{0B}\U{0C}\r";
    assert whitespace[0] != c && whitespace[1] != c && whitespace[2] != c && whitespace[5] != c;
  }

  lemma NameSpanEnds(s: string, i: nat, j: nat, name: string)
    requires WellFormedName(name) && Span(s, i, j, name) && j < |s| && s[j] == '\n'
    ensures i <= j && NoBlank(s, i) && SkipText("\n\r", s, i) == j && Trimmed(s[i..j]) == name
  {
    SliceSpan(s, i, j, name);
    SkipCovered("\n\r", s, i, name);
    TrimmedStays(name);
    NameStarts(s, i, j, name);
    hide *;
  }

  lemma NameLabel(s: string, i: nat, j: nat)
    requires Span(s, i, j, "Name: ") && NoBlank(s, j)
    ensures j == i + 6 <= |s| && IsSolid(s[i]) && LitI(s, i, "name") == Match(i + 4, ())
    ensures Whitespace(s, i + 4) == i + 4 && Lit(s, i + 4, ":") == Match(i + 5, ()) && Spaces(s, i + 5) == j
  {
    assert "Name" + ":" + " " == "Name: ";
    var k, l := Cut3(s, i, j, "Name", ":", " ");
    SpanBounds(s, i, k, "Name");
    SpanBounds(s, k, l, ":");
    LitISpan(s, i, k, "Name", "name");
    LitSpan(s, k, l, ":");
    Blank1(s, l, j);
  }

  /** Where the name stands in a printed section, and what decides how it is read. */
  lemma SystemLayout(s: string, i: nat, e: nat, name: string) returns (k: nat, l: nat)
    requires IsTrimmed(name) && Span(s, i, e, PrintSystemSection(name))
    ensures i < k <= l < e <= |s| && s[i] == '[' && Span(s, k, l, name) && Span(s, l, e, "\n\n")
    ensures SystemSection(s, i) == Match(Spacing(s, SkipText("\n\r", s, k)), Trimmed(s[k..SkipText("\n\r", s, k)]))
  {
    hide Span, SectionHeader, Spacing, Whitespace, LitI, Lit, Spaces, IsTrimmed, Trimmed, SkipText;
    var header := "[" + "System" + "]\n";
    l := Cut(s, i, e, header + "Name: " + name, "\n\n");
    var j;
    j, k := Cut3(s, i, l, header, "Name: ", name);
    BlankLine(s, l, e);
    NameStarts(s, k, l, name);
    NameLabel(s, j, k);
    HeaderSpan(s, i, j, "System");
    SpacingStops(s, j);
  }

  lemma SystemSpan(s: string, i: nat, e: nat, name: string)
    requires WellFormedName(name) && Span(s, i, e, PrintSystemSection(name))
    ensures i < e <= |s| && s[i] == '[' && SystemSection(s, i) == Match(Spacing(s, e), name)
  {
    hide Span, SystemSection, Spacing, SkipText, Trimmed, IsTrimmed, PrintSystemSection;
    var k, l := SystemLayout(s, i, e, name);
    BlankLine(s, l, e);
    NameSpanEnds(s, k, l, name);
  }

  lemma BlankLine(s: string, i: nat, e: nat)
    requires Span(s, i, e, "\n\n")
    ensures i < e <= |s| && s[i] == '\n' && Spacing(s, i) == Spacing(s, e)
  {
    SpanBounds(s, i, e, "\n\n");
    AtSecond(s, i, "\n\n");
  }

  predicate IsEnd(end: string) { end == "" || end == "\n" }

  /** What ends a section leaves the spacing after its lines as it is. */
  lemma EndSpan(s: string, i: nat, e: nat, end: string)
    requires IsEnd(end) && Span(s, i, e, end)
    ensures i <= e <= |s| && Spacing(s, i) == Spacing(s, e)
  {
    SpanBounds(s, i, e, end);
  }

  lemma SectionSpan(s: string, i: nat, e: nat, name: string, texts: seq<string>, end: string) returns (j: nat, k: nat)
    requires Span(s, i, e, PrintSection(name, texts, end)) && IsEnd(end)
    requires name != "" && !InClass(White, name[0]) && name[0] != '-'
    ensures i + 1 < j <= k <= e <= |s| && s[i] == '[' && s[i + 1] == name[0]
    ensures Span(s, j, k, Lines(texts)) && Spacing(s, k) == Spacing(s, e)
    ensures SectionHeader(s, i, name) == Match(Spacing(s, j), ())
  {
    hide Span, SectionHeader, Spacing;
    j, k := Cut3(s, i, e, "[" + name + "]\n", Lines(texts), end);
    HeaderSpan(s, i, j, name);
    EndSpan(s, k, e, end);
  }

  lemma SectionOf(s: string, i: nat, j: nat, e: nat, ps: seq<Parameter>)
    requires ps != [] && i <= |s| && j <= |s|
    requires SectionHeader(s, i, "Parameter") == Match(j, ()) && MoreParameters(s, j) == Match(e, ps)
    ensures ParameterSection(s, i) == Match(e, ps)
  {
    hide SectionHeader, ParameterRule, Spacing;
  }

  lemma ParameterSectionSpan(s: string, i: nat, e: nat, ps: seq<Parameter>)
    requires ps != [] && forall k | 0 <= k < |ps| :: WellFormedParameter(ps[k])
    requires Span(s, i, e, PrintSection("Parameter", PrintParameters(ps), "\n"))
    requires e <= |s| && SectionEnds(s, Spacing(s, e))
    ensures i < e && s[i] == '[' && ParameterSection(s, i) == Match(Spacing(s, e), ps)
  {
    hide Span, SectionHeader, Spacing, MoreParameters, ParameterSection, SectionEnds, WellFormedParameter, PrintParameters, Lines;
    var j, k := SectionSpan(s, i, e, "Parameter", PrintParameters(ps), "\n");
    ParameterLines(s, j, k, ps);
    SectionOf(s, i, Spacing(s, j), Spacing(s, e), ps);
  }

  lemma RelationSectionSpan(s: string, i: nat, e: nat, texts: seq<string>, rs: seq<Relation>, opening: string, ds: set<string>)
    requires IsOpening(opening) && AllRelationTexts(texts, rs, opening, ds)
    requires Span(s, i, e, PrintSection("Relation", texts, "\n"))
    requires e <= |s| && SectionEnds(s, Spacing(s, e))
    ensures i < e && s[i] == '[' && RelationSection(s, i, ds) == Match(Spacing(s, e), rs)
  {
    hide Span, SectionHeader, Spacing, Relations, SectionEnds, AllRelationTexts, IsOpening;
    var j, k := SectionSpan(s, i, e, "Relation", texts, "\n");
    RelationLines(s, j, k, texts, rs, opening, ds);
  }

  /** No header of relations starts here. */
  predicate NotRelation(s: string, i: nat) { i <= |s| && (i < |s| ==> i + 1 < |s| && s[i + 1] == 'C') }

  lemma ConstraintSectionSpan(s: string, i: nat, e: nat, texts: seq<string>, cs: seq<Constraint>, end: string, ds: set<string>)
    requires AllReadAs(texts, cs, ds) && IsEnd(end)
    requires Span(s, i, e, PrintSection("Constraint", texts, end)) && e == |s|
    ensures i < e && s[i] == '[' && ConstraintSection(s, i, ds) == Match(|s|, cs)
    ensures Spacing(s, i) == i && NotRelation(s, i)
  {
    hide Span, SectionHeader, Constraints, AllReadAs;
    var j, k := SectionSpan(s, i, e, "Constraint", texts, end);
    SpacingStops(s, |s|);
    NoConstraints(s, |s|, ds);
    ConstraintLines(s, j, k, texts, cs, ds);
    SpacingStops(s, i);
  }

  // ---- Documents -----------------------------------------------------------------------------------------

  /** The optional sections of a document: relations, and constraints, which end with `end`. */
  function RelationPart(texts: seq<string>): string {
    if texts == [] then "" else PrintSection("Relation", texts, "\n")
  }

  function ConstraintPart(present: bool, texts: seq<string>, end: string): string {
    if present then PrintSection("Constraint", texts, end) else ""
  }

  lemma ConstraintPartSpan(s: string, i: nat, present: bool, texts: seq<string>, cs: seq<Constraint>, end: string,
                           ds: set<string>)
    requires AllReadAs(texts, cs, ds) && IsEnd(end) && (!present ==> cs == [])
    requires i <= |s| && Span(s, i, |s|, ConstraintPart(present, texts, end))
    ensures SectionEnds(s, i) && Spacing(s, i) == i && NotRelation(s, i)
    ensures Optional(ConstraintSection(s, i, ds), i) == Match(|s|, cs)
  {
    if present {
      hide AllReadAs, ConstraintSection, Lines;
      ConstraintSectionSpan(s, i, |s|, texts, cs, end, ds);
    } else {
      NoHeader(s, i, "Constraint");
      SpacingStops(s, i);
    }
  }

  lemma RelationPartSpan(s: string, i: nat, e: nat, texts: seq<string>, rs: seq<Relation>, opening: string, ds: set<string>)
    requires IsOpening(opening) && AllRelationTexts(texts, rs, opening, ds)
    requires Span(s, i, e, RelationPart(texts))
    requires e <= |s| && SectionEnds(s, e) && Spacing(s, e) == e && NotRelation(s, e)
    ensures i <= e && SectionEnds(s, i) && Spacing(s, i) == i
    ensures Optional(RelationSection(s, i, ds), i) == Match(e, rs)
  {
    if rs == [] {
      assert i == e;
      NoHeader(s, i, "Relation");
    } else {
      hide RelationSection, Spacing, Span, AllRelationTexts, SectionEnds, NotRelation, IsOpening;
      RelationSectionSpan(s, i, e, texts, rs, opening, ds);
      SpacingStops(s, i);
    }
  }

  /** A document whose sections are laid out like this is parsed into exactly its content, after
      what the model held before. */
  lemma DocumentParses(s: string, m: Model, name: string, ps: seq<Parameter>, rtexts: seq<string>, rs: seq<Relation>,
                       opening: string, present: bool, ctexts: seq<string>, cs: seq<Constraint>, end: string)
    requires s == PrintSystemSection(name) + PrintSection("Parameter", PrintParameters(ps), "\n")
                  + RelationPart(rtexts) + ConstraintPart(present, ctexts, end)
    requires WellFormedName(name) && ps != [] && forall k | 0 <= k < |ps| :: WellFormedParameter(ps[k])
    requires IsOpening(opening) && AllRelationTexts(rtexts, rs, opening, Declared(m.parameters + ps))
    requires IsEnd(end) && (!present ==> cs == [])
    requires AllReadAs(ctexts, cs, Declared(m.parameters + ps))
    ensures ParseInto(s, m) == Match(|s|, Model(name, m.parameters + ps, m.relations + rs, m.constraints + cs))
  {
    var ds := Declared(m.parameters + ps);
    WholeSpan(s);
    hide Span, IsOpening, IsEnd, AllReadAs, AllRelationTexts, WellFormedParameter, WellFormedName, PrintRelationWith, PrintParameters,
         PrintSystemSection, PrintSection, Spacing, SystemSection, ParameterSection, RelationSection, ConstraintSection,
         Optional, SectionEnds, RelationPart, ConstraintPart, NotRelation, Declared;
    var j, k := Cut3(s, 0, |s|, PrintSystemSection(name) + PrintSection("Parameter", PrintParameters(ps), "\n"),
                     RelationPart(rtexts), ConstraintPart(present, ctexts, end));
    var i := Cut(s, 0, j, PrintSystemSection(name), PrintSection("Parameter", PrintParameters(ps), "\n"));
    ConstraintPartSpan(s, k, present, ctexts, cs, end, ds);
    RelationPartSpan(s, j, k, rtexts, rs, opening, ds);
    ParameterSectionSpan(s, i, j, ps);
    SystemSpan(s, 0, i, name);
    SpacingStops(s, 0);
    SpacingStops(s, i);
  }

  lemma WholeSpan(s: string)
    ensures Span(s, 0, |s|, s)
  {}

  /** The whole-model round trip, into any model that the parsed one is appended to. */
  lemma ParsePrint(m: Model)
    requires WellFormed(m)
    ensures Parse(PrintModel(m)) == Match(|PrintModel(m)|, m)
  {
    var ds := Declared(m.parameters);
    var ctexts := PrintConstraints(m.constraints);
    forall k | 0 <= k < |ctexts| ensures ReadsAs(ctexts[k], m.constraints[k], ds) {
      PrintedReadsAs(m.constraints[k], ds);
    }
    EachReadAs(ctexts, m.constraints, ds);
    EachRelationText(PrintRelations(m.relations), m.relations, ": (", ds);
    assert [] + m.parameters == m.parameters && [] + m.relations == m.relations && [] + m.constraints == m.constraints;
    hide WellFormedParameter, WellFormedName, AllReadAs, AllRelationTexts, ParseInto,
         PrintSystemSection, PrintParameters, PrintRelationWith;
    DocumentParses(PrintModel(m), EmptyModel(), m.name, m.parameters, PrintRelations(m.relations), m.relations, ": (",
                   m.constraints != [], ctexts, m.constraints, "\n");
  }
}
