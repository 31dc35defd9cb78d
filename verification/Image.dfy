/** The models that the parser yields: exactly when they are well-formed, so that printing and parsing them again changes
    nothing. What can go wrong is the trimming of enum values and of the system's name. */
module Image {
  import opened Text
  import opened Acts
  import opened Rules
  import opened RoundTrip
  import opened ModelRoundTrip

  // ---- Trimmed texts -----------------------------------------------------------------------

  /** Whether the code points that start at `i` end at `b`, that is whether cutting there cuts none of them. */
  predicate IsBoundary(s: string, i: nat, b: nat)
    requires i <= |s|
    decreases |s| - i
  {
    i == b || (i < b && CodepointLength(s, i) > 0 && IsBoundary(s, i + CodepointLength(s, i), b))
  }

  /** Where the white space at the end of the part from `i` to `j` starts. */
  function TrimEnd(s: string, i: nat, j: nat): (b: nat)
    requires i <= j <= |s|
    ensures i <= b <= j && (forall k | b <= k < j :: IsTrimmable(s[k])) && (b > i ==> !IsTrimmable(s[b - 1]))
    decreases j
  {
    if j > i && IsTrimmable(s[j - 1]) then TrimEnd(s, i, j - 1) else j
  }

  /** The white space at the end is dropped without cutting a code point, ... */
  predicate NameTrims(s: string, i: nat, j: nat)
    requires i <= j <= |s|
  {
    IsBoundary(s, i, TrimEnd(s, i, j))
  }

  /** ... and something is left. */
  predicate ValueTrims(s: string, i: nat, j: nat)
    requires i <= j <= |s|
  {
    TrimEnd(s, i, j) > i && NameTrims(s, i, j)
  }

  lemma SliceOfSlice(s: string, i: nat, a: nat, j: nat)
    requires i <= a <= j <= |s|
    ensures s[i..j][a - i..] == s[a..j]
  {}

  lemma {:induction false} DroppedLeft(v: string)
    ensures forall k | 0 <= k < |v| - |TrimLeft(v)| :: IsTrimmable(v[k])
  {
    hide IsTrimmable;
    if v != [] && IsTrimmable(v[0]) {
      DroppedLeft(v[1..]);
      assert forall k | 0 < k < |v| :: v[k] == v[1..][k - 1];
    }
  }

  lemma LeftPart(v: string) returns (n: nat)
    ensures n <= |v| && TrimLeft(v) == v[n..] && (n < |v| ==> !IsTrimmable(v[n]))
    ensures forall k | 0 <= k < n :: IsTrimmable(v[k])
  {
    n := |v| - |TrimLeft(v)|;
    DroppedLeft(v);
    hide IsTrimmable, TrimLeft;
  }

  /** Where the white space at the start of the part from `i` to `j` ends. */
  lemma LeftEnd(s: string, i: nat, j: nat) returns (a: nat)
    requires i <= j <= |s|
    ensures i <= a <= j && TrimLeft(s[i..j]) == s[a..j] && (a < j ==> !IsTrimmable(s[a]))
    ensures forall k | i <= k < a :: IsTrimmable(s[k])
  {
    hide *;
    var v := s[i..j];
    var n := LeftPart(v);
    a := i + n;
    SliceOfSlice(s, i, a, j);
    forall k | i <= k < a ensures IsTrimmable(s[k]) { assert s[k] == v[k - i]; }
  }

  lemma {:induction false} DroppedRight(v: string)
    ensures forall k | |TrimRight(v)| <= k < |v| :: IsTrimmable(v[k])
  {
    hide IsTrimmable;
    if v != [] && IsTrimmable(v[|v| - 1]) { DroppedRight(v[..|v| - 1]); }
  }

  /** There is only one such place. */
  lemma EndIs(s: string, i: nat, j: nat, b: nat)
    requires i <= b <= j <= |s| && (forall k | b <= k < j :: IsTrimmable(s[k])) && (b > i ==> !IsTrimmable(s[b - 1]))
    ensures TrimEnd(s, i, j) == b
  {
    var e := TrimEnd(s, i, j);
    hide IsTrimmable, TrimEnd;
    assert e <= b;
  }

  lemma RightEnd(s: string, i: nat, a: nat, j: nat)
    requires i <= a <= j <= |s| && (a < j ==> !IsTrimmable(s[a]))
    requires forall k | i <= k < a :: IsTrimmable(s[k])
    ensures TrimEnd(s, i, j) <= a ==> a == j && TrimEnd(s, i, j) == i
    ensures TrimRight(s[a..j]) == if TrimEnd(s, i, j) <= a then [] else s[a..TrimEnd(s, i, j)]
  {
    var v := s[a..j];
    var b := a + |TrimRight(v)|;
    DroppedRight(v);
    hide IsTrimmable, TrimEnd, TrimRight;
    assert forall k | a <= k < j :: s[k] == v[k - a];
    if b > a {
      assert TrimRight(v) == s[a..b];
      EndIs(s, i, j, b);
    } else {
      EndIs(s, i, j, i);
    }
  }

  /** The text between two positions, trimmed, is a part of it: from `a` to the start of the white space at its end. */
  lemma TrimmedIs(s: string, i: nat, j: nat) returns (a: nat)
    requires i <= j <= |s|
    ensures i <= a <= j && forall k | i <= k < a :: IsTrimmable(s[k])
    ensures TrimEnd(s, i, j) <= a ==> TrimEnd(s, i, j) == i
    ensures TrimEnd(s, i, j) > a ==> !IsTrimmable(s[a])
    ensures Trimmed(s[i..j]) == if TrimEnd(s, i, j) <= a then [] else s[a..TrimEnd(s, i, j)]
  {
    hide IsTrimmable;
    a := LeftEnd(s, i, j);
    RightEnd(s, i, a, j);
  }

  lemma {:induction false} SliceSkip(stop: string, s: string, i: nat, k: nat, j: nat)
    requires i <= k <= j <= |s| && SkipText(stop, s, k) == j
    ensures SkipText(stop, s[i..j], k - i) == j - i
    decreases |s| - k
  {
    var v := s[i..j];
    if k < j {
      assert s[k] == v[k - i];
      SliceSkip(stop, s, i, k + CodepointLength(s, k), j);
    }
  }

  /** A part of a run of code points is made of whole ones exactly when it ends with one of them. */
  lemma {:induction false} SliceCovers(stop: string, s: string, a: nat, k: nat, b: nat, j: nat)
    requires a <= k <= b <= j <= |s| && SkipText(stop, s, k) == j
    ensures SkipText(stop, s[a..b], k - a) == b - a <==> IsBoundary(s, k, b)
    decreases |s| - k
  {
    var v := s[a..b];
    if k < b {
      assert s[k] == v[k - a];
      var len := CodepointLength(s, k);
      if k + len <= b { SliceCovers(stop, s, a, k + len, b, j); }
    }
  }

  /** White space at the start is made of single bytes. */
  lemma {:induction false} LeadingBoundary(stop: string, s: string, i: nat, a: nat, b: nat, j: nat)
    requires i <= a <= b <= j <= |s| && SkipText(stop, s, i) == j && forall k | i <= k < a :: IsTrimmable(s[k])
    ensures SkipText(stop, s, a) == j && (IsBoundary(s, i, b) <==> IsBoundary(s, a, b))
    decreases a - i
  {
    if i < a {
      IsOneByte(s, i);
      LeadingBoundary(stop, s, i + 1, a, b, j);
    }
  }

  lemma IsOneByte(s: string, i: nat)
    requires i < |s| && IsTrimmable(s[i])
    ensures CodepointLength(s, i) == 1
  {}

  /** A trimmed run of code points is made of whole ones exactly when trimming its end cuts none. */
  lemma TrimmedCovers(stop: string, s: string, i: nat, j: nat)
    requires i <= j <= |s| && SkipText(stop, s, i) == j
    ensures var t := Trimmed(s[i..j]);
            && IsTrimmed(t)
            && (t != [] <==> TrimEnd(s, i, j) > i)
            && (t != [] ==> t[0] !in stop)
            && (Covers(stop, t) <==> NameTrims(s, i, j))
  {
    var b := TrimEnd(s, i, j);
    hide *;
    var a := TrimmedIs(s, i, j);
    if b > a {
      LeadingBoundary(stop, s, i, a, b, j);
      SliceCovers(stop, s, a, a, b, j);
      CoveredPart(stop, s, i, a, b, j);
    } else {
      EmptyPart(stop, s, i, j);
    }
  }

  lemma CoveredPart(stop: string, s: string, i: nat, a: nat, b: nat, j: nat)
    requires i <= a < b <= j <= |s| && b == TrimEnd(s, i, j) && SkipText(stop, s, a) == j && !IsTrimmable(s[a])
    requires SkipText(stop, s[a..b], 0) == b - a <==> IsBoundary(s, a, b)
    requires IsBoundary(s, i, b) <==> IsBoundary(s, a, b)
    ensures IsTrimmed(s[a..b]) && s[a..b][0] !in stop && (Covers(stop, s[a..b]) <==> NameTrims(s, i, j))
  {
    hide IsTrimmable, TrimEnd, IsBoundary;
    assert s[a..b][b - a - 1] == s[b - 1];
  }

  lemma EmptyPart(stop: string, s: string, i: nat, j: nat)
    requires i <= j <= |s| && TrimEnd(s, i, j) == i
    ensures IsTrimmed("") && Covers(stop, "") && NameTrims(s, i, j)
  {}

  // ---- Values ------------------------------------------------------------------------------

  predicate ElementOk(kind: ElementKind, v: Value, ds: set<string>) {
    match kind
    case BooleanElement => WellFormedValue(BOOLEAN, v)
    case EnumElement => WellFormedValue(ENUM, v)
    case IntegerElement => WellFormedValue(INTEGER, v)
    case NameElement => v.EnumValue? && v.text in ds && IsIdentifier(v.text)
  }

  lemma EnumValueOk(s: string, i: nat, ds: set<string>)
    requires i <= |s| && Element(EnumElement, s, i, ds).Match?
    ensures WellFormedValue(ENUM, Element(EnumElement, s, i, ds).value) <==>
            ValueTrims(s, i, Element(EnumElement, s, i, ds).pos)
  {
    hide Trimmed, IsTrimmable, NameTrims, TrimEnd;
    var j := AnyExcept(",; \t\n\r", s, i).value;
    var end := SkipText(",;\n\r", s, j);
    NotAStop(s[i]);
    assert SkipText(",;\n\r", s, i) == end;
    TrimmedCovers(",;\n\r", s, i, end);
    var t := Trimmed(s[i..end]);
    if t != [] { NorBlank(t); }
  }

  lemma NorBlank(t: string)
    requires t != [] && IsTrimmed(t) && t[0] !in ",;\n\r"
    ensures t[0] !in ",; \t\n\r"
  {
    var stop := ",;\n\r";
    assert stop[0] != t[0] && stop[1] != t[0];
    NotWhite(t[0]);
  }

  lemma NotWhite(c: char)
    requires !IsTrimmable(c)
    ensures c != ' ' && c != '\t' && c != '\n' && c != '\r'
  {
    var white := " \t\n\U{0B}\U{0C}\r";
    assert white[0] == ' ' && white[1] == '\t' && white[2] == '\n' && white[5] == '\r';
  }

  lemma NotAStop(c: char)
    requires c !in ",; \t\n\r"
    ensures c !in ",;\n\r" && !InClass(White, c)
  {
    var stop := ",; \t\n\r";
    assert stop[0] != c && stop[1] != c && stop[2] != c && stop[3] != c && stop[4] != c && stop[5] != c;
  }

  /** Elements other than enum values are never trimmed. */
  predicate ElementTrims(kind: ElementKind, s: string, i: nat, ds: set<string>)
    requires i <= |s|
  {
    kind.EnumElement? && Element(kind, s, i, ds).Match? ==> ValueTrims(s, i, Element(kind, s, i, ds).pos)
  }

  lemma ElementIsOk(kind: ElementKind, s: string, i: nat, ds: set<string>)
    requires i <= |s| && Element(kind, s, i, ds).Match?
    ensures ElementOk(kind, Element(kind, s, i, ds).value, ds) <==> ElementTrims(kind, s, i, ds)
  {
    hide Integer, Identifier, IsIdentifier, ValueTrims;
    if kind.EnumElement? {
      hide Element, WellFormedValue;
      EnumValueOk(s, i, ds);
    }
  }

  predicate AllOk(kind: ElementKind, vs: seq<Value>, ds: set<string>) {
    forall k | 0 <= k < |vs| :: ElementOk(kind, vs[k], ds)
  }

  /** Where the element after the next comma starts. */
  function AfterComma(s: string, i: nat): (j: nat)
    requires i <= |s|
    ensures i <= j <= |s|
  {
    var r := Lit(s, Whitespace(s, i), ",");
    if r.Match? then Whitespace(s, r.pos) else i
  }

  predicate MoreElementsTrim(kind: ElementKind, s: string, i: nat, ds: set<string>)
    requires i <= |s|
    decreases |s| - i
  {
    NextElement(kind, s, i, ds).Match? ==>
      ElementTrims(kind, s, AfterComma(s, i), ds) && MoreElementsTrim(kind, s, NextElement(kind, s, i, ds).pos, ds)
  }

  predicate ListTrims(kind: ElementKind, s: string, i: nat, ds: set<string>)
    requires i <= |s|
  {
    Element(kind, s, i, ds).Match? ==>
      ElementTrims(kind, s, i, ds) && MoreElementsTrim(kind, s, Element(kind, s, i, ds).pos, ds)
  }

  lemma NextIsElement(kind: ElementKind, s: string, i: nat, ds: set<string>)
    requires i <= |s| && NextElement(kind, s, i, ds).Match?
    ensures NextElement(kind, s, i, ds) == Element(kind, s, AfterComma(s, i), ds)
  {
    hide Whitespace, Element;
  }

  lemma PrependOk(kind: ElementKind, v: Value, vs: seq<Value>, ds: set<string>)
    ensures AllOk(kind, [v] + vs, ds) <==> ElementOk(kind, v, ds) && AllOk(kind, vs, ds)
  {
    hide ElementOk;
    var all := [v] + vs;
    assert all[0] == v && forall k | 0 <= k < |vs| :: vs[k] == all[k + 1];
  }

  lemma {:induction false} MoreElementsOk(kind: ElementKind, s: string, i: nat, ds: set<string>)
    requires i <= |s| && MoreElements(kind, s, i, ds).Match?
    ensures AllOk(kind, MoreElements(kind, s, i, ds).value, ds) <==> MoreElementsTrim(kind, s, i, ds)
    decreases |s| - i
  {
    hide Element, ElementOk, ElementTrims, NextElement, AfterComma, AllOk;
    if NextElement(kind, s, i, ds).Match? {
      NextIsElement(kind, s, i, ds);
      ElementIsOk(kind, s, AfterComma(s, i), ds);
      var j := NextElement(kind, s, i, ds).pos;
      MoreElementsOk(kind, s, j, ds);
      PrependOk(kind, NextElement(kind, s, i, ds).value, MoreElements(kind, s, j, ds).value, ds);
    } else {
      NoneOk(kind, ds);
    }
  }

  lemma NoneOk(kind: ElementKind, ds: set<string>)
    ensures AllOk(kind, [], ds)
  {}

  lemma ListOk(kind: ElementKind, s: string, i: nat, ds: set<string>)
    requires i <= |s| && List(kind, s, i, ds).Match?
    ensures AllOk(kind, List(kind, s, i, ds).value, ds) <==> ListTrims(kind, s, i, ds)
  {
    hide Element, ElementOk, MoreElements, ElementTrims, MoreElementsTrim, AllOk;
    ElementIsOk(kind, s, i, ds);
    var j := Element(kind, s, i, ds).pos;
    MoreElementsOk(kind, s, j, ds);
    PrependOk(kind, Element(kind, s, i, ds).value, MoreElements(kind, s, j, ds).value, ds);
  }

  /** Lists of names and numbers are never trimmed. */
  lemma {:induction false} OthersTrim(kind: ElementKind, s: string, i: nat, ds: set<string>)
    requires i <= |s| && !kind.EnumElement?
    ensures MoreElementsTrim(kind, s, i, ds) && ListTrims(kind, s, i, ds)
    decreases |s| - i
  {
    hide Element, NextElement, AfterComma;
    if NextElement(kind, s, i, ds).Match? { OthersTrim(kind, s, NextElement(kind, s, i, ds).pos, ds); }
    if Element(kind, s, i, ds).Match? { OthersTrim(kind, s, Element(kind, s, i, ds).pos, ds); }
  }

  // ---- Parameters and relations ----------------------------------------------------------------

  /** Whether the values of the parameter that starts at `i` are trimmed well. */
  predicate ValuesTrim(t: ParameterType, s: string, i: nat)
    requires i <= |s|
  {
    ParameterHead(t, s, i).Match? ==> ListTrims(KindOf(t), s, Whitespace(s, ParameterHead(t, s, i).pos), {})
  }

  lemma ParameterOfOk(t: ParameterType, s: string, i: nat)
    requires i <= |s| && ParameterOf(t, s, i).Match?
    ensures WellFormedParameter(ParameterOf(t, s, i).value) <==> ValuesTrim(t, s, i)
  {
    hide ParameterHead, List, Whitespace, Spaces, LineEnd, IsIdentifier, WellFormedValue, ListTrims;
    var head := ParameterHead(t, s, i);
    ListOk(KindOf(t), s, Whitespace(s, head.pos), {});
    assert IsIdentifier(head.value);
    var vs := List(KindOf(t), s, Whitespace(s, head.pos), {}).value;
    SameValues(t, vs);
  }

  lemma SameValues(t: ParameterType, vs: seq<Value>)
    ensures AllOk(KindOf(t), vs, {}) <==> forall k | 0 <= k < |vs| :: WellFormedValue(t, vs[k])
  {
    hide WellFormedValue;
    forall k | 0 <= k < |vs| ensures ElementOk(KindOf(t), vs[k], {}) == WellFormedValue(t, vs[k]) {}
  }

  predicate ParameterTrims(s: string, i: nat)
    requires i <= |s|
  {
    ParameterOf(BOOLEAN, s, i).NoMatch? && ParameterOf(ENUM, s, i).Match? ==> ValuesTrim(ENUM, s, i)
  }

  lemma ParameterRuleOk(s: string, i: nat)
    requires i <= |s| && ParameterRule(s, i).Match?
    ensures WellFormedParameter(ParameterRule(s, i).value) <==> ParameterTrims(s, i)
  {
    hide ParameterOf, WellFormedParameter, ListTrims, ParameterHead;
    if ParameterOf(BOOLEAN, s, i).Match? {
      ParameterOfOk(BOOLEAN, s, i);
      if ParameterHead(BOOLEAN, s, i).Match? {
        OthersTrim(BooleanElement, s, Whitespace(s, ParameterHead(BOOLEAN, s, i).pos), {});
      }
    } else if ParameterOf(ENUM, s, i).Match? {
      ParameterOfOk(ENUM, s, i);
    } else {
      ParameterOfOk(INTEGER, s, i);
      if ParameterHead(INTEGER, s, i).Match? {
        OthersTrim(IntegerElement, s, Whitespace(s, ParameterHead(INTEGER, s, i).pos), {});
      }
    }
  }

  predicate ParametersOk(ps: seq<Parameter>) { forall k | 0 <= k < |ps| :: WellFormedParameter(ps[k]) }

  predicate MoreParametersTrim(s: string, i: nat)
    requires i <= |s|
    decreases |s| - i
  {
    ParameterRule(s, i).Match? ==> ParameterTrims(s, i) && MoreParametersTrim(s, Spacing(s, ParameterRule(s, i).pos))
  }

  lemma AppendOk(ps: seq<Parameter>, more: seq<Parameter>)
    ensures ParametersOk(ps + more) <==> ParametersOk(ps) && ParametersOk(more)
  {
    hide WellFormedParameter;
    var all := ps + more;
    assert forall k | 0 <= k < |ps| :: all[k] == ps[k];
    assert forall k | 0 <= k < |more| :: all[|ps| + k] == more[k];
  }

  lemma {:induction false} MoreParametersOk(s: string, i: nat)
    requires i <= |s| && MoreParameters(s, i).Match?
    ensures ParametersOk(MoreParameters(s, i).value) <==> MoreParametersTrim(s, i)
    decreases |s| - i
  {
    hide ParameterRule, ParameterTrims, Spacing, WellFormedParameter, ParametersOk;
    if ParameterRule(s, i).Match? {
      ParameterRuleOk(s, i);
      var p, j := ParameterRule(s, i).value, Spacing(s, ParameterRule(s, i).pos);
      MoreParametersOk(s, j);
      AppendOk([p], MoreParameters(s, j).value);
      OneOk(p);
    } else {
      NoParameterOk();
    }
  }

  lemma OneOk(p: Parameter)
    ensures ParametersOk([p]) <==> WellFormedParameter(p)
  {
    hide WellFormedParameter;
    assert [p][0] == p;
  }

  lemma NoParameterOk()
    ensures ParametersOk([])
  {}

  predicate ParametersTrim(s: string, i: nat)
    requires i <= |s|
  {
    SectionHeader(s, i, "Parameter").Match? ==> MoreParametersTrim(s, SectionHeader(s, i, "Parameter").pos)
  }

  lemma ParameterSectionOk(s: string, i: nat)
    requires i <= |s| && ParameterSection(s, i).Match?
    ensures ParametersOk(ParameterSection(s, i).value) <==> ParametersTrim(s, i)
  {
    hide ParameterRule, ParameterTrims, MoreParameters, Spacing, SectionHeader, WellFormedParameter, ParametersOk;
    var j := SectionHeader(s, i, "Parameter").pos;
    ParameterRuleOk(s, j);
    var p, k := ParameterRule(s, j).value, Spacing(s, ParameterRule(s, j).pos);
    MoreParametersOk(s, k);
    AppendOk([p], MoreParameters(s, k).value);
    OneOk(p);
  }

  lemma RelationRuleOk(s: string, i: nat, ds: set<string>)
    requires i <= |s| && RelationRule(s, i, ds).Match?
    ensures WellFormedRelation(RelationRule(s, i, ds).value, ds)
  {
    hide RelationHead, List, Strength, Whitespace, Spaces, LineEnd, Spacing, Lit, IsIdentifier;
    var j := RelationHead(s, i).pos;
    var vs := List(NameElement, s, Whitespace(s, j), ds).value;
    ListOk(NameElement, s, Whitespace(s, j), ds);
    OthersTrim(NameElement, s, Whitespace(s, j), ds);
    NamesOk(vs, ds);
    assert IsIdentifier(RelationHead(s, i).value);
  }

  lemma NamesOk(vs: seq<Value>, ds: set<string>)
    requires AllOk(NameElement, vs, ds)
    ensures forall k | 0 <= k < |vs| :: Names(vs)[k] in ds && IsIdentifier(Names(vs)[k])
  {
    hide IsIdentifier;
    forall k | 0 <= k < |vs| ensures Names(vs)[k] in ds && IsIdentifier(Names(vs)[k]) {
      assert ElementOk(NameElement, vs[k], ds);
    }
  }

  predicate RelationsOk(rs: seq<Relation>, ds: set<string>) { forall k | 0 <= k < |rs| :: WellFormedRelation(rs[k], ds) }

  lemma {:induction false} RelationsAreOk(s: string, i: nat, ds: set<string>)
    requires i <= |s| && Relations(s, i, ds).Match?
    ensures RelationsOk(Relations(s, i, ds).value, ds)
    decreases |s| - i
  {
    hide RelationRule, WellFormedRelation;
    if RelationRule(s, i, ds).Match? {
      RelationRuleOk(s, i, ds);
      RelationsAreOk(s, RelationRule(s, i, ds).pos, ds);
    }
  }

  // ---- Constraints -------------------------------------------------------------------------------

  lemma ConstrEnumValueOk(s: string, i: nat)
    requires i <= |s| && ConstrEnumValue(s, i).Match?
    ensures var v := ConstrEnumValue(s, i).value;
            v != [] && v[0] !in ",;\" \t\n\r" && Covers(",;\"\n\r", v)
  {
    var k := AnyExcept(",;\" \t\n\r", s, i + 1).value;
    var end := SkipText(",;\"\n\r", s, k);
    NotAQuotedStop(s[i + 1]);
    assert SkipText(",;\"\n\r", s, i + 1) == end;
    SliceSkip(",;\"\n\r", s, i + 1, i + 1, end);
  }

  lemma NotAQuotedStop(c: char)
    requires c !in ",;\" \t\n\r"
    ensures c !in ",;\"\n\r"
  {
    var stop := ",;\" \t\n\r";
    assert stop[0] != c && stop[1] != c && stop[2] != c && stop[3] != c && stop[4] != c && stop[5] != c && stop[6] != c;
  }

  lemma AtomicPropOk(s: string, i: nat, ds: set<string>)
    requires i <= |s| && AtomicProp(s, i, ds).Match?
    ensures WellFormedConstraint(AtomicProp(s, i, ds).value, ds)
  {
    hide Identifier, RelOp, Spaces, EitherI, LitI, Integer, ConstrEnumValue, IsIdentifier, Covers;
    var name := Identifier(s, i);
    assert IsIdentifier(name.value);
    var k := Spaces(s, RelOp(s, Spaces(s, name.pos)).pos);
    if ConstrEnumValue(s, k).Match? { ConstrEnumValueOk(s, k); }
  }

  lemma {:induction false} OperandOk(s: string, i: nat, ds: set<string>)
    requires i <= |s| && Operand(s, i, ds).Match?
    ensures WellFormedConstraint(Operand(s, i, ds).value, ds)
    decreases |s| - i, 1
  {
    hide AtomicProp, ImplicationRule, WellFormedConstraint, Spaces, At;
    if Parenthesized(s, i, ds).Match? {
      ImplicationOk(s, Spaces(s, Lit(s, i, "(").pos), ds);
    } else {
      AtomicPropOk(s, i, ds);
    }
  }

  lemma {:induction false} OperandOfOk(op: NaryOperator, s: string, i: nat, ds: set<string>)
    requires i <= |s| && OperandOf(op, s, i, ds).Match?
    ensures WellFormedConstraint(OperandOf(op, s, i, ds).value, ds)
    decreases |s| - i, if op.OR? then 4 else 2
  {
    hide Operand, Operands, WellFormedConstraint;
    if op.OR? { OperandsOk(AND, s, i, ds); } else { OperandOk(s, i, ds); }
  }

  predicate ConstraintsOk(cs: seq<Constraint>, ds: set<string>) {
    forall k | 0 <= k < |cs| :: WellFormedConstraint(cs[k], ds)
  }

  lemma {:induction false} MoreOperandsOk(op: NaryOperator, s: string, i: nat, ds: set<string>)
    requires i <= |s| && MoreOperands(op, s, i, ds).Match?
    ensures ConstraintsOk(MoreOperands(op, s, i, ds).value, ds)
    decreases |s| - i, 1
  {
    hide OperandOf, WellFormedConstraint, Spaces, At;
    if NextOperand(op, s, i, ds).Match? {
      OperandOfOk(op, s, Spaces(s, Lit(s, Spaces(s, i), Symbol(op)).pos), ds);
      MoreOperandsOk(op, s, NextOperand(op, s, i, ds).pos, ds);
    }
  }

  lemma {:induction false} OperandsOk(op: NaryOperator, s: string, i: nat, ds: set<string>)
    requires i <= |s| && Operands(op, s, i, ds).Match?
    ensures WellFormedConstraint(Operands(op, s, i, ds).value, ds)
    decreases |s| - i, if op.OR? then 5 else 3
  {
    hide OperandOf, MoreOperands;
    OperandOfOk(op, s, i, ds);
    MoreOperandsOk(op, s, OperandOf(op, s, i, ds).pos, ds);
  }

  lemma {:induction false} ImplicationOk(s: string, i: nat, ds: set<string>)
    requires i <= |s| && ImplicationRule(s, i, ds).Match?
    ensures WellFormedConstraint(ImplicationRule(s, i, ds).value, ds)
    decreases |s| - i, 6
  {
    hide Operands, Spaces, Lit;
    OperandsOk(OR, s, i, ds);
    var j := Operands(OR, s, i, ds).pos;
    if Conclusion(s, j, ds).Match? { OperandsOk(OR, s, Spaces(s, Lit(s, Spaces(s, j), "=>").pos), ds); }
  }

  lemma {:induction false} ConstraintsAreOk(s: string, i: nat, ds: set<string>)
    requires i <= |s| && Constraints(s, i, ds).Match?
    ensures ConstraintsOk(Constraints(s, i, ds).value, ds)
    decreases |s| - i
  {
    hide ImplicationRule, WellFormedConstraint, Spaces, Spacing, LineEnd;
    if ConstraintRule(s, i, ds).Match? {
      ImplicationOk(s, i, ds);
      ConstraintsAreOk(s, ConstraintRule(s, i, ds).pos, ds);
    }
  }

  // ---- Models --------------------------------------------------------------------------------------

  /** What a model may hold before a text is parsed into it; the empty model does. */
  predicate Consistent(m: Model) {
    var ds := Declared(m.parameters);
    ParametersOk(m.parameters) && RelationsOk(m.relations, ds) && ConstraintsOk(m.constraints, ds)
  }

  lemma {:induction false} MoreDeclared(c: Constraint, ds: set<string>, more: set<string>)
    requires ds <= more && WellFormedConstraint(c, ds)
    ensures WellFormedConstraint(c, more)
    decreases c
  {
    match c
    case Implication(l, r) => MoreDeclared(l, ds, more); MoreDeclared(r, ds, more);
    case Nary(_, cs) =>
      forall k | 0 <= k < |cs| ensures WellFormedConstraint(cs[k], more) { MoreDeclared(cs[k], ds, more); }
    case _ =>
  }

  lemma AppendConstraints(cs: seq<Constraint>, more: seq<Constraint>, ds: set<string>, all: set<string>)
    requires ds <= all && ConstraintsOk(cs, ds) && ConstraintsOk(more, all)
    ensures ConstraintsOk(cs + more, all)
  {
    forall k | 0 <= k < |cs| ensures WellFormedConstraint(cs[k], all) { MoreDeclared(cs[k], ds, all); }
  }

  lemma AppendRelations(rs: seq<Relation>, more: seq<Relation>, ds: set<string>, all: set<string>)
    requires ds <= all && RelationsOk(rs, ds) && RelationsOk(more, all)
    ensures RelationsOk(rs + more, all)
  {
    forall k | 0 <= k < |rs| ensures WellFormedRelation(rs[k], all) {
      assert WellFormedRelation(rs[k], ds);
    }
  }

  /** Where the name of the system starts. */
  function NameStart(s: string, i: nat): (r: Outcome<()>)
    requires i <= |s|
    ensures r.Match? ==> i < r.pos <= |s|
    ensures !r.Abort?
  {
    var (i1, _) :- SectionHeader(s, i, "System");
    var (i2, _) :- LitI(s, i1, "name");
    var (i3, _) :- Lit(s, Whitespace(s, i2), ":");
    Match(Spaces(s, i3), ())
  }

  predicate SystemTrims(s: string, i: nat)
    requires i <= |s|
  {
    NameStart(s, i).Match? ==> NameTrims(s, NameStart(s, i).pos, SkipText("\n\r", s, NameStart(s, i).pos))
  }

  lemma NameUnfolds(s: string, i: nat)
    requires i <= |s| && SystemSection(s, i).Match?
    ensures var start := NameStart(s, i);
            start.Match? && SystemSection(s, i).value == Trimmed(s[start.pos..SkipText("\n\r", s, start.pos)])
  {
    hide SectionHeader, LitI, Lit, Whitespace, Spacing, Spaces, Trimmed, SkipText;
  }

  lemma SystemTrimsUnfolds(s: string, i: nat)
    requires i <= |s| && NameStart(s, i).Match?
    ensures SystemTrims(s, i) == NameTrims(s, NameStart(s, i).pos, SkipText("\n\r", s, NameStart(s, i).pos))
  {
    hide NameStart, NameTrims;
  }

  lemma TrimmedNameOk(name: string)
    requires IsTrimmed(name)
    ensures WellFormedName(name) <==> Covers("\n\r", name)
  {}

  lemma SystemNameOk(s: string, i: nat)
    requires i <= |s| && SystemSection(s, i).Match?
    ensures WellFormedName(SystemSection(s, i).value) <==> SystemTrims(s, i)
  {
    hide *;
    NameUnfolds(s, i);
    SystemTrimsUnfolds(s, i);
    var start := NameStart(s, i).pos;
    TrimmedCovers("\n\r", s, start, SkipText("\n\r", s, start));
    TrimmedNameOk(SystemSection(s, i).value);
  }

  /** Whether trimming the system's name and the enum values of a text cuts no code point and leaves no value empty. */
  predicate TextTrims(s: string) {
    var i := Spacing(s, 0);
    SystemTrims(s, i) && (SystemSection(s, i).Match? ==> ParametersTrim(s, SystemSection(s, i).pos))
  }

  /** The image of the parser: always closed references, ordering operators only on integers, at least two operands of
      '&&' and '||', and integers in range. The texts are well-formed exactly when they are trimmed well. */
  lemma ParsedIsWellFormed(s: string, m: Model)
    requires Consistent(m) && ParseInto(s, m).Match?
    ensures var r := ParseInto(s, m).value;
            && RelationsOk(r.relations, Declared(r.parameters)) && ConstraintsOk(r.constraints, Declared(r.parameters))
            && (WellFormed(r) <==> TextTrims(s))
  {
    hide SystemSection, ParameterSection, RelationSection, ConstraintSection, Spacing, WellFormedName,
         WellFormedParameter, WellFormedRelation, WellFormedConstraint, Declared, SystemTrims, ParametersTrim;
    var i0 := Spacing(s, 0);
    var i1 := SystemSection(s, i0).pos;
    SystemNameOk(s, i0);
    ParameterSectionOk(s, i1);
    var ps := ParameterSection(s, i1).value;
    var i2 := ParameterSection(s, i1).pos;
    var ds := Declared(m.parameters + ps);
    DeclaredGrows(m.parameters, ps);
    AppendOk(m.parameters, ps);
    RelationSectionOk(s, i2, ds);
    var rs := Optional(RelationSection(s, i2, ds), i2);
    ConstraintSectionOk(s, rs.pos, ds);
    var cs := Optional(ConstraintSection(s, rs.pos, ds), rs.pos);
    AppendRelations(m.relations, rs.value, Declared(m.parameters), ds);
    AppendConstraints(m.constraints, cs.value, Declared(m.parameters), ds);
    assert ParametersOk(m.parameters + ps) ==> m.parameters + ps != [];
  }

  lemma DeclaredGrows(ps: seq<Parameter>, more: seq<Parameter>)
    ensures Declared(ps) <= Declared(ps + more)
  {}

  lemma RelationSectionOk(s: string, i: nat, ds: set<string>)
    requires i <= |s| && Optional(RelationSection(s, i, ds), i).Match?
    ensures Optional(RelationSection(s, i, ds), i).pos <= |s| && RelationsOk(Optional(RelationSection(s, i, ds), i).value, ds)
  {
    hide SectionHeader, Relations, WellFormedRelation;
    if RelationSection(s, i, ds).Match? { RelationsAreOk(s, SectionHeader(s, i, "Relation").pos, ds); }
  }

  lemma ConstraintSectionOk(s: string, i: nat, ds: set<string>)
    requires i <= |s| && Optional(ConstraintSection(s, i, ds), i).Match?
    ensures ConstraintsOk(Optional(ConstraintSection(s, i, ds), i).value, ds)
  {
    hide SectionHeader, Constraints, WellFormedConstraint;
    if ConstraintSection(s, i, ds).Match? { ConstraintsAreOk(s, SectionHeader(s, i, "Constraint").pos, ds); }
  }

  /** Parsing, printing and parsing again is the same as parsing. */
  lemma Normalisation(s: string)
    requires Parse(s).Match? && TextTrims(s)
    ensures var m := Parse(s).value;
            Parse(PrintModel(m)) == Match(|PrintModel(m)|, m)
  {
    hide ParseInto, WellFormed, PrintModel, TextTrims;
    assert Consistent(EmptyModel());
    ParsedIsWellFormed(s, EmptyModel());
    ParsePrint(Parse(s).value);
  }

  // ---- Clean texts -----------------------------------------------------------------------------------

  /** A condition on the bytes alone: no '\v' and '\f', and only bytes above 127 after the first one of a longer code
      point. */
  predicate Clean(s: string) {
    forall i | 0 <= i < |s| ::
      s[i] != '\U{0B}' && s[i] != '\U{0C}' && forall k | i < k < i + CodepointLength(s, i) :: s[k] as int >= 0x80
  }

  /** Plain ASCII texts, in particular, are clean when they have no '\v' and '\f'. */
  lemma AsciiIsClean(s: string)
    requires forall i | 0 <= i < |s| :: s[i] as int < 0x80 && s[i] != '\U{0B}' && s[i] != '\U{0C}'
    ensures Clean(s)
  {}

  lemma {:induction false} SkipBoundary(stop: string, s: string, i: nat)
    requires i <= |s|
    ensures IsBoundary(s, i, SkipText(stop, s, i))
    decreases |s| - i
  {
    if SkipText(stop, s, i) > i { SkipBoundary(stop, s, i + CodepointLength(s, i)); }
  }

  /** In a clean text a space is a code point of its own. */
  lemma {:induction false} BeforeSpace(s: string, i: nat, j: nat)
    requires i < j <= |s| && Clean(s) && IsBoundary(s, i, j) && s[j - 1] as int < 0x80
    ensures IsBoundary(s, i, j - 1)
    decreases j - i
  {
    hide Clean;
    if i + CodepointLength(s, i) < j {
      BeforeSpace(s, i + CodepointLength(s, i), j);
    } else {
      CleanCodepoint(s, i, j - 1);
    }
  }

  lemma CleanCodepoint(s: string, i: nat, k: nat)
    requires i < |s| && i <= k < i + CodepointLength(s, i) && Clean(s) && s[k] as int < 0x80
    ensures k == i
  {}

  lemma {:induction false} CleanNameTrims(s: string, i: nat, j: nat)
    requires i <= j <= |s| && Clean(s) && IsBoundary(s, i, j)
    ensures NameTrims(s, i, j)
    decreases j
  {
    hide Clean;
    if j > i && IsTrimmable(s[j - 1]) {
      IsOneByte(s, j - 1);
      BeforeSpace(s, i, j);
      CleanNameTrims(s, i, j - 1);
    }
  }

  lemma CleanValueTrims(s: string, i: nat)
    requires i <= |s| && Clean(s) && AnyExcept(",; \t\n\r", s, i).Some?
    ensures ValueTrims(s, i, SkipText(",;\n\r", s, AnyExcept(",; \t\n\r", s, i).value))
  {
    hide Clean, IsBoundary, IsTrimmable, NameTrims;
    var end := SkipText(",;\n\r", s, AnyExcept(",; \t\n\r", s, i).value);
    NotAStop(s[i]);
    CleanStart(s, i);
    assert SkipText(",;\n\r", s, i) == end;
    hide SkipText, TrimEnd;
    SkipBoundary(",;\n\r", s, i);
    CleanNameTrims(s, i, end);
  }

  lemma CleanElementTrims(kind: ElementKind, s: string, i: nat, ds: set<string>)
    requires i <= |s| && Clean(s)
    ensures ElementTrims(kind, s, i, ds)
  {
    hide Clean, ValueTrims, AnyExcept, SkipText, Trimmed;
    if kind.EnumElement? && AnyExcept(",; \t\n\r", s, i).Some? { CleanValueTrims(s, i); }
  }

  lemma CleanStart(s: string, i: nat)
    requires i < |s| && Clean(s) && !InClass(White, s[i])
    ensures !IsTrimmable(s[i])
  {}

  lemma {:induction false} CleanListTrims(kind: ElementKind, s: string, i: nat, ds: set<string>)
    requires i <= |s| && Clean(s)
    ensures MoreElementsTrim(kind, s, i, ds) && ListTrims(kind, s, i, ds)
    decreases |s| - i
  {
    hide Clean, Element, ElementTrims, NextElement, AfterComma;
    CleanElementTrims(kind, s, AfterComma(s, i), ds);
    CleanElementTrims(kind, s, i, ds);
    if NextElement(kind, s, i, ds).Match? { CleanListTrims(kind, s, NextElement(kind, s, i, ds).pos, ds); }
    if Element(kind, s, i, ds).Match? { CleanListTrims(kind, s, Element(kind, s, i, ds).pos, ds); }
  }

  lemma {:induction false} CleanParametersTrim(s: string, i: nat)
    requires i <= |s| && Clean(s)
    ensures MoreParametersTrim(s, i)
    decreases |s| - i
  {
    hide Clean, ParameterRule, ParameterHead, ListTrims;
    if ParameterHead(ENUM, s, i).Match? {
      CleanListTrims(EnumElement, s, Whitespace(s, ParameterHead(ENUM, s, i).pos), {});
    }
    if ParameterRule(s, i).Match? { CleanParametersTrim(s, Spacing(s, ParameterRule(s, i).pos)); }
  }

  /** Clean texts are trimmed well, so the results above hold for every valid UTF-8 text without '\v' and '\f'. */
  lemma CleanTrims(s: string)
    requires Clean(s)
    ensures TextTrims(s)
  {
    hide Clean, SectionHeader, SystemSection, NameStart, NameTrims, MoreParametersTrim;
    var i := Spacing(s, 0);
    if NameStart(s, i).Match? {
      var start := NameStart(s, i).pos;
      SkipBoundary("\n\r", s, start);
      CleanNameTrims(s, start, SkipText("\n\r", s, start));
    }
    if SystemSection(s, i).Match? {
      var j := SystemSection(s, i).pos;
      if SectionHeader(s, j, "Parameter").Match? { CleanParametersTrim(s, SectionHeader(s, j, "Parameter").pos); }
    }
  }

  /** An expression with a single operand, for example, is read as the operand. */
  lemma SingleOperandCollapses(s: string, i: nat, op: NaryOperator, c: Constraint, ds: set<string>)
    requires WellFormedConstraint(c, ds) && Span(s, i, |s|, PrintConstraint(Nary(op, [c])))
    ensures i <= |s| && Operand(s, i, ds) == Match(|s|, c)
  {
    assert [c][1..] == [];
    hide WellFormedConstraint, Span, Operand;
    var e := |s|;
    var k, l := Cut3(s, i, e, "(", PrintConstraint(c) + "", ")");
    assert PrintConstraint(c) + "" == PrintConstraint(c);
    StartsSpan(s, k, l, c, ds);
    SpanBounds(s, i, k, "(");
    SpanBounds(s, l, e, ")");
    InnerConstraint(s, k, l, c, ds);
    InParentheses(s, i, k, l, e, c, ds);
  }

  lemma InnerConstraint(s: string, i: nat, j: nat, c: Constraint, ds: set<string>)
    requires WellFormedConstraint(c, ds) && Span(s, i, j, PrintConstraint(c)) && Closes(s, j) && i <= |s|
    ensures ImplicationRule(s, i, ds) == Match(j, c)
  {
    StopsAt(s, j);
    hide ImplicationRule, WellFormedConstraint, PrintConstraint, CannotExtend, At;
    ConstraintRoundTrip(s, i, c, ds);
  }
}
