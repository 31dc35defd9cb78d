/** The operator "==" of the example in README.md: no text with a constraint that starts like that is accepted. */
module DoubleEquals {
  import opened Text
  import opened Acts
  import opened Rules
  import opened RoundTrip
  import opened ModelRoundTrip

  /** "==" is no operator: after a declared name no proposition is recognised, whatever follows. */
  lemma PropositionRejected(s: string, i: nat, ds: set<string>)
    requires i <= |s| && Identifier(s, i).Match? && Identifier(s, i).value in ds
    requires At(s, Spaces(s, Identifier(s, i).pos), "==")
    ensures AtomicProp(s, i, ds) == NoMatch
  {
    hide Identifier, ConstrValue, RelOp, Spaces;
    var j := Spaces(s, Identifier(s, i).pos);
    EqualsTwice(s, j);
    NoValueAtEquals(s, j + 1, Identifier(s, i).value, i);
  }

  lemma EqualsTwice(s: string, j: nat)
    requires At(s, j, "==")
    ensures j + 1 < |s| && s[j + 1] == '=' && RelOp(s, j) == Match(j + 1, EQ)
  {
    AtSecond(s, j, "==");
    SpanBounds(s, j, j + 2, "==");
    assert At(s, j, "=");
  }

  lemma NoValueAtEquals(s: string, i: nat, name: string, start: nat)
    requires i < |s| && s[i] == '='
    ensures Spaces(s, i) == i && ConstrValue(s, i, name, EQ, start) == NoMatch
  {
    NotLitI(s, i, "true");
    NotLitI(s, i, "false");
    NotAt(s, i, "\"");
    hide AtI, At;
  }

  // ---- Constraints that start with such a comparison ----------------------------------------------------

  /** Whether a declared name and "==" stand here, after any number of opening parentheses. */
  predicate ComparesTwice(s: string, i: nat, ds: set<string>)
    requires i <= |s|
    decreases |s| - i
  {
    if i < |s| && s[i] == '(' then ComparesTwice(s, Spaces(s, i + 1), ds)
    else
      var name := Identifier(s, i);
      name.Match? && name.value in ds && At(s, Spaces(s, name.pos), "==")
  }

  lemma {:induction false} OperandRejected(s: string, i: nat, ds: set<string>)
    requires i <= |s| && ComparesTwice(s, i, ds)
    ensures Operand(s, i, ds) == NoMatch
    decreases |s| - i, 0
  {
    if i < |s| && s[i] == '(' {
      assert At(s, i, "(") by { assert "(" == [s[i]]; }
      hide At, Spaces, ComparesTwice, ImplicationRule;
      assert AtomicProp(s, i, ds) == NoMatch;
      UnfoldsAt(s, i, ds);
      ImplicationRejected(s, Spaces(s, i + 1), ds);
    } else {
      NotAt(s, i, "(");
      PropositionRejected(s, i, ds);
      hide At, ComparesTwice, AtomicProp;
    }
  }

  lemma UnfoldsAt(s: string, i: nat, ds: set<string>)
    requires i < |s| && s[i] == '(' && ComparesTwice(s, i, ds)
    ensures ComparesTwice(s, Spaces(s, i + 1), ds)
  {}

  lemma {:induction false} ImplicationRejected(s: string, i: nat, ds: set<string>)
    requires i <= |s| && ComparesTwice(s, i, ds)
    ensures ImplicationRule(s, i, ds) == NoMatch
    decreases |s| - i, 1
  {
    OperandRejected(s, i, ds);
    hide Operand, ComparesTwice;
    assert OperandOf(AND, s, i, ds) == NoMatch;
    assert Operands(AND, s, i, ds) == NoMatch;
    assert OperandOf(OR, s, i, ds) == NoMatch;
  }

  lemma LineRejected(s: string, i: nat, ds: set<string>)
    requires i <= |s| && ComparesTwice(s, i, ds)
    ensures ConstraintRule(s, i, ds) == NoMatch && Constraints(s, i, ds) == Match(i, [])
  {
    ImplicationRejected(s, i, ds);
    hide ImplicationRule, ComparesTwice;
  }

  // ---- Documents with such a constraint -------------------------------------------------------------------

  lemma StartsSolid(s: string, i: nat, ds: set<string>)
    requires i <= |s| && ComparesTwice(s, i, ds)
    ensures i < |s| && Spacing(s, i) == i
  {
    assert i < |s| && IsSolid(s[i]);
    SpacingStops(s, i);
  }

  lemma HeaderStarts(s: string, i: nat, j: nat)
    requires Span(s, i, j, "[" + "Constraint" + "]\n")
    ensures i < j <= |s| && SectionEnds(s, i) && Spacing(s, i) == i && NotRelation(s, i)
    ensures SectionHeader(s, i, "Constraint") == Match(Spacing(s, j), ())
  {
    HeaderSpan(s, i, j, "Constraint");
    SpacingStops(s, i);
  }

  lemma NoneLeft(s: string, k: nat, j: nat, e: nat, cs: seq<Constraint>, ds: set<string>)
    requires k <= |s| && j <= e < |s| && SectionHeader(s, k, "Constraint") == Match(j, ()) && Constraints(s, j, ds) == Match(e, cs)
    ensures Optional(ConstraintSection(s, k, ds), k) == Match(e, cs)
  {
    hide SectionHeader, Constraints;
  }

  /** The section of constraints stops in front of the constraint. */
  lemma SectionStops(s: string, k: nat, l: nat, e: nat, texts: seq<string>, cs: seq<Constraint>, ds: set<string>)
    requires AllReadAs(texts, cs, ds) && e <= |s| && ComparesTwice(s, e, ds)
    requires Span(s, k, l, "[" + "Constraint" + "]\n") && Span(s, l, e, Lines(texts))
    ensures k < e < |s| && Optional(ConstraintSection(s, k, ds), k) == Match(e, cs)
  {
    hide *;
    HeaderStarts(s, k, l);
    StartsSolid(s, e, ds);
    LineRejected(s, e, ds);
    ConstraintLines(s, l, e, texts, cs, ds);
    NoneLeft(s, k, Spacing(s, l), e, cs, ds);
  }

  /** A document whose section of constraints goes on with `rest`. */
  function Document(name: string, ps: seq<Parameter>, rtexts: seq<string>, ctexts: seq<string>, rest: string): string {
    PrintSystemSection(name) + PrintSection("Parameter", PrintParameters(ps), "\n") + RelationPart(rtexts)
    + ("[" + "Constraint" + "]\n" + Lines(ctexts) + rest)
  }

  /** A document with correct sections and constraints, and then a constraint that starts with "==" after a declared name
      and any number of parentheses: it is rejected, whatever follows. */
  lemma DocumentRejected(s: string, m: Model, name: string, ps: seq<Parameter>, rtexts: seq<string>, rs: seq<Relation>,
                         opening: string, ctexts: seq<string>, cs: seq<Constraint>, rest: string)
    requires s == Document(name, ps, rtexts, ctexts, rest)
    requires WellFormedName(name) && ps != [] && forall k | 0 <= k < |ps| :: WellFormedParameter(ps[k])
    requires IsOpening(opening) && AllRelationTexts(rtexts, rs, opening, Declared(m.parameters + ps))
    requires AllReadAs(ctexts, cs, Declared(m.parameters + ps))
    requires |rest| <= |s| && ComparesTwice(s, |s| - |rest|, Declared(m.parameters + ps))
    ensures ParseInto(s, m) == NoMatch
  {
    hide *;
    var ds := Declared(m.parameters + ps);
    var i, j, k, l, e := CutDocument(s, name, ps, rtexts, ctexts, rest);
    SpanLength(s, e, |s|, rest);
    RestStops(s, j, k, l, e, rtexts, rs, opening, ctexts, cs, ds);
    ParameterSectionSpan(s, i, j, ps);
    SystemSpan(s, 0, i, name);
    SectionStarts(s, 0);
    SectionStarts(s, i);
    Stopped(s, m, i, j, k, e, name, ps, rs, cs);
  }

  lemma RestStops(s: string, j: nat, k: nat, l: nat, e: nat, rtexts: seq<string>, rs: seq<Relation>, opening: string,
                  ctexts: seq<string>, cs: seq<Constraint>, ds: set<string>)
    requires IsOpening(opening) && AllRelationTexts(rtexts, rs, opening, ds) && AllReadAs(ctexts, cs, ds)
    requires Span(s, j, k, RelationPart(rtexts)) && Span(s, k, l, "[" + "Constraint" + "]\n") && Span(s, l, e, Lines(ctexts))
    requires e <= |s| && ComparesTwice(s, e, ds)
    ensures j <= k <= e < |s| && SectionEnds(s, j) && Spacing(s, j) == j
    ensures Optional(RelationSection(s, j, ds), j) == Match(k, rs)
    ensures Optional(ConstraintSection(s, k, ds), k) == Match(e, cs)
  {
    hide *;
    HeaderStarts(s, k, l);
    SectionStops(s, k, l, e, ctexts, cs, ds);
    RelationPartSpan(s, j, k, rtexts, rs, opening, ds);
  }

  lemma CutDocument(s: string, name: string, ps: seq<Parameter>, rtexts: seq<string>, ctexts: seq<string>, rest: string)
    returns (i: nat, j: nat, k: nat, l: nat, e: nat)
    requires s == Document(name, ps, rtexts, ctexts, rest)
    ensures i <= j <= k <= l <= e <= |s| && Span(s, 0, i, PrintSystemSection(name))
    ensures Span(s, i, j, PrintSection("Parameter", PrintParameters(ps), "\n")) && Span(s, j, k, RelationPart(rtexts))
    ensures Span(s, k, l, "[" + "Constraint" + "]\n") && Span(s, l, e, Lines(ctexts)) && Span(s, e, |s|, rest)
  {
    var a, b := PrintSystemSection(name), PrintSection("Parameter", PrintParameters(ps), "\n");
    var h := "[" + "Constraint" + "]\n";
    assert s == a + b + RelationPart(rtexts) + (h + Lines(ctexts) + rest);
    hide *;
    WholeSpan(s);
    j, k := Cut3(s, 0, |s|, a + b, RelationPart(rtexts), h + Lines(ctexts) + rest);
    i := Cut(s, 0, j, a, b);
    l, e := Cut3(s, k, |s|, h, Lines(ctexts), rest);
  }

  lemma SectionStarts(s: string, i: nat)
    requires i < |s| && s[i] == '['
    ensures Spacing(s, i) == i
  {
    SpacingStops(s, i);
  }

  lemma Stopped(s: string, m: Model, i: nat, j: nat, k: nat, e: nat, name: string, ps: seq<Parameter>, rs: seq<Relation>,
                cs: seq<Constraint>)
    requires i <= j <= k <= e < |s| && Spacing(s, 0) == 0 && Spacing(s, i) == i && Spacing(s, j) == j
    requires SystemSection(s, 0) == Match(Spacing(s, i), name) && ParameterSection(s, i) == Match(Spacing(s, j), ps)
    requires Optional(RelationSection(s, j, Declared(m.parameters + ps)), j) == Match(k, rs)
    requires Optional(ConstraintSection(s, k, Declared(m.parameters + ps)), k) == Match(e, cs)
    ensures ParseInto(s, m) == NoMatch
  {
    hide SystemSection, ParameterSection, RelationSection, ConstraintSection, Optional, Declared, Spacing;
  }

  lemma SpanLength(s: string, i: nat, j: nat, t: string)
    requires Span(s, i, j, t)
    ensures j == i + |t|
  {}

  // ---- The example of README.md -----------------------------------------------------------------------------

  const SYSTEM_LINES := ["[System]", "Name: MyWebSystem", ""]
  const PARAMETER_LINES := ["OS (enum) : Linux, Windows, macOS", "Browser (enum) : Chrome, Firefox, Safari",
                            "HTTPS (boolean) : true, false", "Connections (int) : 10, 100, 1000"]
  const RELATION_LINES := ["R1 : (OS, Browser, 2)"]
  const CONSTRAINT_LINES := ["(Browser == \"Safari\") => (OS == \"macOS\")", "(Connections == 1000) => (HTTPS == true)"]

  /** The example, line by line. */
  function Example(): string {
    Lines(SYSTEM_LINES) + Lines(["[Parameter]"] + PARAMETER_LINES + [""]) + Lines(["[Relation]"] + RELATION_LINES + [""])
    + Lines(["[Constraint]"] + CONSTRAINT_LINES)
  }

  function Enum(name: string, a: string, b: string, c: string): Parameter {
    Parameter(name, ENUM, [EnumValue(a), EnumValue(b), EnumValue(c)])
  }

  function ExampleParameters(): seq<Parameter> {
    [Enum("OS", "Linux", "Windows", "macOS"), Enum("Browser", "Chrome", "Firefox", "Safari"),
     Parameter("HTTPS", BOOLEAN, [BoolValue(true), BoolValue(false)]),
     Parameter("Connections", INTEGER, [IntValue(10), IntValue(100), IntValue(1000)])]
  }

  lemma LettersCover(stop: string, v: string, k: nat)
    requires k <= |v| && forall n | 0 <= n < |v| :: v[n] as int < 0x80 && v[n] !in stop
    ensures SkipText(stop, v, k) == |v|
    decreases |v| - k
  {
    if k < |v| { LettersCover(stop, v, k + 1); }
  }

  lemma IdentifierIsValue(v: string)
    requires IsIdentifier(v)
    ensures WellFormedValue(ENUM, EnumValue(v)) && WellFormedName(v)
  {
    forall n | 0 <= n < |v| ensures v[n] as int < 0x80 && v[n] !in ",;\n\r" && v[n] !in "\n\r" && !IsTrimmable(v[n]) {}
    LettersCover(",;\n\r", v, 0);
    LettersCover("\n\r", v, 0);
  }

  lemma EnumIsOk(name: string, a: string, b: string, c: string)
    requires IsIdentifier(name) && IsIdentifier(a) && IsIdentifier(b) && IsIdentifier(c)
    ensures WellFormedParameter(Enum(name, a, b, c))
  {
    IdentifierIsValue(a);
    IdentifierIsValue(b);
    IdentifierIsValue(c);
  }

  lemma ParametersAreOk()
    ensures forall k | 0 <= k < |ExampleParameters()| :: WellFormedParameter(ExampleParameters()[k])
  {
    EnumIsOk("OS", "Linux", "Windows", "macOS");
    EnumIsOk("Browser", "Chrome", "Firefox", "Safari");
    hide Enum;
  }

  lemma ThreeValues(x: Value, y: Value, z: Value)
    ensures PrintValues([x, y, z]) == PrintValue(x) + (", " + PrintValue(y) + (", " + PrintValue(z)))
  {
    hide PrintValue;
    assert [x, y, z][1..] == [y, z] && [y, z][1..] == [z] && [z][1..] == [];
    assert PrintMoreValues([z]) == ", " + PrintValue(z) + "";
    assert PrintMoreValues([y, z]) == ", " + PrintValue(y) + PrintMoreValues([z]);
  }

  lemma EnumText(name: string, a: string, b: string, c: string)
    ensures PrintParameter(Enum(name, a, b, c)) == name + " " + "(enum) : " + (a + (", " + b + (", " + c)))
  {
    ThreeValues(EnumValue(a), EnumValue(b), EnumValue(c));
    hide PrintValues;
    assert "(" + "enum" + ") : " == "(enum) : ";
  }

  lemma BooleansText(name: string)
    ensures PrintParameter(Parameter(name, BOOLEAN, [BoolValue(true), BoolValue(false)])) ==
            name + " " + "(boolean) : " + "true, false"
  {
    TwoBooleans();
    hide PrintValues;
    assert "(" + "boolean" + ") : " == "(boolean) : ";
  }

  lemma TwoBooleans()
    ensures PrintValues([BoolValue(true), BoolValue(false)]) == "true, false"
  {
    var vs := [BoolValue(true), BoolValue(false)];
    assert vs[1..] == [BoolValue(false)] && vs[1..][1..] == [];
    assert PrintMoreValues(vs[1..]) == ", " + "false" + "";
    assert "true" + (", " + "false" + "") == "true, false";
  }

  lemma Numerals()
    ensures IntToString(10) == "10" && IntToString(100) == "100" && IntToString(1000) == "1000"
  {
    assert NatToString(1) == "1";
    assert NatToString(10) == "10";
    assert NatToString(100) == "100";
  }

  lemma NumbersText(name: string)
    ensures PrintParameter(Parameter(name, INTEGER, [IntValue(10), IntValue(100), IntValue(1000)])) ==
            name + " " + "(int) : " + ("10" + (", " + "100" + (", " + "1000")))
  {
    Numerals();
    ThreeValues(IntValue(10), IntValue(100), IntValue(1000));
    hide IntToString, PrintValues;
    assert "(" + "int" + ") : " == "(int) : ";
  }

  lemma OsLine()
    ensures PrintParameter(ExampleParameters()[0]) == PARAMETER_LINES[0]
  {
    EnumText("OS", "Linux", "Windows", "macOS");
    hide PrintParameter;
    assert ", " + "Windows" + (", " + "macOS") == ", Windows, macOS";
    assert "OS" + " " + "(enum) : " + ("Linux" + ", Windows, macOS") == PARAMETER_LINES[0];
  }

  lemma BrowserLine()
    ensures PrintParameter(ExampleParameters()[1]) == PARAMETER_LINES[1]
  {
    EnumText("Browser", "Chrome", "Firefox", "Safari");
    hide PrintParameter;
    assert ", " + "Firefox" + (", " + "Safari") == ", Firefox, Safari";
    assert "Browser" + " " + "(enum) : " + ("Chrome" + ", Firefox, Safari") == PARAMETER_LINES[1];
  }

  lemma HttpsLine()
    ensures PrintParameter(ExampleParameters()[2]) == PARAMETER_LINES[2]
  {
    BooleansText("HTTPS");
    hide PrintParameter;
    assert "HTTPS" + " " + "(boolean) : " + "true, false" == PARAMETER_LINES[2];
  }

  lemma ConnectionsLine()
    ensures PrintParameter(ExampleParameters()[3]) == PARAMETER_LINES[3]
  {
    NumbersText("Connections");
    hide PrintParameter;
    assert "10" + (", " + "100" + (", " + "1000")) == "10, 100, 1000";
    assert "Connections" + " " + "(int) : " + "10, 100, 1000" == PARAMETER_LINES[3];
  }

  lemma ExampleLines()
    ensures PrintParameters(ExampleParameters()) == PARAMETER_LINES
  {
    OsLine();
    BrowserLine();
    HttpsLine();
    ConnectionsLine();
    hide PrintParameter;
  }

  const EXAMPLE_RELATION := Relation("R1", ["OS", "Browser"], 2)

  lemma RelationLine()
    ensures PrintRelationWith(EXAMPLE_RELATION, " : (") == RELATION_LINES[0]
  {
    var names := ["OS", "Browser"];
    assert names[1..] == ["Browser"] && names[1..][1..] == [];
    assert PrintReferences(names[1..][1..]) == "";
    assert PrintReferences(names[1..]) == "Browser" + ", ";
    assert PrintReferences(names) == "OS" + ", " + ("Browser" + ", ");
    assert NatToString(2) == "2";
    hide PrintReferences, NatToString;
    assert "R1" + " : (" + ("OS" + ", " + ("Browser" + ", ")) + "2" + ")" == RELATION_LINES[0];
  }

  lemma ExampleDeclares()
    ensures "OS" in Declared(ExampleParameters()) && "Browser" in Declared(ExampleParameters())
  {
    var ps := ExampleParameters();
    assert ps[0] in ps && ps[1] in ps;
  }

  lemma RelationIsOk()
    ensures AllRelationTexts(RELATION_LINES, [EXAMPLE_RELATION], " : (", Declared(ExampleParameters()))
  {
    ExampleDeclares();
    RelationLine();
    hide PrintRelationWith, Declared;
    assert RELATION_LINES[1..] == [] && [EXAMPLE_RELATION][1..] == [];
  }

  lemma LinesOf(a: string, b: string, c: string)
    ensures Lines([a, b, c]) == a + "\n" + (b + "\n" + (c + "\n"))
  {
    assert [a, b, c][1..] == [b, c] && [b, c][1..] == [c] && [c][1..] == [];
    assert Lines([c]) == c + "\n" + "";
    assert Lines([b, c]) == b + "\n" + Lines([c]);
  }

  lemma SystemLines()
    ensures Lines(SYSTEM_LINES) == PrintSystemSection("MyWebSystem")
  {
    LinesOf("[System]", "Name: MyWebSystem", "");
    hide Lines;
    assert "[System]" + "\n" + ("Name: MyWebSystem" + "\n" + ("" + "\n")) == PrintSystemSection("MyWebSystem");
  }

  lemma {:induction false} LinesConcat(a: seq<string>, b: seq<string>)
    ensures Lines(a + b) == Lines(a) + Lines(b)
  {
    if a == [] {
      assert a + b == b;
    } else {
      LinesConcat(a[1..], b);
      assert (a + b)[1..] == a[1..] + b;
    }
  }

  lemma SectionLines(name: string, texts: seq<string>)
    ensures Lines(["[" + name + "]"] + texts + [""]) == PrintSection(name, texts, "\n")
  {
    var head := ["[" + name + "]"];
    LinesConcat(head + texts, [""]);
    LinesConcat(head, texts);
    assert head[1..] == [] && [""][1..] == [];
    assert Lines(head) == "[" + name + "]" + "\n" + "";
    assert Lines([""]) == "" + "\n" + "";
    hide Lines;
    assert "[" + name + "]" + "\n" == "[" + name + "]\n";
  }

  lemma ConstraintLinesOf()
    ensures Lines(["[Constraint]"] + CONSTRAINT_LINES) == "[" + "Constraint" + "]\n" + Lines([]) + Lines(CONSTRAINT_LINES)
  {
    var head := ["[Constraint]"];
    LinesConcat(head, CONSTRAINT_LINES);
    assert head[1..] == [];
    assert Lines([]) == "";
    assert Lines(head) == "[Constraint]" + "\n" + "";
    hide Lines;
    assert "[Constraint]" + "\n" + "" == "[" + "Constraint" + "]\n" + "";
  }

  lemma ExampleIsDocument()
    ensures Example() == Document("MyWebSystem", ExampleParameters(), RELATION_LINES, [], Lines(CONSTRAINT_LINES))
  {
    SystemLines();
    ExampleLines();
    SectionLines("Parameter", PARAMETER_LINES);
    SectionLines("Relation", RELATION_LINES);
    assert "[" + "Parameter" + "]" == "[Parameter]" && "[" + "Relation" + "]" == "[Relation]";
    ConstraintLinesOf();
    hide Lines, PrintSystemSection, PrintSection, PrintParameters, ExampleParameters;
  }

  /** The first constraint compares a declared name with "==" after a parenthesis. */
  lemma ExampleCompares(s: string, e: nat)
    requires Span(s, e, |s|, Lines(CONSTRAINT_LINES)) && e <= |s|
    ensures ComparesTwice(s, e, Declared(ExampleParameters()))
  {
    ExampleDeclares();
    var tail := " \"Safari\") => (OS == \"macOS\")";
    FirstConstraint(tail);
    hide ExampleParameters, Declared, ComparesTwice;
    var f, n := CutLine(s, e, |s|, CONSTRAINT_LINES);
    hide Lines, Span;
    var a, b := Cut3(s, e, f, "(", "Browser", " ==" + tail);
    var c := Cut(s, b, f, " ==", tail);
    hide *;
    ParenthesisThenName(s, e, a, b, c, Declared(ExampleParameters()));
  }

  lemma FirstConstraint(tail: string)
    requires tail == " \"Safari\") => (OS == \"macOS\")"
    ensures CONSTRAINT_LINES[0] == "(" + "Browser" + (" ==" + tail)
  {}

  lemma ParenthesisThenName(s: string, e: nat, a: nat, b: nat, c: nat, ds: set<string>)
    requires Span(s, e, a, "(") && Span(s, a, b, "Browser") && Span(s, b, c, " ==") && "Browser" in ds
    ensures e <= |s| && ComparesTwice(s, e, ds)
  {
    SpanBounds(s, e, a, "(");
    SpanBounds(s, a, b, "Browser");
    SpanBounds(s, b, c, " ==");
    assert " ==" == " " + "==";
    var k := Cut(s, b, c, " ", "==");
    SpanBounds(s, k, c, "==");
    Blank1(s, b, k);
    IdentifierSpan(s, a, b, "Browser");
    hide Identifier, Spaces;
    assert Spaces(s, a) == a by { RunEnds(Blank, s, a, a); }
    assert ComparesTwice(s, a, ds);
  }

  lemma NameIsOk()
    ensures WellFormedName("MyWebSystem")
  {
    IdentifierIsValue("MyWebSystem");
  }

  /** The example of README.md is rejected. */
  lemma ExampleIsRejected()
    ensures Parse(Example()) == NoMatch
  {
    hide *;
    var s, ps := Example(), ExampleParameters();
    ExampleIsDocument();
    NameIsOk();
    ParametersAreOk();
    RelationIsOk();
    NoConstraintTexts(Declared(ps));
    SpaceColon();
    var i, j, k, l, e := CutDocument(s, "MyWebSystem", ps, RELATION_LINES, [], Lines(CONSTRAINT_LINES));
    ExampleCompares(s, e);
    SpanLength(s, e, |s|, Lines(CONSTRAINT_LINES));
    IntoEmpty(s, ps);
    DocumentRejected(s, EmptyModel(), "MyWebSystem", ps, RELATION_LINES, [EXAMPLE_RELATION], " : (", [], [],
                     Lines(CONSTRAINT_LINES));
  }

  lemma NoConstraintTexts(ds: set<string>)
    ensures AllReadAs([], [], ds)
  {}

  lemma SpaceColon()
    ensures IsOpening(" : (") && ExampleParameters() != []
  {}

  lemma IntoEmpty(s: string, ps: seq<Parameter>)
    ensures Parse(s) == ParseInto(s, EmptyModel()) && EmptyModel().parameters + ps == ps
  {
    hide ParseInto;
  }
}
