/** Clauses as text: parenthesized propositions joined by "||", as both converters write them, and what the parser
    reads from them. */
module Clauses {
  import opened Text
  import opened Acts
  import opened Rules
  import opened RoundTrip
  import opened ModelRoundTrip
  import P = Printer
  import E = Evaluator

  function LiteralText(c: Constraint): string { "(" + PrintConstraint(c) + ")" }

  function ClauseText(cs: seq<Constraint>): string {
    if cs == [] then "" else LiteralText(cs[0]) + MoreText(cs[1..])
  }

  function MoreText(cs: seq<Constraint>): string {
    if cs == [] then "" else Separator(OR) + LiteralText(cs[0]) + MoreText(cs[1..])
  }

  lemma EmptyClauseText()
    ensures ClauseText([]) == ""
  {}

  lemma {:induction false} MoreTextAppend(cs: seq<Constraint>, c: Constraint)
    ensures MoreText(cs + [c]) == MoreText(cs) + Separator(OR) + LiteralText(c)
  {
    hide LiteralText, Separator;
    if cs == [] {
      assert cs + [c] == [c];
    } else {
      assert (cs + [c])[0] == cs[0] && (cs + [c])[1..] == cs[1..] + [c];
      MoreTextAppend(cs[1..], c);
    }
  }

  /** One more literal at the end, after a separator unless it is the first one. */
  lemma ClauseTextAppend(cs: seq<Constraint>, c: Constraint)
    ensures ClauseText(cs + [c]) ==
            if cs == [] then LiteralText(c) else ClauseText(cs) + Separator(OR) + LiteralText(c)
  {
    hide LiteralText, Separator, MoreText;
    if cs == [] {
      assert cs + [c] == [c] && MoreText([]) == "" by { NoLiteral(); }
    } else {
      assert (cs + [c])[0] == cs[0] && (cs + [c])[1..] == cs[1..] + [c];
      MoreTextAppend(cs[1..], c);
      Regroup(LiteralText(cs[0]), MoreText(cs[1..]), Separator(OR), LiteralText(c));
    }
  }

  lemma Regroup(a: string, b: string, c: string, d: string)
    ensures a + (b + c + d) == a + b + c + d
  {}

  /** A single literal stands for itself. */
  function Disjunction(cs: seq<Constraint>): Constraint
    requires cs != []
  {
    if |cs| == 1 then cs[0] else Nary(OR, cs)
  }

  lemma DisjunctionMeaning(cs: seq<Constraint>, ps: seq<Parameter>, test: seq<int>)
    requires |test| == |ps| && forall k | 0 <= k < |cs| :: E.Typed(cs[k], ps)
    ensures E.Typed(Nary(OR, cs), ps)
    ensures E.Holds(Nary(OR, cs), ps, test) <==> exists k | 0 <= k < |cs| :: E.Holds(cs[k], ps, test)
  {}

  predicate AllWellFormed(cs: seq<Constraint>, ds: set<string>) {
    forall k | 0 <= k < |cs| :: WellFormedConstraint(cs[k], ds)
  }

  lemma LiteralSpan(s: string, i: nat, j: nat, c: Constraint, ds: set<string>)
    requires WellFormedConstraint(c, ds) && Span(s, i, j, LiteralText(c))
    ensures i < j <= |s| && s[i] == '(' && Operand(s, i, ds) == Match(j, c)
  {
    hide Span, PrintConstraint, WellFormedConstraint, ImplicationRule, Operand, CannotExtend, Closes;
    var k, l := Cut3(s, i, j, "(", PrintConstraint(c), ")");
    StartsSpan(s, k, l, c, ds);
    Inner(s, k, l, j, c, ds);
    SpanBounds(s, i, k, "(");
    InParentheses(s, i, k, l, j, c, ds);
  }

  lemma Inner(s: string, i: nat, j: nat, e: nat, c: Constraint, ds: set<string>)
    requires WellFormedConstraint(c, ds) && Span(s, i, j, PrintConstraint(c)) && Span(s, j, e, ")") && i <= |s|
    ensures ImplicationRule(s, i, ds) == Match(j, c)
  {
    SpanBounds(s, j, e, ")");
    StopsAt(s, j);
    hide ImplicationRule, WellFormedConstraint, PrintConstraint, CannotExtend, At;
    ConstraintRoundTrip(s, i, c, ds);
  }

  /** After a literal the line ends or another literal follows. */
  lemma AfterLiteral(s: string, i: nat, e: nat, cs: seq<Constraint>, ds: set<string>)
    requires AllWellFormed(cs, ds) && Span(s, i, e, MoreText(cs)) && e < |s| && s[e] == '\n'
    ensures NoOperator(AND, s, i)
  {
    hide Span, WellFormedConstraint, NoOperator, CannotExtend;
    if cs == [] {
      EmptySpan(s, i, e);
      StopsAt(s, e);
      Unextended(s, e);
    } else {
      var j, k := CutLiteral(s, i, e, cs, ds);
    }
  }

  /** Where the first of the literals after `i` stands. */
  lemma CutLiteral(s: string, i: nat, e: nat, cs: seq<Constraint>, ds: set<string>) returns (j: nat, k: nat)
    requires cs != [] && WellFormedConstraint(cs[0], ds) && Span(s, i, e, MoreText(cs))
    ensures i < j < k <= e <= |s| && Operand(s, j, ds) == Match(k, cs[0]) && Span(s, k, e, MoreText(cs[1..]))
    ensures Infix(s, i, j, Symbol(OR)) && NoOperator(AND, s, i)
  {
    hide Span, WellFormedConstraint, NoOperator, Operand, LiteralText, Separator, Symbol, Infix;
    j, k := Cut3(s, i, e, Separator(OR), LiteralText(cs[0]), MoreText(cs[1..]));
    LiteralSpan(s, j, k, cs[0], ds);
    assert NoBlank(s, j);
    SeparatorSpan(s, i, j, OR);
  }

  lemma {:induction false} MoreLiterals(s: string, i: nat, e: nat, cs: seq<Constraint>, ds: set<string>)
    requires AllWellFormed(cs, ds) && Span(s, i, e, MoreText(cs)) && e < |s| && s[e] == '\n'
    ensures i <= e && MoreOperands(OR, s, i, ds) == Match(e, cs)
    decreases |cs|
  {
    hide Span, WellFormedConstraint, NoOperator, CannotExtend, Operand, OperandOf, MoreOperands, Infix, MoreText;
    if cs == [] {
      NoLiteral();
      EmptySpan(s, i, e);
      StopsAt(s, e);
      Unextended(s, e);
      NoMore(s, i, OR, ds);
    } else {
      var j, k := CutLiteral(s, i, e, cs, ds);
      MoreLiterals(s, k, e, cs[1..], ds);
      AfterLiteral(s, k, e, cs[1..], ds);
      AsAndExpr(s, j, k, cs[0], ds);
      OneMore(s, i, j, k, e, OR, cs, ds);
    }
  }

  lemma NoLiteral()
    ensures MoreText([]) == ""
  {}

  lemma AsAndExpr(s: string, i: nat, j: nat, c: Constraint, ds: set<string>)
    requires i <= j <= |s| && Operand(s, i, ds) == Match(j, c) && NoOperator(AND, s, j)
    ensures OperandOf(OR, s, i, ds) == Match(j, c)
  {
    hide Operand, NoOperator, Operands;
    Alone(s, i, j, c, ds);
  }

  lemma ClauseSpan(s: string, i: nat, e: nat, cs: seq<Constraint>, ds: set<string>)
    requires cs != [] && AllWellFormed(cs, ds) && Span(s, i, e, ClauseText(cs)) && e < |s| && s[e] == '\n' && i <= |s|
    ensures ImplicationRule(s, i, ds) == Match(e, Disjunction(cs))
  {
    hide Span, WellFormedConstraint, NoOperator, CannotExtend, Operand, OperandOf, MoreOperands, ImplicationRule, LiteralText;
    var j := Cut(s, i, e, LiteralText(cs[0]), MoreText(cs[1..]));
    LiteralSpan(s, i, j, cs[0], ds);
    MoreLiterals(s, j, e, cs[1..], ds);
    AfterLiteral(s, j, e, cs[1..], ds);
    AsAndExpr(s, i, j, cs[0], ds);
    StopsAt(s, e);
    if |cs| == 1 {
      SingleLiteral(s, i, j, cs[0], ds);
      LastLiteral(s, j, e, cs[1..]);
    } else {
      Grouped(s, i, j, e, OR, cs, ds);
    }
  }

  lemma LastLiteral(s: string, i: nat, e: nat, cs: seq<Constraint>)
    requires cs == [] && Span(s, i, e, MoreText(cs))
    ensures i == e
  {
    EmptySpan(s, i, e);
  }

  lemma SingleLiteral(s: string, i: nat, j: nat, c: Constraint, ds: set<string>)
    requires i <= j <= |s| && Operand(s, i, ds) == Match(j, c)
    ensures CannotExtend(s, j) ==> ImplicationRule(s, i, ds) == Match(j, c)
  {
    hide Operand, Operands;
    if CannotExtend(s, j) {
      Alone(s, i, j, c, ds);
      assert Conclusion(s, j, ds) == NoMatch;
    }
  }

  /** The text of a clause is read as the disjunction of its literals. */
  lemma ClauseReads(cs: seq<Constraint>, ds: set<string>)
    requires cs != [] && AllWellFormed(cs, ds)
    ensures ReadsAs(ClauseText(cs), Disjunction(cs), ds)
  {
    hide WellFormedConstraint, Span;
    var t := ClauseText(cs);
    assert t != "" && t[0] == '(' by { ClauseStarts(cs); }
    forall s: string, i: nat, j: nat | Span(s, i, j, t) && j < |s| && s[j] == '\n' && i <= |s|
      ensures ImplicationRule(s, i, ds) == Match(j, Disjunction(cs))
    {
      hide *;
      ClauseSpan(s, i, j, cs, ds);
    }
  }

  lemma ClauseStarts(cs: seq<Constraint>)
    requires cs != []
    ensures ClauseText(cs) != "" && ClauseText(cs)[0] == '('
  {}

  // ---- The rest of a converted file ------------------------------------------------------------------

  /** The clauses that are written: empty ones are skipped. */
  function Kept<T>(clauses: seq<seq<T>>): (kept: seq<seq<T>>)
    ensures forall k | 0 <= k < |kept| :: kept[k] != []
  {
    if clauses == [] then []
    else
      var last := clauses[|clauses| - 1];
      Kept(clauses[..|clauses| - 1]) + if last == [] then [] else [last]
  }

  lemma KeepNext<T>(clauses: seq<seq<T>>, i: nat)
    requires i < |clauses|
    ensures Kept(clauses[..i + 1]) == if clauses[i] == [] then Kept(clauses[..i]) else Kept(clauses[..i]) + [clauses[i]]
  {
    assert clauses[..i + 1][..i] == clauses[..i];
  }

  /** The line of the only relation. */
  function RelationLine(names: seq<string>, strength: int): string {
    "R1" + " : (" + PrintReferences(names) + IntToString(strength) + ")"
  }

  lemma RelationReads(names: seq<string>, strength: nat, ds: set<string>)
    requires names != [] && AllDeclared(names, ds) && strength <= INT_MAX
    ensures AllRelationTexts([RelationLine(names, strength)], [Relation("R1", names, strength)], " : (", ds)
  {
    assert IsIdentifier("R1");
    hide IsIdentifier, PrintReferences;
    var r := Relation("R1", names, strength);
    assert WellFormedRelation(r, ds);
    assert RelationLine(names, strength) == PrintRelationWith(r, " : (");
    assert RelationText(RelationLine(names, strength), r, " : (", ds);
    assert [RelationLine(names, strength)][1..] == [] && [r][1..] == [];
  }

  lemma OneLine(t: string)
    ensures RelationPart([t]) == "[Relation]\n" + t + "\n\n"
  {
    assert Lines([t]) == t + "\n";
    hide Lines;
    assert "[" + "Relation" + "]\n" == "[Relation]\n";
    assert "\n" + "\n" == "\n\n";
  }

  /** The names with ", " between neighbours. */
  function CommaSeparated(names: seq<string>): string {
    if names == [] then ""
    else if |names| == 1 then names[0]
    else CommaSeparated(names[..|names| - 1]) + ", " + names[|names| - 1]
  }

  lemma {:induction false} References(names: seq<string>)
    requires names != []
    ensures PrintReferences(names) == CommaSeparated(names) + ", "
  {
    var n := |names| - 1;
    assert names == names[..n] + [names[n]];
    P.LastReference(names[..n], names[n]);
    if n == 0 { assert names[..n] == []; } else { References(names[..n]); }
  }

  lemma RelationLineText(names: seq<string>, strength: int)
    requires names != []
    ensures RelationLine(names, strength) == "R1 : (" + CommaSeparated(names) + ", " + IntToString(strength) + ")"
  {
    References(names);
    hide CommaSeparated, PrintReferences, IntToString;
    assert "R1" + " : (" == "R1 : (";
  }
}
