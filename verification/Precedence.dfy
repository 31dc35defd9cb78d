/** Constraints without parentheses: a conjunction binds tighter than a disjunction, and a disjunction tighter than an
    implication. */
module Precedence {
  import opened Text
  import opened Acts
  import opened Rules
  import opened RoundTrip
  import opened ModelRoundTrip
  import opened Clauses

  /** Groups of constraints: no group is empty. */
  predicate AreGroups(css: seq<seq<Constraint>>, ds: set<string>) {
    forall k | 0 <= k < |css| :: css[k] != [] && AllWellFormed(css[k], ds)
  }

  /** The constraints with " && " between neighbours. */
  function AndText(cs: seq<Constraint>): string
    requires cs != []
  {
    PrintConstraint(cs[0]) + PrintOperands(AND, cs[1..])
  }

  /** A single constraint stays alone. */
  function Tree(op: NaryOperator, cs: seq<Constraint>): Constraint
    requires cs != []
  {
    if |cs| == 1 then cs[0] else Nary(op, cs)
  }

  function Trees(css: seq<seq<Constraint>>): (cs: seq<Constraint>)
    requires forall k | 0 <= k < |css| :: css[k] != []
    ensures |cs| == |css| && forall k | 0 <= k < |css| :: cs[k] == Tree(AND, css[k])
  {
    seq(|css|, k requires 0 <= k < |css| => Tree(AND, css[k]))
  }

  function MoreGroups(css: seq<seq<Constraint>>): string
    requires forall k | 0 <= k < |css| :: css[k] != []
  {
    if css == [] then "" else " || " + AndText(css[0]) + MoreGroups(css[1..])
  }

  /** The groups with " || " between neighbours, and no parentheses around them. */
  function OrText(css: seq<seq<Constraint>>): string
    requires css != [] && forall k | 0 <= k < |css| :: css[k] != []
  {
    AndText(css[0]) + MoreGroups(css[1..])
  }

  function OrTree(css: seq<seq<Constraint>>): Constraint
    requires css != [] && forall k | 0 <= k < |css| :: css[k] != []
  {
    Tree(OR, Trees(css))
  }

  /** A conjunction may end here. */
  predicate Ends(s: string, e: nat) { e < |s| && !IsDigit(s[e]) && NoOperator(AND, s, e) }

  lemma {:induction false} MoreAndsRead(s: string, i: nat, e: nat, cs: seq<Constraint>, ds: set<string>)
    requires AllWellFormed(cs, ds) && Span(s, i, e, PrintOperands(AND, cs)) && Ends(s, e)
    ensures i <= e && !IsDigit(s[i]) && MoreOperands(AND, s, i, ds) == Match(e, cs)
    decreases |cs|
  {
    if cs == [] {
      EmptySpan(s, i, e);
      NoMore(s, e, AND, ds);
    } else {
      assert AllWellFormed(cs[1..], ds);
      hide Span, Ends, Infix, Operand, MoreOperands, WellFormedConstraint, PrintConstraint, PrintOperands;
      var j, k := CutOperands(s, i, e, AND, cs, ds);
      MoreAndsRead(s, k, e, cs[1..], ds);
      OperandRoundTrip(s, j, k, cs[0], ds);
      OneMore(s, i, j, k, e, AND, cs, ds);
    }
  }

  lemma AndRead(s: string, i: nat, e: nat, cs: seq<Constraint>, ds: set<string>)
    requires cs != [] && AllWellFormed(cs, ds) && Span(s, i, e, AndText(cs)) && Ends(s, e)
    ensures i < e && NoBlank(s, i) && Starts(s, i) && Operands(AND, s, i, ds) == Match(e, Tree(AND, cs))
  {
    assert AllWellFormed(cs[1..], ds);
    hide Span, Ends, Operand, MoreOperands, WellFormedConstraint, PrintConstraint, PrintOperands, NoBlank, Starts;
    var j := Cut(s, i, e, PrintConstraint(cs[0]), PrintOperands(AND, cs[1..]));
    StartsSpan(s, i, j, cs[0], ds);
    MoreAndsRead(s, j, e, cs[1..], ds);
    OperandRoundTrip(s, i, j, cs[0], ds);
    assert [cs[0]] + cs[1..] == cs;
  }

  lemma {:induction false} MoreGroupsRead(s: string, i: nat, e: nat, css: seq<seq<Constraint>>, ds: set<string>)
    requires AreGroups(css, ds) && Span(s, i, e, MoreGroups(css)) && Ends(s, e) && NoOperator(OR, s, e)
    ensures i <= e && Ends(s, i) && MoreOperands(OR, s, i, ds) == Match(e, Trees(css))
    decreases |css|
  {
    if css == [] {
      EmptySpan(s, i, e);
      NoMore(s, e, OR, ds);
    } else {
      assert AreGroups(css[1..], ds) && css[0] != [] && AllWellFormed(css[0], ds);
      assert Separator(OR) == " || ";
      TreesOf(css);
      hide Span, Infix, Operands, MoreOperands, AllWellFormed, AndText, MoreGroups, NoBlank, Tree, Trees, Separator, NoOperator,
           Starts;
      var j, k := Cut3(s, i, e, " || ", AndText(css[0]), MoreGroups(css[1..])) by { MoreGroupsAre(css); }
      MoreGroupsRead(s, k, e, css[1..], ds);
      AndRead(s, j, k, css[0], ds);
      SeparatorSpan(s, i, j, OR);
      OneMore(s, i, j, k, e, OR, Trees(css), ds);
    }
  }

  lemma MoreGroupsAre(css: seq<seq<Constraint>>)
    requires css != [] && forall k | 0 <= k < |css| :: css[k] != []
    ensures MoreGroups(css) == " || " + AndText(css[0]) + MoreGroups(css[1..])
  {}

  lemma TreesOf(css: seq<seq<Constraint>>)
    requires css != [] && forall k | 0 <= k < |css| :: css[k] != []
    ensures Trees(css)[0] == Tree(AND, css[0]) && Trees(css)[1..] == Trees(css[1..])
  {
    hide Tree;
  }

  lemma OrRead(s: string, i: nat, e: nat, css: seq<seq<Constraint>>, ds: set<string>)
    requires css != [] && AreGroups(css, ds) && Span(s, i, e, OrText(css)) && Ends(s, e) && NoOperator(OR, s, e)
    ensures i < e && NoBlank(s, i) && Starts(s, i) && Operands(OR, s, i, ds) == Match(e, OrTree(css))
  {
    assert AreGroups(css[1..], ds) && AllWellFormed(css[0], ds);
    TreesOf(css);
    hide Span, Ends, MoreOperands, AllWellFormed, AndText, MoreGroups, NoBlank, Starts, Trees, NoOperator;
    var j := Cut(s, i, e, AndText(css[0]), MoreGroups(css[1..]));
    MoreGroupsRead(s, j, e, css[1..], ds);
    AndRead(s, i, j, css[0], ds);
    assert OperandOf(OR, s, i, ds) == Match(j, Tree(AND, css[0]));
    assert [Trees(css)[0]] + Trees(css)[1..] == Trees(css);
  }

  lemma LineEnds(s: string, e: nat)
    requires e < |s| && s[e] == '\n'
    ensures Ends(s, e) && NoOperator(OR, s, e) && CannotExtend(s, e)
  {
    StopsAt(s, e);
  }

  /** Without parentheses on a line, groups of constraints with " && " inside and " || " between are read as the disjunction
      of their conjunctions. */
  lemma DisjunctionReads(css: seq<seq<Constraint>>, ds: set<string>)
    requires css != [] && AreGroups(css, ds)
    ensures ReadsAs(OrText(css), OrTree(css), ds)
  {
    OrTextStarts(css, ds);
    hide OrText, OrTree, AreGroups;
    forall s: string, i: nat, j: nat | Span(s, i, j, OrText(css)) && j < |s| && s[j] == '\n' && i <= |s|
      ensures ImplicationRule(s, i, ds) == Match(j, OrTree(css))
    {
      LineEnds(s, j);
      OrRead(s, i, j, css, ds);
      NoConclusion(s, j, ds);
      WithoutConclusion(s, i, j, OrTree(css), ds);
    }
  }

  lemma OrTextStarts(css: seq<seq<Constraint>>, ds: set<string>)
    requires css != [] && AreGroups(css, ds)
    ensures OrText(css) != "" && (OrText(css)[0] == '(' || IsIdentifierStart(OrText(css)[0]))
  {
    assert AllWellFormed(css[0], ds);
    PrintStarts(css[0][0], ds);
    hide MoreGroups, PrintOperands, WellFormedConstraint, PrintConstraint, IsIdentifierStart;
  }

  lemma ArrowEnds(s: string, j: nat, k: nat)
    requires Arrow(s, j, k)
    ensures Ends(s, j) && NoOperator(OR, s, j)
  {
    NotAt(s, j + 1, "&&");
    NotAt(s, j + 1, "||");
  }

  lemma Concluded(s: string, i: nat, j: nat, k: nat, e: nat, l: Constraint, r: Constraint, ds: set<string>)
    requires i <= j < k <= e <= |s| && Arrow(s, j, k)
    requires Operands(OR, s, i, ds) == Match(j, l) && Operands(OR, s, k, ds) == Match(e, r)
    ensures ImplicationRule(s, i, ds) == Match(e, Implication(l, r))
  {
    hide At, Spaces, Operands;
    assert Conclusion(s, j, ds) == Match(e, r);
  }

  /** And two of them with " => " between are read as an implication of the second by the first. */
  lemma ImplicationReads(a: seq<seq<Constraint>>, b: seq<seq<Constraint>>, ds: set<string>)
    requires a != [] && AreGroups(a, ds) && b != [] && AreGroups(b, ds)
    ensures ReadsAs(OrText(a) + " => " + OrText(b), Implication(OrTree(a), OrTree(b)), ds)
  {
    OrTextStarts(a, ds);
    var t := OrText(a) + " => " + OrText(b);
    assert t[0] == OrText(a)[0];
    hide OrText, OrTree, AreGroups, Span, Operands, Arrow, Ends, NoOperator, NoBlank, IsIdentifierStart, ImplicationRule,
         CannotExtend;
    forall s: string, i: nat, e: nat | Span(s, i, e, t) && e < |s| && s[e] == '\n' && i <= |s|
      ensures ImplicationRule(s, i, ds) == Match(e, Implication(OrTree(a), OrTree(b)))
    {
      LineEnds(s, e);
      var j, k := Cut3(s, i, e, OrText(a), " => ", OrText(b));
      OrRead(s, k, e, b, ds);
      ArrowSpan(s, j, k);
      ArrowEnds(s, j, k);
      OrRead(s, i, j, a, ds);
      Concluded(s, i, j, k, e, OrTree(a), OrTree(b), ds);
    }
  }
}
