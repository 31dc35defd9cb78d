/** Printing a constraint and parsing the text gives the constraint back, in every context. */
module RoundTrip {
  import opened Text
  import opened Acts
  import opened Rules

  // ---- Texts between positions -------------------------------------------------------

  /** The text `t` stands in `s` from position `i` up to position `j`. */
  predicate Span(s: string, i: nat, j: nat, t: string) { At(s, i, t) && j == i + |t| }

  lemma SpanBounds(s: string, i: nat, j: nat, t: string)
    requires Span(s, i, j, t)
    ensures i <= j <= |s| && (t != "" ==> i < j && s[i] == t[0])
  {
    if t != "" { assert s[i + 0] == t[0]; }
  }

  lemma Cut(s: string, i: nat, j: nat, a: string, b: string) returns (k: nat)
    requires Span(s, i, j, a + b)
    ensures i <= k <= j <= |s| && Span(s, i, k, a) && Span(s, k, j, b)
  {
    AtSplit(s, i, a, b);
    k := i + |a|;
  }

  lemma Cut3(s: string, i: nat, j: nat, a: string, b: string, c: string) returns (k: nat, l: nat)
    requires Span(s, i, j, a + b + c)
    ensures i <= k <= l <= j <= |s| && Span(s, i, k, a) && Span(s, k, l, b) && Span(s, l, j, c)
  {
    hide Span;
    l := Cut(s, i, j, a + b, c);
    k := Cut(s, i, l, a, b);
  }

  lemma NotAt(s: string, i: nat, t: string)
    requires t != "" && i <= |s| && (i == |s| || s[i] != t[0])
    ensures !At(s, i, t)
  {
    if At(s, i, t) { SpanBounds(s, i, i + |t|, t); }
  }

  lemma SecondDiffers(s: string, i: nat, t: string)
    requires |t| == 2 && i + 1 < |s| && s[i + 1] != t[1]
    ensures !At(s, i, t)
  {
    if At(s, i, t) { AtSecond(s, i, t); }
  }

  lemma AtSecond(s: string, i: nat, t: string)
    requires At(s, i, t) && |t| >= 2
    ensures s[i + 1] == t[1]
  {}

  lemma AtIFirst(s: string, i: nat, t: string)
    requires AtI(s, i, t) && t != ""
    ensures i < |s| && ToLower(s[i]) == ToLower(t[0])
  {
    assert ToLower(s[i + 0]) == ToLower(t[0]);
  }

  lemma NotLitI(s: string, i: nat, t: string)
    requires t != "" && i < |s| && ToLower(s[i]) != ToLower(t[0])
    ensures LitI(s, i, t) == NoMatch
  {
    if AtI(s, i, t) { AtIFirst(s, i, t); }
  }

  lemma LitISpan(s: string, i: nat, j: nat, t: string, u: string)
    requires Span(s, i, j, t) && IEquals(t, u)
    ensures j <= |s| && LitI(s, i, u) == Match(j, ())
  {}

  lemma LitSpan(s: string, i: nat, j: nat, t: string)
    requires Span(s, i, j, t)
    ensures i <= j <= |s| && At(s, i, t) && Lit(s, i, t) == Match(j, ())
  {}

  lemma RunEnds(cls: CharClass, s: string, i: nat, j: nat)
    requires i <= j <= |s|
    requires forall k | i <= k < j :: InClass(cls, s[k])
    requires j == |s| || !InClass(cls, s[j])
    ensures SkipRun(cls, s, i) == j
  {}

  /** A single blank that no other follows. */
  lemma Blank1(s: string, i: nat, j: nat)
    requires Span(s, i, j, " ") && NoBlank(s, j)
    ensures i < j <= |s| && s[i] == ' ' && Spaces(s, i) == j && Whitespace(s, i) >= j
  {
    SpanBounds(s, i, j, " ");
    RunEnds(Blank, s, i, j);
  }

  predicate NoBlank(s: string, i: nat) { i <= |s| && (i < |s| ==> !InClass(Blank, s[i])) }

  lemma IdentifierSpan(s: string, i: nat, j: nat, name: string)
    requires IsIdentifier(name) && Span(s, i, j, name) && (j < |s| ==> !IsIdentifierChar(s[j]))
    ensures i < j <= |s| && Identifier(s, i) == Match(j, name)
  {
    SliceSpan(s, i, j, name);
    SpanBounds(s, i, j, name);
    forall k | i + 1 <= k < j ensures InClass(IdentifierChar, s[k]) {
      assert s[i + (k - i)] == name[k - i];
    }
    RunEnds(IdentifierChar, s, i + 1, j);
  }

  // ---- Propositions ------------------------------------------------------------------

  lemma RelOpSpan(s: string, i: nat, j: nat, op: RelationalOperator)
    requires Span(s, i, j, PrintOperator(op)) && j < |s| && s[j] == ' '
    ensures i < j && RelOp(s, i) == Match(j, op)
  {
    SpanBounds(s, i, j, PrintOperator(op));
    if !op.EQ? { NotAt(s, i, "="); }
    if op.GE? || op.GT? || op.LE? || op.LT? { NotAt(s, i, "!="); }
    if op.LE? || op.LT? { NotAt(s, i, ">="); NotAt(s, i, ">"); }
    if op.GT? || op.LT? {
      SecondDiffers(s, i, ">=");
      SecondDiffers(s, i, "<=");
    }
  }

  lemma BooleanSpan(s: string, i: nat, j: nat, b: bool)
    requires Span(s, i, j, PrintBool(b))
    ensures i < j <= |s| && LitI(s, i, "true").Match? == b
    ensures EitherI(s, i, "true", "false") == Match(j, ())
    ensures Element(BooleanElement, s, i, {}) == Match(j, BoolValue(b))
  {
    SpanBounds(s, i, j, PrintBool(b));
    LitISpan(s, i, j, PrintBool(b), PrintBool(b));
    if !b { NotLitI(s, i, "true"); }
  }

  lemma IntegerSpan(s: string, i: nat, j: nat, n: int)
    requires FitsInt(n) && Span(s, i, j, IntToString(n)) && (j < |s| ==> !IsDigit(s[j]))
    ensures i < j <= |s| && Integer(s, i) == Match(j, n)
    ensures LitI(s, i, "true") == NoMatch && LitI(s, i, "false") == NoMatch
  {
    NumeralSpan(s, i, j, n);
    hide IntToString, Span, At, AtI, LitI;
    NotLitI(s, i, "true");
    NotLitI(s, i, "false");
    SliceSpan(s, i, j, IntToString(n));
    IntRoundTrip(n);
    hide ParseInt, FitsInt;
  }

  lemma SliceSpan(s: string, i: nat, j: nat, t: string)
    requires Span(s, i, j, t)
    ensures i <= j <= |s| && s[i..j] == t
  {
    AtSlice(s, i, t);
  }

  lemma NumeralSpan(s: string, i: nat, j: nat, n: int)
    requires Span(s, i, j, IntToString(n)) && (j < |s| ==> !IsDigit(s[j]))
    ensures var b := if n < 0 then i + 1 else i;
            && i <= b < j <= |s| && IsDigit(s[b]) && SkipRun(Digit, s, b) == j
            && (n < 0 ==> s[i] == '-')
  {
    var t := IntToString(n);
    NumeralStarts(n);
    SpanBounds(s, i, j, t);
    if n < 0 { AtSecond(s, i, t); }
    DigitRun(s, if n < 0 then i + 1 else i, j, t);
  }

  lemma NumeralStarts(n: int)
    ensures var t := IntToString(n);
            if n < 0 then t[0] == '-' && |t| > 1 && IsDigit(t[1]) else IsDigit(t[0])
  {}

  lemma DigitRun(s: string, i: nat, j: nat, t: string)
    requires |t| <= j && Span(s, j - |t|, j, t) && j - |t| <= i <= j && (j < |s| ==> !IsDigit(s[j]))
    requires forall k | i - (j - |t|) <= k < |t| :: IsDigit(t[k])
    ensures SkipRun(Digit, s, i) == j
  {
    var b := j - |t|;
    forall k | i <= k < j ensures InClass(Digit, s[k]) {
      assert s[b + (k - b)] == t[k - b];
    }
    RunEnds(Digit, s, i, j);
  }

  /** A text in quotes that ConstrEnumValue reads. */
  lemma QuotedSpan(s: string, i: nat, j: nat, v: string)
    requires Span(s, i, j, "\"" + v + "\"")
    requires v != [] && v[0] !in ",;\" \t\n\r" && Covers(",;\"\n\r", v)
    ensures i < j <= |s| && ConstrEnumValue(s, i) == Match(j, v)
    ensures EitherI(s, i, "true", "false") == NoMatch && Integer(s, i) == NoMatch
  {
    var k, l := Cut3(s, i, j, "\"", v, "\"");
    SpanBounds(s, i, k, "\"");
    SpanBounds(s, k, l, v);
    SpanBounds(s, l, j, "\"");
    SliceSpan(s, k, l, v);
    SkipCovered(",;\"\n\r", s, k, v);
    NotLitI(s, i, "true");
    NotLitI(s, i, "false");
  }

  function PrintComparison(c: Constraint): (t: string)
    requires IsProposition(c)
    ensures PrintConstraint(c) == PrintProposition(c.parameter, c.op, t)
  {
    match c
    case BoolProposition(_, _, b) => PrintBool(b)
    case EnumProposition(_, _, v) => "\"" + v + "\""
    case IntProposition(_, _, n) => IntToString(n)
  }

  lemma ComparisonSpan(s: string, i: nat, j: nat, c: Constraint, start: nat, ds: set<string>)
    requires IsProposition(c) && WellFormedConstraint(c, ds) && Span(s, i, j, PrintComparison(c))
    requires j < |s| ==> !IsDigit(s[j])
    ensures i < j <= |s| && NoBlank(s, i)
    ensures ConstrValue(s, i, c.parameter, c.op, start) == Match(j, c)
  {
    SpanBounds(s, i, j, PrintComparison(c));
    hide Span, Covers, EitherI, Integer, ConstrEnumValue;
    match c {
      case BoolProposition(_, _, b) => BooleanSpan(s, i, j, b);
      case EnumProposition(_, _, text) => QuotedSpan(s, i, j, text);
      case IntProposition(_, _, n) => IntegerSpan(s, i, j, n); NeitherBool(s, i);
    }
  }

  lemma NeitherBool(s: string, i: nat)
    requires i <= |s| && LitI(s, i, "true") == NoMatch && LitI(s, i, "false") == NoMatch
    ensures EitherI(s, i, "true", "false") == NoMatch
  {}

  lemma PropositionSpan(s: string, i: nat, j: nat, c: Constraint, ds: set<string>)
    requires IsProposition(c) && WellFormedConstraint(c, ds) && Span(s, i, j, PrintConstraint(c))
    requires j < |s| ==> !IsDigit(s[j])
    ensures i < j <= |s| && AtomicProp(s, i, ds) == Match(j, c)
  {
    var name, op, value := c.parameter, PrintOperator(c.op), PrintComparison(c);
    hide Span, Identifier, RelOp, ConstrValue, Spaces, WellFormedConstraint, PrintConstraint, PrintComparison;
    var k3, k4 := Cut3(s, i, j, name + " " + op, " ", value);
    var k1, k2 := Cut3(s, i, k3, name, " ", op);
    ComparisonSpan(s, k4, j, c, i, ds);
    Blank1(s, k3, k4);
    ComparedBy(s, k1, k2, k3, c.op);
    PropositionName(c, ds);
    IdentifierSpan(s, i, k1, name);
  }

  lemma ComparedBy(s: string, i: nat, j: nat, k: nat, op: RelationalOperator)
    requires Span(s, i, j, " ") && Span(s, j, k, PrintOperator(op)) && k < |s| && s[k] == ' '
    ensures i < j < k && !IsIdentifierChar(s[i]) && Spaces(s, i) == j && RelOp(s, j) == Match(k, op)
  {
    hide Span, RelOp;
    RelOpSpan(s, j, k, op);
    SpanBounds(s, j, k, PrintOperator(op));
    Blank1(s, i, j);
  }

  lemma PropositionName(c: Constraint, ds: set<string>)
    requires IsProposition(c) && WellFormedConstraint(c, ds)
    ensures IsIdentifier(c.parameter) && c.parameter in ds
  {}

  // ---- The rules for compound constraints, one level at a time ---------------------------

  /** What follows position `j` extends no constraint that ends there. */
  predicate CannotExtend(s: string, j: nat) {
    && j <= |s|
    && (j < |s| ==> !IsDigit(s[j]))
    && NoOperator(AND, s, j) && NoOperator(OR, s, j)
    && !At(s, Spaces(s, j), "=>")
  }

  predicate NoOperator(op: NaryOperator, s: string, j: nat) {
    j <= |s| && !At(s, Spaces(s, j), Symbol(op))
  }

  predicate Closes(s: string, j: nat) { j < |s| && s[j] == ')' }

  lemma StopsAt(s: string, j: nat)
    requires Closes(s, j) || (j < |s| && s[j] == '\n')
    ensures j < |s| && CannotExtend(s, j) && !IsDigit(s[j])
  {
    NotAt(s, j, "&&");
    NotAt(s, j, "||");
    NotAt(s, j, "=>");
  }

  lemma NoMore(s: string, i: nat, op: NaryOperator, ds: set<string>)
    requires NoOperator(op, s, i)
    ensures MoreOperands(op, s, i, ds) == Match(i, [])
  {
    hide At, Spaces;
    assert NextOperand(op, s, i, ds) == NoMatch;
  }

  /** A single operand that no operator extends is the whole AndExpr and OrExpr. */
  lemma Alone(s: string, i: nat, j: nat, c: Constraint, ds: set<string>)
    requires i <= j <= |s| && Operand(s, i, ds) == Match(j, c)
    requires NoOperator(AND, s, j)
    ensures Operands(AND, s, i, ds) == Match(j, c)
    ensures NoOperator(OR, s, j) ==> Operands(OR, s, i, ds) == Match(j, c)
  {
    NoMore(s, j, AND, ds);
    if NoOperator(OR, s, j) { NoMore(s, j, OR, ds); }
  }

  lemma InParentheses(s: string, i: nat, j: nat, k: nat, e: nat, c: Constraint, ds: set<string>)
    requires Span(s, i, j, "(") && NoBlank(s, j) && j <= k
    requires ImplicationRule(s, j, ds) == Match(k, c) && Span(s, k, e, ")")
    ensures e <= |s| && Operand(s, i, ds) == Match(e, c)
  {
    LitSpan(s, i, j, "(");
    LitSpan(s, k, e, ")");
    SpanBounds(s, k, e, ")");
    assert Spaces(s, j) == j && Spaces(s, k) == k;
    hide At, Spaces, Span, ImplicationRule;
    assert Parenthesized(s, i, ds) == Match(e, c);
  }

  lemma Grouped(s: string, i: nat, j: nat, e: nat, op: NaryOperator, cs: seq<Constraint>, ds: set<string>)
    requires |cs| >= 2 && i <= j <= e <= |s| && CannotExtend(s, e)
    requires OperandOf(op, s, i, ds) == Match(j, cs[0]) && MoreOperands(op, s, j, ds) == Match(e, cs[1..])
    ensures ImplicationRule(s, i, ds) == Match(e, Nary(op, cs))
  {
    hide At, Spaces, MoreOperands;
    assert [cs[0]] + cs[1..] == cs;
    assert Operands(op, s, i, ds) == Match(e, Nary(op, cs));
    NoMore(s, e, OR, ds);
    assert Conclusion(s, e, ds) == NoMatch;
  }

  lemma Implied(s: string, i: nat, j: nat, k: nat, e: nat, l: Constraint, r: Constraint, ds: set<string>)
    requires i <= j < k <= e && CannotExtend(s, e) && Arrow(s, j, k)
    requires Operand(s, i, ds) == Match(j, l) && Operand(s, k, ds) == Match(e, r)
    ensures ImplicationRule(s, i, ds) == Match(e, Implication(l, r))
  {
    hide At, Spaces, Operands, Operand;
    NotAt(s, j + 1, "&&");
    NotAt(s, j + 1, "||");
    Alone(s, i, j, l, ds);
    Alone(s, k, e, r, ds);
    assert Conclusion(s, j, ds) == Match(e, r);
    assert Conclusion(s, e, ds) == NoMatch;
  }

  lemma OneMore(s: string, i: nat, j: nat, k: nat, e: nat, op: NaryOperator, cs: seq<Constraint>, ds: set<string>)
    requires cs != [] && i < j <= k <= e <= |s| && Infix(s, i, j, Symbol(op))
    requires OperandOf(op, s, j, ds) == Match(k, cs[0]) && MoreOperands(op, s, k, ds) == Match(e, cs[1..])
    ensures MoreOperands(op, s, i, ds) == Match(e, cs)
  {
    hide At, Spaces, OperandOf;
    assert NextOperand(op, s, i, ds) == Match(k, cs[0]);
    assert [cs[0]] + cs[1..] == cs;
  }

  /** Between `i` and `j` stands `symbol`, with a blank on each side. */
  predicate Infix(s: string, i: nat, j: nat, symbol: string) {
    && j == i + 4 <= |s| && s[i] == ' ' && |symbol| == 2
    && Spaces(s, i) == i + 1 && At(s, i + 1, symbol) && Spaces(s, i + 3) == j
  }

  predicate Arrow(s: string, i: nat, j: nat) { Infix(s, i, j, "=>") && s[i + 1] == '=' }

  lemma InfixSpan(s: string, i: nat, j: nat, sep: string, symbol: string)
    requires |sep| == 4 && |symbol| == 2 && sep[0] == ' ' && sep[1] == symbol[0] && sep[2] == symbol[1] && sep[3] == ' '
    requires !InClass(Blank, symbol[0]) && Span(s, i, j, sep) && NoBlank(s, j)
    ensures Infix(s, i, j, symbol) && s[i + 1] == symbol[0]
  {
    assert s[i + 0] == sep[0] && s[i + 1] == sep[1] && s[i + 2] == sep[2] && s[i + 3] == sep[3];
    RunEnds(Blank, s, i, i + 1);
    RunEnds(Blank, s, i + 3, i + 4);
  }

  lemma SeparatorSpan(s: string, i: nat, j: nat, op: NaryOperator)
    requires Span(s, i, j, Separator(op)) && NoBlank(s, j)
    ensures Infix(s, i, j, Symbol(op)) && i < j && !IsDigit(s[i]) && (op.OR? ==> NoOperator(AND, s, i))
  {
    InfixSpan(s, i, j, Separator(op), Symbol(op));
    if op.OR? { NotAt(s, i + 1, "&&"); }
  }

  lemma ArrowSpan(s: string, i: nat, j: nat)
    requires Span(s, i, j, " => ") && NoBlank(s, j)
    ensures Arrow(s, i, j) && i < j <= |s| && !IsDigit(s[i])
  {
    InfixSpan(s, i, j, " => ", "=>");
  }

  // ---- Round trips -------------------------------------------------------------------------

  lemma PrintStarts(c: Constraint, ds: set<string>)
    requires WellFormedConstraint(c, ds)
    ensures PrintConstraint(c) != "" && (PrintConstraint(c)[0] == '(' || IsIdentifierStart(PrintConstraint(c)[0]))
  {}

  predicate Starts(s: string, i: nat) { i < |s| && (s[i] == '(' || IsIdentifierStart(s[i])) }

  lemma StartsSpan(s: string, i: nat, j: nat, c: Constraint, ds: set<string>)
    requires WellFormedConstraint(c, ds) && Span(s, i, j, PrintConstraint(c))
    ensures Starts(s, i) && NoBlank(s, i) && i < j <= |s|
  {
    PrintStarts(c, ds);
    SpanBounds(s, i, j, PrintConstraint(c));
  }

  /** What a compound constraint prints between its parentheses. */
  function Inside(c: Constraint): (t: string)
    requires c.Implication? || (c.Nary? && c.operands != [])
    ensures PrintConstraint(c) == "(" + t + ")"
  {
    match c
    case Implication(l, r) => PrintConstraint(l) + " => " + PrintConstraint(r)
    case Nary(op, cs) => PrintConstraint(cs[0]) + PrintOperands(op, cs[1..])
  }

  /** Every printed constraint is one operand: compound ones are in parentheses. */
  lemma {:induction false} OperandRoundTrip(s: string, i: nat, j: nat, c: Constraint, ds: set<string>)
    requires WellFormedConstraint(c, ds) && Span(s, i, j, PrintConstraint(c))
    requires j < |s| ==> !IsDigit(s[j])
    ensures i < j <= |s| && Operand(s, i, ds) == Match(j, c)
    decreases c, 1
  {
    hide Span, ImplicationRule, AtomicProp;
    if IsProposition(c) {
      PropositionSpan(s, i, j, c, ds);
      NoParenthesis(s, i, j, c, ds);
    } else {
      var k, l := CutParentheses(s, i, j, c);
      if c.Implication? { ImplicationRoundTrip(s, k, l, c, ds); } else { NaryRoundTrip(s, k, l, c, ds); }
      InParentheses(s, i, k, l, j, c, ds);
    }
  }

  lemma CutParentheses(s: string, i: nat, j: nat, c: Constraint) returns (k: nat, l: nat)
    requires c.Implication? || (c.Nary? && c.operands != [])
    requires Span(s, i, j, PrintConstraint(c))
    ensures i < k <= l < j <= |s| && Span(s, i, k, "(") && Span(s, k, l, Inside(c)) && Span(s, l, j, ")") && Closes(s, l)
  {
    hide Span, PrintConstraint;
    k, l := Cut3(s, i, j, "(", Inside(c), ")");
    SpanBounds(s, i, k, "(");
    SpanBounds(s, l, j, ")");
  }

  lemma NoParenthesis(s: string, i: nat, j: nat, c: Constraint, ds: set<string>)
    requires IsProposition(c) && WellFormedConstraint(c, ds) && Span(s, i, j, PrintConstraint(c))
    ensures i <= |s| && Parenthesized(s, i, ds) == NoMatch
  {
    SpanBounds(s, i, j, PrintConstraint(c));
    NotAt(s, i, "(");
  }

  lemma {:induction false} ImplicationRoundTrip(s: string, i: nat, e: nat, c: Constraint, ds: set<string>)
    requires WellFormedConstraint(c, ds) && c.Implication?
    requires Span(s, i, e, Inside(c)) && Closes(s, e)
    ensures i < e && NoBlank(s, i) && ImplicationRule(s, i, ds) == Match(e, c)
    decreases c, 0
  {
    StopsAt(s, e);
    hide Span, ImplicationRule, Operand, NoBlank, Starts, Arrow, CannotExtend;
    var j, k := Cut3(s, i, e, PrintConstraint(c.lhs), " => ", PrintConstraint(c.rhs));
    StartsSpan(s, i, j, c.lhs, ds);
    StartsSpan(s, k, e, c.rhs, ds);
    ArrowSpan(s, j, k);
    OperandRoundTrip(s, i, j, c.lhs, ds);
    OperandRoundTrip(s, k, e, c.rhs, ds);
    Implied(s, i, j, k, e, c.lhs, c.rhs, ds);
  }

  lemma {:induction false} NaryRoundTrip(s: string, i: nat, e: nat, c: Constraint, ds: set<string>)
    requires WellFormedConstraint(c, ds) && c.Nary?
    requires Span(s, i, e, Inside(c)) && Closes(s, e)
    ensures i < e && NoBlank(s, i) && ImplicationRule(s, i, ds) == Match(e, c)
    decreases c, 0
  {
    StopsAt(s, e);
    var op, cs := c.nop, c.operands;
    hide Span, ImplicationRule, OperandOf, MoreOperands, NoBlank, Starts, Closes, CannotExtend;
    var j := Cut(s, i, e, PrintConstraint(cs[0]), PrintOperands(op, cs[1..]));
    StartsSpan(s, i, j, cs[0], ds);
    FirstOperand(s, i, j, e, op, cs, ds);
    OperandsRoundTrip(s, j, e, op, cs[1..], ds);
    Grouped(s, i, j, e, op, cs, ds);
  }

  /** Where the first of the operands after `i` stands. */
  lemma CutOperands(s: string, i: nat, e: nat, op: NaryOperator, cs: seq<Constraint>, ds: set<string>)
    returns (j: nat, k: nat)
    requires cs != [] && Span(s, i, e, PrintOperands(op, cs)) && WellFormedConstraint(cs[0], ds)
    ensures i < j < k <= e <= |s| && Span(s, j, k, PrintConstraint(cs[0])) && Span(s, k, e, PrintOperands(op, cs[1..]))
    ensures Infix(s, i, j, Symbol(op)) && !IsDigit(s[i]) && (op.OR? ==> NoOperator(AND, s, i))
  {
    hide Span, Infix, NoBlank, Separator, Symbol, NoOperator, WellFormedConstraint, PrintConstraint;
    j, k := Cut3(s, i, e, Separator(op), PrintConstraint(cs[0]), PrintOperands(op, cs[1..]));
    StartsSpan(s, j, k, cs[0], ds);
    SeparatorSpan(s, i, j, op);
  }

  /** The first of several operands, up to the operator or parenthesis after it. */
  lemma {:induction false} FirstOperand(s: string, i: nat, j: nat, e: nat, op: NaryOperator, cs: seq<Constraint>,
                                        ds: set<string>)
    requires cs != [] && forall k | 0 <= k < |cs| :: WellFormedConstraint(cs[k], ds)
    requires Span(s, i, j, PrintConstraint(cs[0])) && Span(s, j, e, PrintOperands(op, cs[1..])) && Closes(s, e)
    ensures i < j <= |s| && OperandOf(op, s, i, ds) == Match(j, cs[0])
    decreases cs, 1
  {
    SpanBounds(s, j, e, PrintOperands(op, cs[1..]));
    StopsAt(s, e);
    hide Span, Infix, Closes, Operand, NoOperator, CannotExtend;
    if cs[1..] == [] {
      assert j == e by { EmptySpan(s, j, e); }
    } else {
      var k, l := CutOperands(s, j, e, op, cs[1..], ds);
    }
    OperandRoundTrip(s, i, j, cs[0], ds);
    if op.OR? {
      assert NoOperator(AND, s, j) by { if cs[1..] == [] { Unextended(s, j); } }
      Alone(s, i, j, cs[0], ds);
    }
  }

  lemma EmptySpan(s: string, i: nat, j: nat)
    requires Span(s, i, j, "")
    ensures i == j
  {}

  lemma Unextended(s: string, j: nat)
    requires CannotExtend(s, j)
    ensures NoOperator(AND, s, j) && NoOperator(OR, s, j)
  {}

  lemma {:induction false} OperandsRoundTrip(s: string, i: nat, e: nat, op: NaryOperator, cs: seq<Constraint>, ds: set<string>)
    requires forall k | 0 <= k < |cs| :: WellFormedConstraint(cs[k], ds)
    requires Span(s, i, e, PrintOperands(op, cs)) && Closes(s, e)
    ensures i <= e <= |s| && MoreOperands(op, s, i, ds) == Match(e, cs)
    decreases cs, 2
  {
    if cs == [] {
      StopsAt(s, e);
      NoMore(s, i, op, ds);
    } else {
      hide Span, Infix, Closes, OperandOf, MoreOperands;
      var j, k := CutOperands(s, i, e, op, cs, ds);
      FirstOperand(s, j, k, e, op, cs, ds);
      OperandsRoundTrip(s, k, e, op, cs[1..], ds);
      OneMore(s, i, j, k, e, op, cs, ds);
    }
  }

  /** The print/parse inverse in context: the rule stops exactly where the printed text ends. */
  lemma ConstraintRoundTrip(s: string, i: nat, c: Constraint, ds: set<string>)
    requires WellFormedConstraint(c, ds) && At(s, i, PrintConstraint(c))
    requires CannotExtend(s, i + |PrintConstraint(c)|)
    ensures ImplicationRule(s, i, ds) == Match(i + |PrintConstraint(c)|, c)
  {
    var j := i + |PrintConstraint(c)|;
    assert Span(s, i, j, PrintConstraint(c));
    NoConclusion(s, j, ds);
    hide *;
    OperandRoundTrip(s, i, j, c, ds);
    Alone(s, i, j, c, ds);
    WithoutConclusion(s, i, j, c, ds);
  }

  lemma NoConclusion(s: string, j: nat, ds: set<string>)
    requires CannotExtend(s, j)
    ensures j <= |s| && (j < |s| ==> !IsDigit(s[j])) && Conclusion(s, j, ds) == NoMatch
  {
    hide At;
  }

  lemma WithoutConclusion(s: string, i: nat, j: nat, c: Constraint, ds: set<string>)
    requires i < j <= |s| && Operands(OR, s, i, ds) == Match(j, c) && Conclusion(s, j, ds) == NoMatch
    ensures ImplicationRule(s, i, ds) == Match(j, c)
  {
    hide Operands, Conclusion;
  }
}
