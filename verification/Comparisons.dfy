/** What the comparisons of a text are read as, for each text of an operator and each kind of value, and which semantic
    error stops the parser: in a proposition, in a constraint, and in a whole document. */
module Comparisons {
  import opened Text
  import opened Acts
  import opened Rules
  import opened RoundTrip
  import opened ModelRoundTrip
  import DoubleEquals
  import Image

  // ---- Propositions -------------------------------------------------------------------------------

  /** The texts of the six operators. */
  predicate Spells(t: string, op: RelationalOperator) {
    match op
    case EQ => t == "="
    case NEQ => t == "!="
    case GE => t == ">="
    case LE => t == "<="
    case GT => t == ">"
    case LT => t == "<"
  }

  predicate IsOrder(t: string) { t == ">=" || t == "<=" || t == ">" || t == "<" }

  /** The text of an operator is read as this operator in front of anything but '='. */
  lemma OperatorRead(s: string, i: nat, t: string, op: RelationalOperator)
    requires At(s, i, t) && Spells(t, op) && (i + |t| < |s| ==> s[i + |t|] != '=')
    ensures i + |t| <= |s| && RelOp(s, i) == Match(i + |t|, op)
  {
    SpanBounds(s, i, i + |t|, t);
    match op
    case EQ =>
    case NEQ => NotAt(s, i, "=");
    case GE => NotAt(s, i, "="); NotAt(s, i, "!=");
    case LE => NotAt(s, i, "="); NotAt(s, i, "!="); NotAt(s, i, ">=");
    case GT =>
      NotAt(s, i, "="); NotAt(s, i, "!="); NotAt(s, i, "<=");
      NotLonger(s, i, ">=");
    case LT =>
      NotAt(s, i, "="); NotAt(s, i, "!="); NotAt(s, i, ">="); NotAt(s, i, ">");
      NotLonger(s, i, "<=");
  }

  lemma NotLonger(s: string, i: nat, t: string)
    requires |t| == 2 && t[1] == '=' && (i + 1 < |s| ==> s[i + 1] != '=')
    ensures !At(s, i, t)
  {
    if At(s, i, t) { AtSecond(s, i, t); }
  }

  /** A declared name, blanks and `t`. */
  predicate Compares(s: string, i: nat, t: string, ds: set<string>)
    requires i <= |s|
  {
    var name := Identifier(s, i);
    name.Match? && name.value in ds && At(s, Spaces(s, name.pos), t) && Spaces(s, name.pos) + |t| <= |s|
  }

  /** Where the compared value stands: after the blanks that follow `t`. */
  function ValueAt(s: string, i: nat, t: string): (k: nat)
    requires i <= |s| && Identifier(s, i).Match? && Spaces(s, Identifier(s, i).pos) + |t| <= |s|
    ensures k <= |s|
  {
    Spaces(s, Spaces(s, Identifier(s, i).pos) + |t|)
  }

  lemma ComparisonRead(s: string, i: nat, t: string, op: RelationalOperator, ds: set<string>)
    requires i <= |s| && Compares(s, i, t, ds) && Spells(t, op)
    requires ValueAt(s, i, t) < |s| && s[ValueAt(s, i, t)] != '='
    ensures AtomicProp(s, i, ds) == ConstrValue(s, ValueAt(s, i, t), Identifier(s, i).value, op, i)
  {
    hide Identifier, ConstrValue, RelOp;
    var a := Spaces(s, Identifier(s, i).pos);
    assert a + |t| < |s| ==> s[a + |t|] != '=' by {
      if s[a + |t|] == '=' { RunEnds(Blank, s, a + |t|, a + |t|); }
    }
    OperatorRead(s, a, t, op);
    hide Spaces, At, Spells;
  }

  /** A boolean value, in whatever case its letters are. */
  predicate IsBoolean(s: string, k: nat, b: bool) { AtI(s, k, if b then "true" else "false") }

  lemma BooleanRead(s: string, k: nat, b: bool, name: string, op: RelationalOperator, start: nat)
    requires k <= |s| && IsBoolean(s, k, b)
    ensures k < |s| && s[k] != '=' && k + (if b then 4 else 5) <= |s|
    ensures !IsBoolean(s, k, !b)
    ensures ConstrValue(s, k, name, op, start) ==
            if IsOrdering(op) then Abort(UnorderedValue(start))
            else Match(k + if b then 4 else 5, BoolProposition(name, op, b))
  {
    AtIFirst(s, k, if b then "true" else "false");
    if b { NotLitI(s, k, "false"); } else { NotLitI(s, k, "true"); }
    hide IsOrdering;
  }

  /** A comparison of a declared name with a boolean is a proposition for "=" and "!=" and an error for the other
      operators. */
  lemma BooleanComparison(s: string, i: nat, t: string, op: RelationalOperator, b: bool, ds: set<string>)
    requires i <= |s| && Compares(s, i, t, ds) && Spells(t, op) && IsBoolean(s, ValueAt(s, i, t), b)
    ensures t == "=" || t == "!=" ==>
              AtomicProp(s, i, ds) == Match(ValueAt(s, i, t) + (if b then 4 else 5), BoolProposition(Identifier(s, i).value, op, b))
    ensures IsOrder(t) ==> AtomicProp(s, i, ds) == Abort(UnorderedValue(i))
  {
    hide ValueAt, IsBoolean, AtomicProp, ConstrValue, Identifier;
    BooleanRead(s, ValueAt(s, i, t), b, Identifier(s, i).value, op, i);
    ComparisonRead(s, i, t, op, ds);
    OrderOf(t, op);
  }

  lemma OrderOf(t: string, op: RelationalOperator)
    requires Spells(t, op)
    ensures IsOrdering(op) <==> IsOrder(t)
    ensures t == "=" || t == "!=" <==> !IsOrder(t)
  {
    if t != "=" && t != "!=" { assert t[0] == '<' || t[0] == '>'; }
  }

  lemma QuotedRead(s: string, k: nat, name: string, op: RelationalOperator, start: nat)
    requires k <= |s| && ConstrEnumValue(s, k).Match?
    ensures k < |s| && s[k] == '"' && !IsBoolean(s, k, true) && !IsBoolean(s, k, false)
    ensures ConstrValue(s, k, name, op, start) ==
            if IsOrdering(op) then Abort(UnorderedValue(start))
            else Match(ConstrEnumValue(s, k).pos, EnumProposition(name, op, ConstrEnumValue(s, k).value))
  {
    assert At(s, k, "\"");
    SpanBounds(s, k, k + 1, "\"");
    NotLitI(s, k, "true");
    NotLitI(s, k, "false");
    assert Integer(s, k) == NoMatch;
    hide IsOrdering, ConstrEnumValue, At, AtI, Integer;
  }

  /** The same for quoted texts. */
  lemma QuotedComparison(s: string, i: nat, t: string, op: RelationalOperator, ds: set<string>)
    requires i <= |s| && Compares(s, i, t, ds) && Spells(t, op) && ConstrEnumValue(s, ValueAt(s, i, t)).Match?
    ensures var value := ConstrEnumValue(s, ValueAt(s, i, t));
            && (t == "=" || t == "!=" ==>
                  AtomicProp(s, i, ds) == Match(value.pos, EnumProposition(Identifier(s, i).value, op, value.value)))
            && (IsOrder(t) ==> AtomicProp(s, i, ds) == Abort(UnorderedValue(i)))
  {
    hide ValueAt, AtomicProp, ConstrValue, Identifier, ConstrEnumValue, IsBoolean;
    QuotedRead(s, ValueAt(s, i, t), Identifier(s, i).value, op, i);
    ComparisonRead(s, i, t, op, ds);
    OrderOf(t, op);
  }

  /** A numeral: digits after an optional sign, which no digit follows. */
  predicate IsInteger(s: string, k: nat, t: string) {
    && At(s, k, t) && t != "" && k + |t| <= |s|
    && (IsDigit(t[0]) || (|t| > 1 && (t[0] == '+' || t[0] == '-')))
    && (forall n | 1 <= n < |t| :: IsDigit(t[n]))
    && (k + |t| < |s| ==> !IsDigit(s[k + |t|]))
  }

  lemma IntegerRead(s: string, k: nat, t: string)
    requires k <= |s| && IsInteger(s, k, t)
    ensures Integer(s, k) == match ParseInt(t) case Some(n) => Match(k + |t|, n) case None => Abort(IntegerOutOfRange(k))
    ensures k < |s| && (IsDigit(s[k]) || s[k] == '+' || s[k] == '-')
  {
    IntegerText(s, k, t);
    hide *;
    DigitsAfter(s, k, t);
    IntegerAt(s, k, k + |t|);
  }

  lemma IntegerText(s: string, k: nat, t: string)
    requires k <= |s| && IsInteger(s, k, t)
    ensures k < k + |t| <= |s| && s[k..k + |t|] == t
  {
    AtSlice(s, k, t);
  }

  lemma IntegerAt(s: string, k: nat, e: nat)
    requires k < |s| && k < e <= |s|
    requires if IsDigit(s[k]) then SkipRun(Digit, s, k) == e
             else (s[k] == '+' || s[k] == '-') && k + 1 < |s| && IsDigit(s[k + 1]) && SkipRun(Digit, s, k + 1) == e
    ensures Integer(s, k) == match ParseInt(s[k..e]) case Some(n) => Match(e, n) case None => Abort(IntegerOutOfRange(k))
  {
    hide SkipRun, ParseInt;
  }

  lemma NoBooleanAt(s: string, k: nat)
    requires k < |s| && (IsDigit(s[k]) || s[k] == '+' || s[k] == '-')
    ensures s[k] != '=' && EitherI(s, k, "true", "false") == NoMatch
  {
    NotLitI(s, k, "true");
    NotLitI(s, k, "false");
    hide AtI;
  }

  lemma DigitsAfter(s: string, k: nat, t: string)
    requires k < |s| && IsInteger(s, k, t)
    ensures if IsDigit(s[k]) then SkipRun(Digit, s, k) == k + |t|
            else (s[k] == '+' || s[k] == '-') && k + 1 < |s| && IsDigit(s[k + 1]) && SkipRun(Digit, s, k + 1) == k + |t|
  {
    SpanBounds(s, k, k + |t|, t);
    forall n | k + 1 <= n < k + |t| ensures InClass(Digit, s[n]) {
      assert s[k + (n - k)] == t[n - k];
    }
    RunEnds(Digit, s, k + 1, k + |t|);
    if IsDigit(s[k]) { RunEnds(Digit, s, k, k + |t|); }
  }

  /** Integers are compared by all operators. */
  lemma IntegerComparison(s: string, i: nat, t: string, op: RelationalOperator, v: string, ds: set<string>)
    requires i <= |s| && Compares(s, i, t, ds) && Spells(t, op) && IsInteger(s, ValueAt(s, i, t), v)
    ensures AtomicProp(s, i, ds) ==
            match ParseInt(v)
            case Some(n) => Match(ValueAt(s, i, t) + |v|, IntProposition(Identifier(s, i).value, op, n))
            case None => Abort(IntegerOutOfRange(ValueAt(s, i, t)))
  {
    hide ValueAt, AtomicProp, Identifier, IsInteger, EitherI, ParseInt, Integer, ConstrEnumValue, LitI;
    IntegerRead(s, ValueAt(s, i, t), v);
    NoBooleanAt(s, ValueAt(s, i, t));
    ComparisonRead(s, i, t, op, ds);
  }

  // ---- Values of parameters ---------------------------------------------------------------------------

  /** A value of a boolean parameter is recognised exactly where "true" or "false" stands, in whatever case its letters
      are, and it is the boolean that stands there. */
  lemma BooleanElementRead(s: string, i: nat, b: bool, ds: set<string>)
    requires i <= |s|
    ensures IsBoolean(s, i, b) ==> Element(BooleanElement, s, i, ds) == Match(i + (if b then 4 else 5), BoolValue(b))
    ensures !IsBoolean(s, i, true) && !IsBoolean(s, i, false) ==> Element(BooleanElement, s, i, ds) == NoMatch
  {
    if IsBoolean(s, i, b) { BooleanRead(s, i, b, "", EQ, i); }
    hide ConstrValue;
  }

  /** A value of an integer parameter is the value of its numeral, with either sign or none. */
  lemma IntegerElementRead(s: string, i: nat, t: string, ds: set<string>)
    requires i <= |s| && IsInteger(s, i, t)
    ensures Element(IntegerElement, s, i, ds) ==
            match ParseInt(t) case Some(n) => Match(i + |t|, IntValue(n)) case None => Abort(IntegerOutOfRange(i))
  {
    IntegerRead(s, i, t);
    hide Integer, IsInteger, ParseInt;
  }

  // ---- Semantic errors ---------------------------------------------------------------------------------

  ghost predicate OutOfRange(s: string, k: nat) { exists v :: IsInteger(s, k, v) && ParseInt(v) == None }

  ghost predicate IsUnordered(s: string, k: nat)
    requires k <= |s|
  {
    IsBoolean(s, k, true) || IsBoolean(s, k, false) || ConstrEnumValue(s, k).Match?
  }

  /** A declared name is compared by an order with a value that has none. */
  ghost predicate OrdersUnordered(s: string, i: nat, ds: set<string>)
    requires i <= |s|
  {
    exists t :: IsOrder(t) && Compares(s, i, t, ds) && IsUnordered(s, ValueAt(s, i, t))
  }

  ghost predicate ComparesOutOfRange(s: string, i: nat, k: nat, ds: set<string>)
    requires i <= |s|
  {
    exists t, op :: Spells(t, op) && Compares(s, i, t, ds) && k == ValueAt(s, i, t) && OutOfRange(s, k)
  }

  ghost predicate NamesUndeclared(s: string, i: nat, name: string, ds: set<string>)
    requires i <= |s|
  {
    Identifier(s, i).Match? && Identifier(s, i).value == name && name !in ds
  }

  /** The proposition that starts here has error `e`. */
  ghost predicate HasError(s: string, i: nat, e: SemanticError, ds: set<string>)
    requires i <= |s|
  {
    match e
    case UndeclaredInRelation(_, _) => false
    case UndeclaredInConstraint(at, name) => at == i && NamesUndeclared(s, i, name, ds)
    case UnorderedValue(at) => at == i && OrdersUnordered(s, i, ds)
    case IntegerOutOfRange(at) => ComparesOutOfRange(s, i, at, ds)
  }

  /** A proposition stops the parser exactly with the error that it has. */
  lemma PropositionAborts(s: string, i: nat, e: SemanticError, ds: set<string>)
    requires i <= |s|
    ensures AtomicProp(s, i, ds) == Abort(e) <==> HasError(s, i, e, ds)
  {
    if HasError(s, i, e, ds) { ErrorAborts(s, i, e, ds); }
    if AtomicProp(s, i, ds) == Abort(e) { AbortHasError(s, i, e, ds); }
    hide *;
  }

  lemma ErrorAborts(s: string, i: nat, e: SemanticError, ds: set<string>)
    requires i <= |s| && HasError(s, i, e, ds)
    ensures AtomicProp(s, i, ds) == Abort(e)
  {
    hide Identifier, Spaces, ConstrValue, RelOp, ValueAt, IsUnordered, IsInteger, ParseInt;
    match e
    case UndeclaredInConstraint(_, _) =>
    case UnorderedValue(_) =>
      var t :| IsOrder(t) && Compares(s, i, t, ds) && IsUnordered(s, ValueAt(s, i, t));
      UnorderedAborts(s, i, t, ds);
    case IntegerOutOfRange(k) =>
      var t, op :| Spells(t, op) && Compares(s, i, t, ds) && k == ValueAt(s, i, t) && OutOfRange(s, k);
      var v :| IsInteger(s, k, v) && ParseInt(v) == None;
      IntegerComparison(s, i, t, op, v, ds);
  }

  function OperatorOf(t: string): RelationalOperator {
    if t == ">=" then GE else if t == "<=" then LE else if t == ">" then GT else LT
  }

  lemma OrderIsSpelled(t: string)
    requires IsOrder(t)
    ensures Spells(t, OperatorOf(t))
  {
    assert |t| == 2 <==> t == ">=" || t == "<=";
    assert t[0] == '<' <==> t == "<=" || t == "<";
  }

  lemma UnorderedAborts(s: string, i: nat, t: string, ds: set<string>)
    requires i <= |s| && IsOrder(t) && Compares(s, i, t, ds) && IsUnordered(s, ValueAt(s, i, t))
    ensures AtomicProp(s, i, ds) == Abort(UnorderedValue(i))
  {
    OrderIsSpelled(t);
    hide IsOrder, Spells, OperatorOf, IsBoolean, AtomicProp, ConstrEnumValue, Identifier, ValueAt, Spaces;
    if ConstrEnumValue(s, ValueAt(s, i, t)).Match? {
      QuotedComparison(s, i, t, OperatorOf(t), ds);
    } else {
      BooleanComparison(s, i, t, OperatorOf(t), IsBoolean(s, ValueAt(s, i, t), true), ds);
    }
  }

  lemma AbortHasError(s: string, i: nat, e: SemanticError, ds: set<string>)
    requires i <= |s| && AtomicProp(s, i, ds) == Abort(e)
    ensures HasError(s, i, e, ds)
  {
    hide Identifier, Spaces, ConstrValue, RelOp, OrdersUnordered, ComparesOutOfRange;
    var name := Identifier(s, i);
    if name.value in ds {
      var a := Spaces(s, name.pos);
      var op := RelOp(s, a);
      var t := s[a..op.pos];
      OperatorIs(s, a);
      var k := Spaces(s, op.pos);
      ValueAborts(s, k, name.value, op.value, i, e);
      ErrorOfValue(s, i, a, k, t, op.value, e, ds);
    }
  }

  lemma OperatorIs(s: string, a: nat)
    requires a <= |s| && RelOp(s, a).Match?
    ensures var t := s[a..RelOp(s, a).pos]; Spells(t, RelOp(s, a).value) && At(s, a, t) && a + |t| == RelOp(s, a).pos
  {
    var t := if At(s, a, "=") then "=" else if At(s, a, "!=") then "!=" else if At(s, a, ">=") then ">="
             else if At(s, a, "<=") then "<=" else if At(s, a, ">") then ">" else "<";
    AtSlice(s, a, t);
    assert t == s[a..a + |t|];
  }

  lemma ValueAborts(s: string, k: nat, name: string, op: RelationalOperator, start: nat, e: SemanticError)
    requires k <= |s| && ConstrValue(s, k, name, op, start) == Abort(e)
    ensures (e == UnorderedValue(start) && IsOrdering(op) && IsUnordered(s, k)) || (e == IntegerOutOfRange(k) && OutOfRange(s, k))
  {
    hide ConstrEnumValue, Integer, AtI, IsInteger, ParseInt;
    if Integer(s, k) == Abort(e) { IntegerAborts(s, k, e); }
  }

  lemma IntegerAborts(s: string, k: nat, e: SemanticError)
    requires k <= |s| && Integer(s, k) == Abort(e)
    ensures e == IntegerOutOfRange(k) && OutOfRange(s, k)
  {
    var j := if InClass(Sign, s[k]) then k + 1 else k;
    var end := SkipRun(Digit, s, j);
    var v := s[k..end];
    assert InClass(Digit, s[j]) && end > j;
    AtSlice(s, k, v);
    hide ParseInt;
    assert IsInteger(s, k, v);
  }

  lemma ErrorOfValue(s: string, i: nat, a: nat, k: nat, t: string, op: RelationalOperator, e: SemanticError, ds: set<string>)
    requires i <= |s| && Identifier(s, i).Match? && Identifier(s, i).value in ds && a == Spaces(s, Identifier(s, i).pos)
    requires Spells(t, op) && At(s, a, t) && a + |t| <= |s| && k == Spaces(s, a + |t|)
    requires (e == UnorderedValue(i) && IsOrdering(op) && IsUnordered(s, k)) || (e == IntegerOutOfRange(k) && OutOfRange(s, k))
    ensures HasError(s, i, e, ds)
  {
    OrderOf(t, op);
    hide IsOrder, Spells, IsUnordered, OutOfRange, Identifier, Spaces, At, IsOrdering;
    assert Compares(s, i, t, ds) && ValueAt(s, i, t) == k;
  }

  // ---- Comparisons as texts ------------------------------------------------------------------------------

  predicate AllBlank(b: string) { forall k | 0 <= k < |b| :: b[k] == ' ' || b[k] == '\t' }

  predicate IsQuotable(v: string) { v != [] && v[0] !in ",;\" \t\n\r" && Covers(",;\"\n\r", v) }

  predicate IsNumeralText(v: string) {
    && v != "" && (IsDigit(v[0]) || (|v| > 1 && (v[0] == '+' || v[0] == '-')))
    && forall n | 1 <= n < |v| :: IsDigit(v[n])
  }

  /** Text `v` stands for the value of a proposition: a boolean whatever the case of its letters, a quoted text, or a
      numeral. */
  predicate SpellsValue(v: string, c: Constraint)
    requires IsProposition(c)
  {
    match c
    case BoolProposition(_, _, b) => IEquals(v, if b then "true" else "false")
    case EnumProposition(_, _, text) => v == "\"" + text + "\"" && IsQuotable(text)
    case IntProposition(_, _, n) => IsNumeralText(v) && ParseInt(v) == Some(n)
  }

  /** A comparison: a declared name, an operator and a value, with any blanks between. */
  predicate IsComparison(t: string, b1: string, o: string, b2: string, v: string, c: Constraint, ds: set<string>) {
    && IsProposition(c) && c.parameter in ds && IsIdentifier(c.parameter)
    && AllBlank(b1) && Spells(o, c.op) && AllBlank(b2) && SpellsValue(v, c)
    && t == c.parameter + b1 + o + (b2 + v)
  }

  lemma BlanksSpan(s: string, a: nat, b: nat, t: string)
    requires Span(s, a, b, t) && AllBlank(t) && b < |s| && s[b] != ' ' && s[b] != '\t'
    ensures Spaces(s, a) == b
  {
    forall k | a <= k < b ensures InClass(Blank, s[k]) {
      assert s[a + (k - a)] == t[k - a];
    }
    RunEnds(Blank, s, a, b);
  }

  lemma ValueStarts(v: string, c: Constraint)
    requires IsProposition(c) && SpellsValue(v, c)
    ensures v != "" && v[0] != ' ' && v[0] != '\t' && v[0] != '='
  {
    match c
    case BoolProposition(_, _, b) => assert ToLower(v[0]) == if b then 't' else 'f';
    case _ =>
  }

  lemma OperatorStarts(o: string, op: RelationalOperator)
    requires Spells(o, op)
    ensures o != "" && o[0] in {'=', '!', '<', '>'}
  {}

  lemma StartsNoName(a: char)
    requires a in {'=', '!', '<', '>', ' ', '\t'}
    ensures !IsIdentifierChar(a)
  {}

  /** Where the parts of a comparison stand. */
  lemma ComparisonParts(s: string, i: nat, j: nat, t: string, b1: string, o: string, b2: string, v: string, c: Constraint,
                        ds: set<string>)
    returns (k: nat)
    requires IsComparison(t, b1, o, b2, v, c, ds) && Span(s, i, j, t)
    ensures i <= k < j <= |s| && Identifier(s, i).Match? && Identifier(s, i).value == c.parameter
    ensures Compares(s, i, o, ds) && ValueAt(s, i, o) == k && Span(s, k, j, v)
  {
    ValueStarts(v, c);
    OperatorStarts(o, c.op);
    hide SpellsValue, Spells, IsIdentifier, Identifier, Spaces, IsIdentifierChar, Span;
    var a, b, d;
    b, d := Cut3(s, i, j, c.parameter + b1, o, b2 + v);
    a := Cut(s, i, b, c.parameter, b1);
    k := Cut(s, d, j, b2, v);
    SpanBounds(s, k, j, v);
    SpanBounds(s, b, d, o);
    SpanBounds(s, a, b, b1);
    NameEnds(s, a, b, b1);
    IdentifierSpan(s, i, a, c.parameter);
    BlanksSpan(s, a, b, b1);
    BlanksSpan(s, d, k, b2);
    assert At(s, b, o) && d == b + |o| by { LitSpan(s, b, d, o); SpanIs(s, b, d, o); }
  }

  lemma SpanIs(s: string, i: nat, j: nat, t: string)
    requires Span(s, i, j, t)
    ensures j == i + |t|
  {}

  lemma NameEnds(s: string, a: nat, b: nat, b1: string)
    requires Span(s, a, b, b1) && AllBlank(b1) && b < |s| && s[b] in {'=', '!', '<', '>'}
    ensures !IsIdentifierChar(s[a])
  {
    SpanBounds(s, a, b, b1);
    if b1 == "" { StartsNoName(s[b]); } else { StartsNoName(s[a]); }
  }

  lemma BooleanThere(s: string, k: nat, j: nat, v: string, b: bool)
    requires Span(s, k, j, v) && IEquals(v, if b then "true" else "false")
    ensures k <= |s| && IsBoolean(s, k, b) && j == k + if b then 4 else 5
  {}

  lemma IntegerThere(s: string, k: nat, j: nat, v: string)
    requires Span(s, k, j, v) && IsNumeralText(v) && (j < |s| ==> !IsDigit(s[j]))
    ensures IsInteger(s, k, v) && j == k + |v|
  {}

  /** A comparison that no digit follows is read as its proposition, provided that it has no order of values that have
      none. */
  lemma ComparisonSpanRead(s: string, i: nat, j: nat, t: string, b1: string, o: string, b2: string, v: string, c: Constraint,
                           ds: set<string>)
    requires IsComparison(t, b1, o, b2, v, c, ds) && Span(s, i, j, t) && (j < |s| ==> !IsDigit(s[j]))
    requires c.IntProposition? || o == "=" || o == "!="
    ensures i < j <= |s| && AtomicProp(s, i, ds) == Match(j, c)
  {
    var k := ComparisonParts(s, i, j, t, b1, o, b2, v, c, ds);
    assert Spells(o, c.op) && SpellsValue(v, c) && Identifier(s, i).value == c.parameter;
    hide *;
    match c
    case BoolProposition(_, _, _) => BooleanPart(s, i, j, k, o, v, c, ds);
    case EnumProposition(_, _, _) => QuotedPart(s, i, j, k, o, v, c, ds);
    case IntProposition(_, _, _) => IntegerPart(s, i, j, k, o, v, c, ds);
  }

  lemma BooleanPart(s: string, i: nat, j: nat, k: nat, o: string, v: string, c: Constraint, ds: set<string>)
    requires c.BoolProposition? && Spells(o, c.op) && SpellsValue(v, c) && (o == "=" || o == "!=")
    requires i <= |s| && Compares(s, i, o, ds) && Identifier(s, i).value == c.parameter && ValueAt(s, i, o) == k && Span(s, k, j, v)
    ensures AtomicProp(s, i, ds) == Match(j, c)
  {
    hide Identifier, Spaces, AtomicProp, ValueAt, IsBoolean, Span, Spells;
    BooleanThere(s, k, j, v, c.flag);
    BooleanComparison(s, i, o, c.op, c.flag, ds);
  }

  lemma QuotedPart(s: string, i: nat, j: nat, k: nat, o: string, v: string, c: Constraint, ds: set<string>)
    requires c.EnumProposition? && Spells(o, c.op) && SpellsValue(v, c) && (o == "=" || o == "!=")
    requires i <= |s| && Compares(s, i, o, ds) && Identifier(s, i).value == c.parameter && ValueAt(s, i, o) == k && Span(s, k, j, v)
    ensures AtomicProp(s, i, ds) == Match(j, c)
  {
    hide Identifier, Spaces, AtomicProp, ValueAt, ConstrEnumValue, Span, Spells;
    QuotedSpan(s, k, j, c.text);
    QuotedComparison(s, i, o, c.op, ds);
  }

  lemma IntegerPart(s: string, i: nat, j: nat, k: nat, o: string, v: string, c: Constraint, ds: set<string>)
    requires c.IntProposition? && Spells(o, c.op) && SpellsValue(v, c) && (j < |s| ==> !IsDigit(s[j]))
    requires i <= |s| && Compares(s, i, o, ds) && Identifier(s, i).value == c.parameter && ValueAt(s, i, o) == k && Span(s, k, j, v)
    ensures AtomicProp(s, i, ds) == Match(j, c)
  {
    hide Identifier, Spaces, AtomicProp, ValueAt, Span, Spells, IsInteger, IsNumeralText, ParseInt;
    IntegerThere(s, k, j, v);
    IntegerComparison(s, i, o, c.op, v, ds);
  }

  /** With such an order it is an error. */
  lemma ComparisonSpanAborts(s: string, i: nat, j: nat, t: string, b1: string, o: string, b2: string, v: string, c: Constraint,
                             ds: set<string>)
    requires IsComparison(t, b1, o, b2, v, c, ds) && Span(s, i, j, t) && i <= |s|
    requires !c.IntProposition? && IsOrder(o)
    ensures HasError(s, i, UnorderedValue(i), ds)
  {
    var k := ComparisonParts(s, i, j, t, b1, o, b2, v, c, ds);
    hide Identifier, Spaces, AtomicProp, Compares, ValueAt, IsBoolean, ConstrEnumValue, Span, Spells, IsOrder;
    match c
    case BoolProposition(_, _, b) => BooleanThere(s, k, j, v, b);
    case EnumProposition(_, _, text) => QuotedSpan(s, k, j, text);
    case IntProposition(_, _, _) =>
  }

  /** Alone on its line, a comparison of a boolean or a quoted text with "=" or "!=", or of an integer with any operator, is
      the constraint with this operator. */
  lemma ComparisonReads(t: string, b1: string, o: string, b2: string, v: string, c: Constraint, ds: set<string>)
    requires IsComparison(t, b1, o, b2, v, c, ds) && (c.IntProposition? || o == "=" || o == "!=")
    ensures ReadsAs(t, c, ds)
  {
    assert IsIdentifierStart(c.parameter[0]);
    assert t[0] == c.parameter[0];
    forall s: string, i: nat, j: nat | Span(s, i, j, t) && j < |s| && s[j] == '\n' && i <= |s|
      ensures ImplicationRule(s, i, ds) == Match(j, c)
    {
      StopsAt(s, j);
      ComparisonSpanRead(s, i, j, t, b1, o, b2, v, c, ds);
      AloneRead(s, i, j, c, ds);
    }
  }

  lemma AloneRead(s: string, i: nat, j: nat, c: Constraint, ds: set<string>)
    requires i < j <= |s| && AtomicProp(s, i, ds) == Match(j, c) && CannotExtend(s, j)
    ensures ImplicationRule(s, i, ds) == Match(j, c)
  {
    NoConclusion(s, j, ds);
    Unextended(s, j);
    NameFirst(s, i, ds);
    hide *;
    Alone(s, i, j, c, ds);
    WithoutConclusion(s, i, j, c, ds);
  }

  lemma NameFirst(s: string, i: nat, ds: set<string>)
    requires i <= |s| && !AtomicProp(s, i, ds).NoMatch?
    ensures Operand(s, i, ds) == AtomicProp(s, i, ds)
  {
    assert Identifier(s, i).Match? && i < |s| && IsIdentifierStart(s[i]);
    NotAt(s, i, "(");
    hide AtomicProp, At;
  }

  // ---- Constraints and documents that start with an error ------------------------------------------------

  /** After any number of opening parentheses there is a proposition with error `e`. */
  ghost predicate StartsWithError(s: string, i: nat, e: SemanticError, ds: set<string>)
    requires i <= |s|
    decreases |s| - i
  {
    if i < |s| && s[i] == '(' then StartsWithError(s, Spaces(s, i + 1), e, ds) else HasError(s, i, e, ds)
  }

  lemma {:induction false} OperandAborts(s: string, i: nat, e: SemanticError, ds: set<string>)
    requires i <= |s| && StartsWithError(s, i, e, ds)
    ensures Operand(s, i, ds) == Abort(e)
    decreases |s| - i, 0
  {
    if i < |s| && s[i] == '(' {
      assert At(s, i, "(") by { assert "(" == [s[i]]; }
      hide At, Spaces, StartsWithError, ImplicationRule, AtomicProp;
      ErrorInside(s, i, e, ds);
      ImplicationAborts(s, Spaces(s, i + 1), e, ds);
    } else {
      FirstAborts(s, i, e, ds);
      hide *;
    }
  }

  lemma FirstAborts(s: string, i: nat, e: SemanticError, ds: set<string>)
    requires i <= |s| && StartsWithError(s, i, e, ds) && (i < |s| ==> s[i] != '(')
    ensures Operand(s, i, ds) == Abort(e)
  {
    assert HasError(s, i, e, ds);
    hide *;
    PropositionAborts(s, i, e, ds);
    NameFirst(s, i, ds);
  }

  lemma ErrorInside(s: string, i: nat, e: SemanticError, ds: set<string>)
    requires i < |s| && s[i] == '(' && StartsWithError(s, i, e, ds)
    ensures StartsWithError(s, Spaces(s, i + 1), e, ds)
  {}

  /** A constraint that starts with an error stops the parser. */
  lemma {:induction false} ImplicationAborts(s: string, i: nat, e: SemanticError, ds: set<string>)
    requires i <= |s| && StartsWithError(s, i, e, ds)
    ensures ImplicationRule(s, i, ds) == Abort(e)
    decreases |s| - i, 1
  {
    OperandAborts(s, i, e, ds);
    hide Operand, StartsWithError;
    assert OperandOf(AND, s, i, ds) == Abort(e);
    assert Operands(AND, s, i, ds) == Abort(e);
    assert OperandOf(OR, s, i, ds) == Abort(e);
  }

  lemma LineAborts(s: string, i: nat, e: SemanticError, ds: set<string>)
    requires i <= |s| && StartsWithError(s, i, e, ds)
    ensures Constraints(s, i, ds) == Abort(e)
  {
    ImplicationAborts(s, i, e, ds);
    hide ImplicationRule, StartsWithError;
  }

  lemma ErrorStarts(s: string, i: nat, e: SemanticError, ds: set<string>)
    requires i <= |s| && StartsWithError(s, i, e, ds)
    ensures i < |s| && Spacing(s, i) == i
  {
    if i < |s| && s[i] == '(' {
    } else {
      assert Identifier(s, i).Match?;
    }
    SpacingStops(s, i);
  }

  /** The error comes after lines that are constraints. */
  lemma {:induction false} LinesAbort(s: string, i: nat, e: nat, texts: seq<string>, cs: seq<Constraint>, error: SemanticError,
                                      ds: set<string>)
    requires AllReadAs(texts, cs, ds)
    requires Span(s, i, e, Lines(texts)) && e <= |s| && Constraints(s, Spacing(s, e), ds) == Abort(error)
    ensures i <= e && Constraints(s, Spacing(s, i), ds) == Abort(error)
    decreases |cs|
  {
    hide *;
    if cs == [] {
      NoConstraintLines(texts, cs, ds);
      EmptySpan(s, i, e);
    } else {
      RestReadAs(texts, cs, ds);
      var j, k := CutLine(s, i, e, texts);
      LinesAbort(s, k, e, texts[1..], cs[1..], error, ds);
      ConstraintLine(s, i, j, texts[0], cs[0], ds);
      SpacingStops(s, i);
      FirstLineAborts(s, i, Spacing(s, j + 1), cs[0], error, ds);
    }
  }

  lemma FirstLineAborts(s: string, i: nat, k: nat, c: Constraint, error: SemanticError, ds: set<string>)
    requires i < k <= |s| && ConstraintRule(s, i, ds) == Match(k, c) && Constraints(s, k, ds) == Abort(error)
    ensures Constraints(s, i, ds) == Abort(error)
  {
    hide ConstraintRule;
  }

  lemma SectionAborts(s: string, k: nat, l: nat, e: nat, texts: seq<string>, cs: seq<Constraint>, error: SemanticError,
                      ds: set<string>)
    requires AllReadAs(texts, cs, ds) && e <= |s| && StartsWithError(s, e, error, ds)
    requires Span(s, k, l, "[" + "Constraint" + "]\n") && Span(s, l, e, Lines(texts))
    ensures k < e < |s| && Optional(ConstraintSection(s, k, ds), k) == Abort(error)
  {
    hide *;
    DoubleEquals.HeaderStarts(s, k, l);
    ErrorStarts(s, e, error, ds);
    LineAborts(s, e, error, ds);
    LinesAbort(s, l, e, texts, cs, error, ds);
    SectionOutcome(s, k, Spacing(s, l), error, ds);
  }

  lemma SectionOutcome(s: string, k: nat, j: nat, error: SemanticError, ds: set<string>)
    requires k <= |s| && j <= |s| && SectionHeader(s, k, "Constraint") == Match(j, ()) && Constraints(s, j, ds) == Abort(error)
    ensures Optional(ConstraintSection(s, k, ds), k) == Abort(error)
  {
    hide SectionHeader, Constraints;
  }

  /** A document with correct sections and constraints, and then a constraint that starts with an error: parsing it ends
      with this error, whatever follows. */
  lemma DocumentAborts(s: string, m: Model, name: string, ps: seq<Parameter>, rtexts: seq<string>, rs: seq<Relation>,
                       opening: string, ctexts: seq<string>, cs: seq<Constraint>, rest: string, error: SemanticError)
    requires s == DoubleEquals.Document(name, ps, rtexts, ctexts, rest)
    requires WellFormedName(name) && ps != [] && forall k | 0 <= k < |ps| :: WellFormedParameter(ps[k])
    requires IsOpening(opening) && AllRelationTexts(rtexts, rs, opening, Declared(m.parameters + ps))
    requires AllReadAs(ctexts, cs, Declared(m.parameters + ps))
    requires |rest| <= |s| && StartsWithError(s, |s| - |rest|, error, Declared(m.parameters + ps))
    ensures ParseInto(s, m) == Abort(error)
  {
    hide *;
    var ds := Declared(m.parameters + ps);
    var i, j, k, l, e := DoubleEquals.CutDocument(s, name, ps, rtexts, ctexts, rest);
    SpanIs(s, e, |s|, rest);
    RestAborts(s, j, k, l, e, rtexts, rs, opening, ctexts, cs, error, ds);
    ParameterSectionSpan(s, i, j, ps);
    SystemSpan(s, 0, i, name);
    DoubleEquals.SectionStarts(s, 0);
    DoubleEquals.SectionStarts(s, i);
    Aborted(s, m, i, j, k, name, ps, rs, error);
  }

  lemma RestAborts(s: string, j: nat, k: nat, l: nat, e: nat, rtexts: seq<string>, rs: seq<Relation>, opening: string,
                   ctexts: seq<string>, cs: seq<Constraint>, error: SemanticError, ds: set<string>)
    requires IsOpening(opening) && AllRelationTexts(rtexts, rs, opening, ds) && AllReadAs(ctexts, cs, ds)
    requires Span(s, j, k, RelationPart(rtexts)) && Span(s, k, l, "[" + "Constraint" + "]\n") && Span(s, l, e, Lines(ctexts))
    requires e <= |s| && StartsWithError(s, e, error, ds)
    ensures j <= k <= e < |s| && SectionEnds(s, j) && Spacing(s, j) == j
    ensures Optional(RelationSection(s, j, ds), j) == Match(k, rs)
    ensures Optional(ConstraintSection(s, k, ds), k) == Abort(error)
  {
    hide *;
    DoubleEquals.HeaderStarts(s, k, l);
    SectionAborts(s, k, l, e, ctexts, cs, error, ds);
    RelationPartSpan(s, j, k, rtexts, rs, opening, ds);
  }

  lemma Aborted(s: string, m: Model, i: nat, j: nat, k: nat, name: string, ps: seq<Parameter>, rs: seq<Relation>,
                error: SemanticError)
    requires i <= j <= k <= |s| && Spacing(s, 0) == 0 && Spacing(s, i) == i && Spacing(s, j) == j
    requires SystemSection(s, 0) == Match(Spacing(s, i), name) && ParameterSection(s, i) == Match(Spacing(s, j), ps)
    requires Optional(RelationSection(s, j, Declared(m.parameters + ps)), j) == Match(k, rs)
    requires Optional(ConstraintSection(s, k, Declared(m.parameters + ps)), k) == Abort(error)
    ensures ParseInto(s, m) == Abort(error)
  {
    hide SystemSection, ParameterSection, RelationSection, ConstraintSection, Optional, Declared, Spacing;
  }

  lemma AcceptedDocument(s: string, m: Model, name: string, ps: seq<Parameter>, rtexts: seq<string>, rs: seq<Relation>,
                         opening: string, ctexts: seq<string>, cs: seq<Constraint>,
                         t: string, b1: string, o: string, b2: string, v: string, c: Constraint)
    requires s == DoubleEquals.Document(name, ps, rtexts, ctexts, t + "\n")
    requires WellFormedName(name) && ps != [] && forall k | 0 <= k < |ps| :: WellFormedParameter(ps[k])
    requires IsOpening(opening) && AllRelationTexts(rtexts, rs, opening, Declared(m.parameters + ps))
    requires AllReadAs(ctexts, cs, Declared(m.parameters + ps))
    requires IsComparison(t, b1, o, b2, v, c, Declared(m.parameters + ps))
    requires c.IntProposition? || o == "=" || o == "!="
    ensures |t| < |s|
    ensures ParseInto(s, m) == Match(|s|, Model(name, m.parameters + ps, m.relations + rs, m.constraints + (cs + [c])))
  {
    hide *;
    LastLineOf(name, ps, rtexts, ctexts, t);
    var _ := RestPlace(s, name, ps, rtexts, ctexts, t);
    ComparisonReads(t, b1, o, b2, v, c, Declared(m.parameters + ps));
    OneMoreReads(ctexts, cs, t, c, Declared(m.parameters + ps));
    PlainEnd();
    DocumentParses(s, m, name, ps, rtexts, rs, opening, true, ctexts + [t], cs + [c], "");
  }

  /** Where the last line starts. */
  lemma RestPlace(s: string, name: string, ps: seq<Parameter>, rtexts: seq<string>, ctexts: seq<string>, t: string) returns (e: nat)
    requires s == DoubleEquals.Document(name, ps, rtexts, ctexts, t + "\n")
    ensures e < |s| && e == |s| - |t| - 1 && e == |s| - |t + "\n"| && Span(s, e, |s| - 1, t)
  {
    var rest := t + "\n";
    assert |rest| == |t| + 1;
    hide *;
    var i, j, k, l;
    i, j, k, l, e := DoubleEquals.CutDocument(s, name, ps, rtexts, ctexts, rest);
    SpanIs(s, e, |s|, rest);
    var f := Cut(s, e, |s|, t, "\n");
    SpanIs(s, e, f, t);
  }

  lemma RejectedDocument(s: string, m: Model, name: string, ps: seq<Parameter>, rtexts: seq<string>, rs: seq<Relation>,
                         opening: string, ctexts: seq<string>, cs: seq<Constraint>,
                         t: string, b1: string, o: string, b2: string, v: string, c: Constraint)
    requires s == DoubleEquals.Document(name, ps, rtexts, ctexts, t + "\n")
    requires WellFormedName(name) && ps != [] && forall k | 0 <= k < |ps| :: WellFormedParameter(ps[k])
    requires IsOpening(opening) && AllRelationTexts(rtexts, rs, opening, Declared(m.parameters + ps))
    requires AllReadAs(ctexts, cs, Declared(m.parameters + ps))
    requires IsComparison(t, b1, o, b2, v, c, Declared(m.parameters + ps))
    requires !c.IntProposition? && IsOrder(o)
    ensures |t| < |s| && ParseInto(s, m) == Abort(UnorderedValue(|s| - |t| - 1))
  {
    hide *;
    var e := RestPlace(s, name, ps, rtexts, ctexts, t);
    ErrorThere(s, e, |s| - 1, t, b1, o, b2, v, c, Declared(m.parameters + ps));
    DocumentAborts(s, m, name, ps, rtexts, rs, opening, ctexts, cs, t + "\n", UnorderedValue(e));
  }

  lemma ErrorThere(s: string, i: nat, j: nat, t: string, b1: string, o: string, b2: string, v: string, c: Constraint,
                   ds: set<string>)
    requires IsComparison(t, b1, o, b2, v, c, ds) && Span(s, i, j, t) && i <= |s| && !c.IntProposition? && IsOrder(o)
    ensures StartsWithError(s, i, UnorderedValue(i), ds)
  {
    hide *;
    ComparisonSpanAborts(s, i, j, t, b1, o, b2, v, c, ds);
    ComparisonStarts(s, i, j, t, b1, o, b2, v, c, ds);
  }

  lemma EqualityOrOrder(t: string, b1: string, o: string, b2: string, v: string, c: Constraint, ds: set<string>)
    requires IsComparison(t, b1, o, b2, v, c, ds)
    ensures o == "=" || o == "!=" <==> !IsOrder(o)
  {
    OrderOf(o, c.op);
    hide IsOrder, Spells, SpellsValue, IsIdentifier;
  }

  /** A document whose last line is a comparison: its constraint is the last one of the parsed model, or else the parser
      stops with an error at this line, and this happens exactly when a boolean or a quoted text is compared by "<", "<=",
      ">" or ">=". */
  lemma ComparisonDocument(s: string, m: Model, name: string, ps: seq<Parameter>, rtexts: seq<string>, rs: seq<Relation>,
                           opening: string, ctexts: seq<string>, cs: seq<Constraint>,
                           t: string, b1: string, o: string, b2: string, v: string, c: Constraint)
    requires s == DoubleEquals.Document(name, ps, rtexts, ctexts, t + "\n")
    requires WellFormedName(name) && ps != [] && forall k | 0 <= k < |ps| :: WellFormedParameter(ps[k])
    requires IsOpening(opening) && AllRelationTexts(rtexts, rs, opening, Declared(m.parameters + ps))
    requires AllReadAs(ctexts, cs, Declared(m.parameters + ps))
    requires IsComparison(t, b1, o, b2, v, c, Declared(m.parameters + ps))
    ensures |t| < |s|
    ensures c.IntProposition? || o == "=" || o == "!=" ==>
              ParseInto(s, m) == Match(|s|, Model(name, m.parameters + ps, m.relations + rs, m.constraints + (cs + [c])))
    ensures !c.IntProposition? && IsOrder(o) ==> ParseInto(s, m) == Abort(UnorderedValue(|s| - |t| - 1))
  {
    EqualityOrOrder(t, b1, o, b2, v, c, Declared(m.parameters + ps));
    hide *;
    if c.IntProposition? || o == "=" || o == "!=" {
      AcceptedDocument(s, m, name, ps, rtexts, rs, opening, ctexts, cs, t, b1, o, b2, v, c);
    } else {
      RejectedDocument(s, m, name, ps, rtexts, rs, opening, ctexts, cs, t, b1, o, b2, v, c);
    }
  }

  lemma PlainEnd()
    ensures IsEnd("")
  {}

  lemma ComparisonStarts(s: string, i: nat, j: nat, t: string, b1: string, o: string, b2: string, v: string, c: Constraint,
                         ds: set<string>)
    requires IsComparison(t, b1, o, b2, v, c, ds) && Span(s, i, j, t) && i <= |s| && HasError(s, i, UnorderedValue(i), ds)
    ensures StartsWithError(s, i, UnorderedValue(i), ds)
  {
    assert t[0] == c.parameter[0] && IsIdentifierStart(t[0]);
    hide HasError, SpellsValue, Spells, IsIdentifier;
    SpanBounds(s, i, j, t);
  }

  lemma {:induction false} OneMoreReads(texts: seq<string>, cs: seq<Constraint>, t: string, c: Constraint, ds: set<string>)
    requires AllReadAs(texts, cs, ds) && ReadsAs(t, c, ds)
    ensures AllReadAs(texts + [t], cs + [c], ds)
    decreases |cs|
  {
    hide ReadsAs;
    if cs == [] {
      assert texts + [t] == [t] && [t][1..] == [] && cs + [c] == [c] && [c][1..] == [];
      assert AllReadAs([], [], ds);
    } else {
      OneMoreReads(texts[1..], cs[1..], t, c, ds);
      assert (texts + [t])[1..] == texts[1..] + [t] && (cs + [c])[1..] == cs[1..] + [c];
    }
  }

  lemma LastLineOf(name: string, ps: seq<Parameter>, rtexts: seq<string>, ctexts: seq<string>, t: string)
    ensures DoubleEquals.Document(name, ps, rtexts, ctexts, t + "\n") ==
            PrintSystemSection(name) + PrintSection("Parameter", PrintParameters(ps), "\n") + RelationPart(rtexts)
            + ConstraintPart(true, ctexts + [t], "")
  {
    DoubleEquals.LinesConcat(ctexts, [t]);
    assert [t][1..] == [];
    assert Lines([t]) == t + "\n" + "";
    var h := "[" + "Constraint" + "]\n";
    hide Lines, PrintSystemSection, PrintParameters, RelationPart;
    assert h + Lines(ctexts) + (t + "\n") == h + (Lines(ctexts) + (t + "\n" + "")) + "";
  }

  // ---- Which operators parsed models have -----------------------------------------------------------------

  /** Booleans and enums are compared for equality or inequality, wherever they are compared. */
  predicate OnlyEquality(c: Constraint) {
    match c
    case BoolProposition(_, op, _) => op == EQ || op == NEQ
    case EnumProposition(_, op, _) => op == EQ || op == NEQ
    case Implication(l, r) => OnlyEquality(l) && OnlyEquality(r)
    case Nary(_, cs) => forall k | 0 <= k < |cs| :: OnlyEquality(cs[k])
    case _ => true
  }

  lemma {:induction false} WellFormedOperators(c: Constraint, ds: set<string>)
    requires WellFormedConstraint(c, ds)
    ensures OnlyEquality(c)
    decreases c
  {
    match c
    case Implication(l, r) => WellFormedOperators(l, ds); WellFormedOperators(r, ds);
    case Nary(_, cs) =>
      forall k | 0 <= k < |cs| ensures OnlyEquality(cs[k]) { WellFormedOperators(cs[k], ds); }
    case _ =>
  }

  /** Every constraint of every parsed model is like that. */
  lemma ParsedOperators(s: string, m: Model)
    requires Image.Consistent(m) && ParseInto(s, m).Match?
    ensures forall k | 0 <= k < |ParseInto(s, m).value.constraints| :: OnlyEquality(ParseInto(s, m).value.constraints[k])
  {
    hide ParseInto, OnlyEquality, WellFormedConstraint, Image.TextTrims, WellFormed;
    Image.ParsedIsWellFormed(s, m);
    var r := ParseInto(s, m).value;
    forall k | 0 <= k < |r.constraints| ensures OnlyEquality(r.constraints[k]) {
      WellFormedOperators(r.constraints[k], Declared(r.parameters));
    }
  }

  // ---- Every semantic error is one of the input --------------------------------------------------------------

  /** The error is one that the input has, at the position that is reported. */
  ghost predicate IsExplained(s: string, e: SemanticError, ds: set<string>) {
    e.at <= |s| &&
    match e
    case UndeclaredInRelation(at, name) => NamesUndeclared(s, at, name, ds)
    case UndeclaredInConstraint(at, name) => NamesUndeclared(s, at, name, ds)
    case UnorderedValue(at) => OrdersUnordered(s, at, ds)
    case IntegerOutOfRange(at) => OutOfRange(s, at)
  }

  ghost predicate Explains<T>(s: string, r: Outcome<T>, ds: set<string>) { r.Abort? ==> IsExplained(s, r.error, ds) }

  lemma IntegerExplained(s: string, i: nat, ds: set<string>)
    requires i <= |s|
    ensures Explains(s, Integer(s, i), ds)
  {
    var r := Integer(s, i);
    if r.Abort? { IntegerAborts(s, i, r.error); }
    hide Integer, OutOfRange;
  }

  lemma ElementExplained(kind: ElementKind, s: string, i: nat, ds: set<string>)
    requires i <= |s|
    ensures Explains(s, Element(kind, s, i, ds), ds)
  {
    IntegerExplained(s, i, ds);
    hide Integer, OutOfRange, Identifier, AtI, AnyExcept;
  }

  /** Lists of values use no declared names. */
  lemma ValueExplained(kind: ElementKind, s: string, i: nat, ds: set<string>)
    requires i <= |s| && !kind.NameElement?
    ensures Explains(s, Element(kind, s, i, {}), ds)
  {
    IntegerExplained(s, i, ds);
    hide Integer, OutOfRange, AtI, AnyExcept;
  }

  lemma NextExplained(kind: ElementKind, s: string, i: nat, declared: set<string>, ds: set<string>)
    requires i <= |s| && (declared == ds || (!kind.NameElement? && declared == {}))
    ensures Explains(s, NextElement(kind, s, i, declared), ds)
  {
    hide Element, IsExplained, At, Whitespace;
    var j := Lit(s, Whitespace(s, i), ",");
    if j.Match? { OneExplained(kind, s, Whitespace(s, j.pos), declared, ds); }
  }

  lemma OneExplained(kind: ElementKind, s: string, i: nat, declared: set<string>, ds: set<string>)
    requires i <= |s| && (declared == ds || (!kind.NameElement? && declared == {}))
    ensures Explains(s, Element(kind, s, i, declared), ds)
  {
    if declared == ds { ElementExplained(kind, s, i, ds); } else { ValueExplained(kind, s, i, ds); }
    hide Element, Explains;
  }

  lemma {:induction false} MoreExplained(kind: ElementKind, s: string, i: nat, declared: set<string>, ds: set<string>)
    requires i <= |s| && (declared == ds || (!kind.NameElement? && declared == {}))
    ensures Explains(s, MoreElements(kind, s, i, declared), ds)
    decreases |s| - i
  {
    hide NextElement, IsExplained;
    NextExplained(kind, s, i, declared, ds);
    var r := NextElement(kind, s, i, declared);
    if r.Match? { MoreExplained(kind, s, r.pos, declared, ds); }
  }

  lemma ListExplained(kind: ElementKind, s: string, i: nat, declared: set<string>, ds: set<string>)
    requires i <= |s| && (declared == ds || (!kind.NameElement? && declared == {}))
    ensures Explains(s, List(kind, s, i, declared), ds)
  {
    hide Element, MoreElements, IsExplained;
    OneExplained(kind, s, i, declared, ds);
    var r := Element(kind, s, i, declared);
    if r.Match? { MoreExplained(kind, s, r.pos, declared, ds); }
  }

  lemma ParameterExplained(t: ParameterType, s: string, i: nat, ds: set<string>)
    requires i <= |s|
    ensures Explains(s, ParameterOf(t, s, i), ds)
  {
    hide ParameterHead, List, LineEnd, Spaces, Whitespace, IsExplained;
    var r := ParameterHead(t, s, i);
    if r.Match? { ListExplained(KindOf(t), s, Whitespace(s, r.pos), {}, ds); }
  }

  lemma ParameterRuleExplained(s: string, i: nat, ds: set<string>)
    requires i <= |s|
    ensures Explains(s, ParameterRule(s, i), ds)
  {
    hide ParameterOf, IsExplained;
    ParameterExplained(BOOLEAN, s, i, ds);
    ParameterExplained(ENUM, s, i, ds);
    ParameterExplained(INTEGER, s, i, ds);
  }

  lemma {:induction false} MoreParametersExplained(s: string, i: nat, ds: set<string>)
    requires i <= |s|
    ensures Explains(s, MoreParameters(s, i), ds)
    decreases |s| - i
  {
    hide ParameterRule, Spacing, IsExplained;
    ParameterRuleExplained(s, i, ds);
    var r := ParameterRule(s, i);
    if r.Match? { MoreParametersExplained(s, Spacing(s, r.pos), ds); }
  }

  lemma ParametersExplained(s: string, i: nat, ds: set<string>)
    requires i <= |s|
    ensures Explains(s, ParameterSection(s, i), ds)
  {
    hide SectionHeader, ParameterRule, MoreParameters, Spacing, IsExplained;
    var h := SectionHeader(s, i, "Parameter");
    if h.Match? {
      ParameterRuleExplained(s, h.pos, ds);
      var r := ParameterRule(s, h.pos);
      if r.Match? { MoreParametersExplained(s, Spacing(s, r.pos), ds); }
    }
  }

  lemma StrengthExplained(s: string, i: nat, ds: set<string>)
    requires i <= |s|
    ensures Explains(s, Strength(s, i), ds)
  {
    var end := SkipRun(Digit, s, i);
    var v := s[i..end];
    if end > i {
      assert InClass(Digit, s[i]);
      AtSlice(s, i, v);
      hide ParseInt;
      assert IsInteger(s, i, v);
    }
  }

  lemma RelationExplained(s: string, i: nat, ds: set<string>)
    requires i <= |s|
    ensures Explains(s, RelationRule(s, i, ds), ds)
  {
    hide RelationHead, List, Strength, Whitespace, Spaces, Spacing, LineEnd, Lit, IsExplained;
    var h := RelationHead(s, i);
    if h.Match? {
      ListExplained(NameElement, s, Whitespace(s, h.pos), ds, ds);
      var n := RelationNames(s, h.pos, ds);
      if n.Match? { StrengthExplained(s, Whitespace(s, n.pos), ds); }
    }
  }

  lemma {:induction false} RelationsExplained(s: string, i: nat, ds: set<string>)
    requires i <= |s|
    ensures Explains(s, Relations(s, i, ds), ds)
    decreases |s| - i
  {
    hide RelationRule, IsExplained;
    RelationExplained(s, i, ds);
    var r := RelationRule(s, i, ds);
    if r.Match? { RelationsExplained(s, r.pos, ds); }
  }

  lemma PropositionExplained(s: string, i: nat, ds: set<string>)
    requires i <= |s|
    ensures Explains(s, AtomicProp(s, i, ds), ds)
  {
    hide AtomicProp, OutOfRange, OrdersUnordered, NamesUndeclared;
    var r := AtomicProp(s, i, ds);
    if r.Abort? { AbortHasError(s, i, r.error, ds); }
  }

  lemma {:induction false} OperandExplained(s: string, i: nat, ds: set<string>)
    requires i <= |s|
    ensures Explains(s, Operand(s, i, ds), ds)
    decreases |s| - i, 1
  {
    hide AtomicProp, ImplicationRule, Spaces, At, IsExplained;
    PropositionExplained(s, i, ds);
    if Lit(s, i, "(").Match? { ImplicationExplained(s, Spaces(s, i + 1), ds); }
  }

  lemma {:induction false} OperandOfExplained(op: NaryOperator, s: string, i: nat, ds: set<string>)
    requires i <= |s|
    ensures Explains(s, OperandOf(op, s, i, ds), ds)
    decreases |s| - i, if op.OR? then 4 else 2
  {
    hide Operand, Operands, IsExplained;
    if op.OR? { OperandsExplained(AND, s, i, ds); } else { OperandExplained(s, i, ds); }
  }

  lemma {:induction false} MoreOperandsExplained(op: NaryOperator, s: string, i: nat, ds: set<string>)
    requires i <= |s|
    ensures Explains(s, MoreOperands(op, s, i, ds), ds)
    decreases |s| - i, 1
  {
    hide OperandOf, Spaces, At, IsExplained;
    var j := Lit(s, Spaces(s, i), Symbol(op));
    if j.Match? { OperandOfExplained(op, s, Spaces(s, j.pos), ds); }
    var r := NextOperand(op, s, i, ds);
    if r.Match? { MoreOperandsExplained(op, s, r.pos, ds); }
  }

  lemma {:induction false} OperandsExplained(op: NaryOperator, s: string, i: nat, ds: set<string>)
    requires i <= |s|
    ensures Explains(s, Operands(op, s, i, ds), ds)
    decreases |s| - i, if op.OR? then 5 else 3
  {
    hide OperandOf, MoreOperands, IsExplained;
    OperandOfExplained(op, s, i, ds);
    var r := OperandOf(op, s, i, ds);
    if r.Match? { MoreOperandsExplained(op, s, r.pos, ds); }
  }

  lemma {:induction false} ImplicationExplained(s: string, i: nat, ds: set<string>)
    requires i <= |s|
    ensures Explains(s, ImplicationRule(s, i, ds), ds)
    decreases |s| - i, 6
  {
    hide Operands, Spaces, At, IsExplained;
    OperandsExplained(OR, s, i, ds);
    var r := Operands(OR, s, i, ds);
    if r.Match? {
      var j := Lit(s, Spaces(s, r.pos), "=>");
      if j.Match? { OperandsExplained(OR, s, Spaces(s, j.pos), ds); }
    }
  }

  lemma {:induction false} ConstraintsExplained(s: string, i: nat, ds: set<string>)
    requires i <= |s|
    ensures Explains(s, Constraints(s, i, ds), ds)
    decreases |s| - i
  {
    hide ImplicationRule, Spaces, Spacing, LineEnd, IsExplained;
    ImplicationExplained(s, i, ds);
    var r := ConstraintRule(s, i, ds);
    if r.Match? { ConstraintsExplained(s, r.pos, ds); }
  }

  lemma SectionsExplained(s: string, i: nat, ds: set<string>)
    requires i <= |s|
    ensures Explains(s, Optional(RelationSection(s, i, ds), i), ds)
    ensures Explains(s, Optional(ConstraintSection(s, i, ds), i), ds)
  {
    hide SectionHeader, Relations, Constraints, IsExplained;
    var r, c := SectionHeader(s, i, "Relation"), SectionHeader(s, i, "Constraint");
    if r.Match? { RelationsExplained(s, r.pos, ds); }
    if c.Match? { ConstraintsExplained(s, c.pos, ds); }
  }

  /** The names that are declared: those of the model before and those of the section of parameters. */
  function DeclaredBy(s: string, m: Model): set<string> {
    var h := SystemSection(s, Spacing(s, 0));
    if h.Match? && ParameterSection(s, h.pos).Match? then Declared(m.parameters + ParameterSection(s, h.pos).value)
    else Declared(m.parameters)
  }

  /** Whatever the text is: when the parser stops with a semantic error, the text has this error at the position that is
      reported. In particular it reports unordered values for "<", "<=", ">" and ">=" only, with a declared name on the left
      and a boolean or a quoted text on the right. */
  lemma ErrorsAreExplained(s: string, m: Model)
    ensures Explains(s, ParseInto(s, m), DeclaredBy(s, m))
  {
    hide SystemSection, ParameterSection, RelationSection, ConstraintSection, Spacing, Declared, IsExplained;
    var h := SystemSection(s, Spacing(s, 0));
    if h.Match? {
      ParametersExplained(s, h.pos, DeclaredBy(s, m));
      var p := ParameterSection(s, h.pos);
      if p.Match? {
        SectionsExplained(s, p.pos, DeclaredBy(s, m));
        var r := Optional(RelationSection(s, p.pos, DeclaredBy(s, m)), p.pos);
        if r.Match? { SectionsExplained(s, r.pos, DeclaredBy(s, m)); }
        hide Optional, DeclaredBy;
        assert DeclaredBy(s, m) == Declared(m.parameters + p.value) by { Declares(s, m); }
      }
    }
  }

  lemma Declares(s: string, m: Model)
    requires SystemSection(s, Spacing(s, 0)).Match? && ParameterSection(s, SystemSection(s, Spacing(s, 0)).pos).Match?
    ensures DeclaredBy(s, m) == Declared(m.parameters + ParameterSection(s, SystemSection(s, Spacing(s, 0)).pos).value)
  {
    hide SystemSection, ParameterSection, Spacing, Declared;
  }
}
