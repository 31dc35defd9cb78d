/** What each rule of the ACTS parser recognises and yields, as pure functions of the input and
    the position. Parser.dfy proves the imperative parser against them, GrammarProof.dfy
    proves them against the PEG, RoundTrip.dfy and Image.dfy relate them to the printer. */
module Rules {
  import opened Text
  import opened Acts

  datatype SemanticError =
    | UndeclaredInRelation(at: nat, name: string)
    | UndeclaredInConstraint(at: nat, name: string)
    | UnorderedValue(at: nat)
    | IntegerOutOfRange(at: nat)

  /** A rule matches up to `pos`, does not match, or stops the whole parsing. */
  datatype Outcome<+T> = Match(pos: nat, value: T) | NoMatch | Abort(error: SemanticError) {
    predicate IsFailure() { !Match? }

    function PropagateFailure<U>(): Outcome<U>
      requires IsFailure()
    {
      if NoMatch? then NoMatch else Abort(error)
    }

    function Extract(): (nat, T)
      requires Match?
    {
      (pos, value)
    }
  }

  // ---- Lexical rules ----------------------------------------------------------

  function SkipRun(cls: CharClass, s: string, i: nat): (j: nat)
    requires i <= |s|
    ensures i <= j <= |s|
    ensures forall k | i <= k < j :: InClass(cls, s[k])
    ensures j < |s| ==> !InClass(cls, s[j])
    decreases |s| - i
  {
    if i < |s| && InClass(cls, s[i]) then SkipRun(cls, s, i + 1) else i
  }

  /** _ : spaces and tabs. */
  function Spaces(s: string, i: nat): (j: nat)
    requires i <= |s|
    ensures i <= j <= |s|
  {
    SkipRun(Blank, s, i)
  }

  /** ___ : white space including ends of lines. */
  function Whitespace(s: string, i: nat): (j: nat)
    requires i <= |s|
    ensures i <= j <= |s|
  {
    SkipRun(White, s, i)
  }

  /** LineComment, which extends up to the end of its line. */
  function LineComment(s: string, i: nat): (r: Option<nat>)
    requires i <= |s|
    ensures r.Some? ==> i < r.value <= |s|
  {
    if !At(s, i, "--") then None
    else
      var j := SkipText("\n\r", s, i + 2);
      if j < |s| && s[j] !in "\n\r" then None else Some(j)
  }

  /** __ : white space and comments. */
  function Spacing(s: string, i: nat): (j: nat)
    requires i <= |s|
    ensures i <= j <= |s|
    decreases |s| - i
  {
    if i == |s| then i
    else if InClass(White, s[i]) then Spacing(s, i + 1)
    else
      match LineComment(s, i)
      case None => i
      case Some(j) => Spacing(s, j)
  }

  function Eol(s: string, i: nat): (r: Option<nat>)
    requires i <= |s|
    ensures r.Some? ==> i < r.value <= |s|
  {
    if i < |s| && s[i] == '\r' then
      if i + 1 < |s| && s[i + 1] == '\n' then Some(i + 2) else Some(i + 1)
    else if i < |s| && s[i] == '\n' then Some(i + 1)
    else None
  }

  function LineEnd(s: string, i: nat): (r: Outcome<()>)
    requires i <= |s|
    ensures r.Match? ==> i <= r.pos <= |s|
    ensures !r.Abort?
  {
    match Eol(s, i)
    case Some(j) => Match(j, ())
    case None => if i == |s| then Match(i, ()) else NoMatch
  }

  /** One code point unless it starts with a character of `stop`. */
  function AnyExcept(stop: string, s: string, i: nat): (r: Option<nat>)
    requires i <= |s|
    ensures r.Some? ==> i < r.value <= |s|
  {
    if i == |s| || s[i] in stop || CodepointLength(s, i) == 0 then None
    else Some(i + CodepointLength(s, i))
  }

  function Lit(s: string, i: nat, t: string): (r: Outcome<()>)
    requires i <= |s|
    ensures r.Match? ==> i <= r.pos <= |s|
    ensures !r.Abort?
  {
    if At(s, i, t) then Match(i + |t|, ()) else NoMatch
  }

  function LitI(s: string, i: nat, t: string): (r: Outcome<()>)
    requires i <= |s|
    ensures r.Match? ==> i <= r.pos <= |s|
    ensures !r.Abort?
  {
    if AtI(s, i, t) then Match(i + |t|, ()) else NoMatch
  }

  /** Ordered choice between two literals that ignore the case. */
  function EitherI(s: string, i: nat, t: string, u: string): (r: Outcome<()>)
    requires i <= |s|
    ensures r.Match? ==> i <= r.pos <= |s|
    ensures !r.Abort?
  {
    if LitI(s, i, t).Match? then LitI(s, i, t) else LitI(s, i, u)
  }

  function Identifier(s: string, i: nat): (r: Outcome<string>)
    requires i <= |s|
    ensures r.Match? ==> i < r.pos <= |s| && r.value == s[i..r.pos] && IsIdentifier(r.value)
    ensures !r.Abort?
  {
    if i == |s| || !IsIdentifierStart(s[i]) then NoMatch
    else
      var j := SkipRun(IdentifierChar, s, i + 1);
      Match(j, s[i..j])
  }

  /** The value of the numeral between two positions. */
  function ToInt(s: string, start: nat, end: nat): (r: Outcome<int>)
    requires start <= end <= |s|
    ensures r.Match? ==> r.pos == end && FitsInt(r.value) && ParseInt(s[start..end]) == Some(r.value)
    ensures !r.NoMatch?
  {
    match ParseInt(s[start..end])
    case Some(n) => Match(end, n)
    case None => Abort(IntegerOutOfRange(start))
  }

  function Integer(s: string, i: nat): (r: Outcome<int>)
    requires i <= |s|
    ensures r.Match? ==> i < r.pos <= |s| && FitsInt(r.value)
  {
    var j := if i < |s| && InClass(Sign, s[i]) then i + 1 else i;
    if j == |s| || !IsDigit(s[j]) then NoMatch
    else ToInt(s, i, SkipRun(Digit, s, j))
  }

  /** '[' ___ name ___ ']' */
  function Bracketed(s: string, i: nat, name: string): (r: Outcome<()>)
    requires i <= |s|
    ensures r.Match? ==> i < r.pos <= |s|
    ensures !r.Abort?
  {
    var (i1, _) :- Lit(s, i, "[");
    var (i2, _) :- LitI(s, Whitespace(s, i1), name);
    Lit(s, Whitespace(s, i2), "]")
  }

  /** '[' ___ name ___ ']' _ LineEnd __ */
  function SectionHeader(s: string, i: nat, name: string): (r: Outcome<()>)
    requires i <= |s|
    ensures r.Match? ==> i < r.pos <= |s|
    ensures !r.Abort?
  {
    var (i1, _) :- Bracketed(s, i, name);
    var (i2, _) :- LineEnd(s, Spaces(s, i1));
    Match(Spacing(s, i2), ())
  }

  // ---- Lists --------------------------------------------------------------------

  /** The kinds of elements that lists separated by commas have. */
  datatype ElementKind = BooleanElement | EnumElement | IntegerElement | NameElement

  /** BooleanValue, EnumValue, IntegerValue or RelParamName (whose name must be declared). */
  function Element(kind: ElementKind, s: string, i: nat, declared: set<string>): (r: Outcome<Value>)
    requires i <= |s|
    ensures r.Match? ==> i < r.pos <= |s|
  {
    match kind
    case BooleanElement =>
      if LitI(s, i, "true").Match? then Match(i + 4, BoolValue(true))
      else
        var (j, _) :- LitI(s, i, "false");
        Match(j, BoolValue(false))
    case EnumElement =>
      (match AnyExcept(",; \t\n\r", s, i)
       case None => NoMatch
       case Some(j) =>
         var end := SkipText(",;\n\r", s, j);
         Match(end, EnumValue(Trimmed(s[i..end]))))
    case IntegerElement =>
      var (j, n) :- Integer(s, i);
      Match(j, IntValue(n))
    case NameElement =>
      var (j, name) :- Identifier(s, i);
      if name in declared then Match(j, EnumValue(name)) else Abort(UndeclaredInRelation(i, name))
  }

  /** ___ ',' ___ Element */
  function NextElement(kind: ElementKind, s: string, i: nat, declared: set<string>): (r: Outcome<Value>)
    requires i <= |s|
    ensures r.Match? ==> i < r.pos <= |s|
  {
    var (j, _) :- Lit(s, Whitespace(s, i), ",");
    Element(kind, s, Whitespace(s, j), declared)
  }

  /** (___ ',' ___ Element)* */
  function MoreElements(kind: ElementKind, s: string, i: nat, declared: set<string>): (r: Outcome<seq<Value>>)
    requires i <= |s|
    ensures r.Match? ==> i <= r.pos <= |s|
    ensures !r.NoMatch?
    decreases |s| - i
  {
    match NextElement(kind, s, i, declared)
    case NoMatch => Match(i, [])
    case Abort(e) => Abort(e)
    case Match(j, v) =>
      var (k, vs) :- MoreElements(kind, s, j, declared);
      Match(k, [v] + vs)
  }

  /** Element (___ ',' ___ Element)* */
  function List(kind: ElementKind, s: string, i: nat, declared: set<string>): (r: Outcome<seq<Value>>)
    requires i <= |s|
    ensures r.Match? ==> i < r.pos <= |s| && r.value != []
  {
    var (j, v) :- Element(kind, s, i, declared);
    var (k, vs) :- MoreElements(kind, s, j, declared);
    Match(k, [v] + vs)
  }

  // ---- Sections -------------------------------------------------------------------

  function SystemSection(s: string, i: nat): (r: Outcome<string>)
    requires i <= |s|
    ensures r.Match? ==> i < r.pos <= |s|
    ensures !r.Abort?
  {
    var (i1, _) :- SectionHeader(s, i, "System");
    var (i2, _) :- LitI(s, i1, "name");
    var (i3, _) :- Lit(s, Whitespace(s, i2), ":");
    var start := Spaces(s, i3);
    var end := SkipText("\n\r", s, start);
    Match(Spacing(s, end), Trimmed(s[start..end]))
  }

  function ParameterTypeName(t: ParameterType, s: string, i: nat): (r: Outcome<()>)
    requires i <= |s|
    ensures r.Match? ==> i <= r.pos <= |s|
    ensures !r.Abort?
  {
    match t
    case BOOLEAN => EitherI(s, i, "boolean", "bool")
    case ENUM => LitI(s, i, "enum")
    case INTEGER => EitherI(s, i, "integer", "int")
  }

  /** BooleanType, EnumType or IntType */
  function TypeTag(t: ParameterType, s: string, i: nat): (r: Outcome<()>)
    requires i <= |s|
    ensures r.Match? ==> i <= r.pos <= |s|
    ensures !r.Abort?
  {
    var (i1, _) :- Lit(s, i, "(");
    var (i2, _) :- ParameterTypeName(t, s, Whitespace(s, i1));
    Lit(s, Whitespace(s, i2), ")")
  }

  function KindOf(t: ParameterType): ElementKind {
    match t
    case BOOLEAN => BooleanElement
    case ENUM => EnumElement
    case INTEGER => IntegerElement
  }

  /** ParamName ___ TypeTag ___ ':' */
  function ParameterHead(t: ParameterType, s: string, i: nat): (r: Outcome<string>)
    requires i <= |s|
    ensures r.Match? ==> i < r.pos <= |s| && IsIdentifier(r.value)
    ensures !r.Abort?
  {
    var (i1, name) :- Identifier(s, i);
    var (i2, _) :- TypeTag(t, s, Whitespace(s, i1));
    var (i3, _) :- Lit(s, Whitespace(s, i2), ":");
    Match(i3, name)
  }

  /** BooleanParam, EnumParam or IntParam */
  function ParameterOf(t: ParameterType, s: string, i: nat): (r: Outcome<Parameter>)
    requires i <= |s|
    ensures r.Match? ==> i < r.pos <= |s|
  {
    var (i1, name) :- ParameterHead(t, s, i);
    var (i2, values) :- List(KindOf(t), s, Whitespace(s, i1), {});
    var (i3, _) :- LineEnd(s, if t.ENUM? then i2 else Spaces(s, i2));
    Match(i3, Parameter(name, t, values))
  }

  function ParameterRule(s: string, i: nat): (r: Outcome<Parameter>)
    requires i <= |s|
    ensures r.Match? ==> i < r.pos <= |s|
  {
    match ParameterOf(BOOLEAN, s, i)
    case NoMatch =>
      (match ParameterOf(ENUM, s, i)
       case NoMatch => ParameterOf(INTEGER, s, i)
       case r => r)
    case r => r
  }

  /** (ParameterRule __)* */
  function MoreParameters(s: string, i: nat): (r: Outcome<seq<Parameter>>)
    requires i <= |s|
    ensures r.Match? ==> i <= r.pos <= |s|
    ensures !r.NoMatch?
    decreases |s| - i
  {
    match ParameterRule(s, i)
    case NoMatch => Match(i, [])
    case Abort(e) => Abort(e)
    case Match(j, p) =>
      var (k, ps) :- MoreParameters(s, Spacing(s, j));
      Match(k, [p] + ps)
  }

  function ParameterSection(s: string, i: nat): (r: Outcome<seq<Parameter>>)
    requires i <= |s|
    ensures r.Match? ==> i < r.pos <= |s| && r.value != []
  {
    var (i1, _) :- SectionHeader(s, i, "Parameter");
    var (i2, p) :- ParameterRule(s, i1);
    var (i3, ps) :- MoreParameters(s, Spacing(s, i2));
    Match(i3, [p] + ps)
  }

  function Names(vs: seq<Value>): (names: seq<string>)
    ensures |names| == |vs|
  {
    seq(|vs|, k requires 0 <= k < |vs| => if vs[k].EnumValue? then vs[k].text else "")
  }

  /** RelStrength */
  function Strength(s: string, i: nat): (r: Outcome<nat>)
    requires i <= |s|
    ensures r.Match? ==> i < r.pos <= |s| && r.value <= INT_MAX
  {
    var end := SkipRun(Digit, s, i);
    if end == i then NoMatch
    else
      var (j, n) :- ToInt(s, i, end);
      Match(j, n)
  }

  /** RelationName ___ ':' ___ '(' */
  function RelationHead(s: string, i: nat): (r: Outcome<string>)
    requires i <= |s|
    ensures r.Match? ==> i < r.pos <= |s| && IsIdentifier(r.value)
    ensures !r.Abort?
  {
    var (i1, name) :- Identifier(s, i);
    var (i2, _) :- Lit(s, Whitespace(s, i1), ":");
    var (i3, _) :- Lit(s, Whitespace(s, i2), "(");
    Match(i3, name)
  }

  /** ___ RelParamNameList ___ ',' */
  function RelationNames(s: string, i: nat, declared: set<string>): (r: Outcome<seq<string>>)
    requires i <= |s|
    ensures r.Match? ==> i < r.pos <= |s| && r.value != []
  {
    var (i1, params) :- List(NameElement, s, Whitespace(s, i), declared);
    var (i2, _) :- Lit(s, Whitespace(s, i1), ",");
    Match(i2, Names(params))
  }

  /** ___ RelStrength ___ ')' */
  function RelationStrength(s: string, i: nat): (r: Outcome<nat>)
    requires i <= |s|
    ensures r.Match? ==> i < r.pos <= |s| && r.value <= INT_MAX
  {
    var (i1, strength) :- Strength(s, Whitespace(s, i));
    var (i2, _) :- Lit(s, Whitespace(s, i1), ")");
    Match(i2, strength)
  }

  function RelationRule(s: string, i: nat, declared: set<string>): (r: Outcome<Relation>)
    requires i <= |s|
    ensures r.Match? ==> i < r.pos <= |s|
  {
    var (i1, name) :- RelationHead(s, i);
    var (i2, params) :- RelationNames(s, i1, declared);
    var (i3, strength) :- RelationStrength(s, i2);
    var (i4, _) :- LineEnd(s, Spaces(s, i3));
    Match(Spacing(s, i4), Relation(name, params, strength))
  }

  /** RelationRule* */
  function Relations(s: string, i: nat, declared: set<string>): (r: Outcome<seq<Relation>>)
    requires i <= |s|
    ensures r.Match? ==> i <= r.pos <= |s|
    ensures !r.NoMatch?
    decreases |s| - i
  {
    match RelationRule(s, i, declared)
    case NoMatch => Match(i, [])
    case Abort(e) => Abort(e)
    case Match(j, rel) =>
      var (k, rels) :- Relations(s, j, declared);
      Match(k, [rel] + rels)
  }

  function RelationSection(s: string, i: nat, declared: set<string>): (r: Outcome<seq<Relation>>)
    requires i <= |s|
    ensures r.Match? ==> i <= r.pos <= |s|
  {
    var (j, _) :- SectionHeader(s, i, "Relation");
    Relations(s, j, declared)
  }

  // ---- Constraints --------------------------------------------------------------------

  function RelOp(s: string, i: nat): (r: Outcome<RelationalOperator>)
    requires i <= |s|
    ensures r.Match? ==> i < r.pos <= |s|
    ensures !r.Abort?
  {
    if At(s, i, "=") then Match(i + 1, EQ)
    else if At(s, i, "!=") then Match(i + 2, NEQ)
    else if At(s, i, ">=") then Match(i + 2, GE)
    else if At(s, i, "<=") then Match(i + 2, LE)
    else if At(s, i, ">") then Match(i + 1, GT)
    else if At(s, i, "<") then Match(i + 1, LT)
    else NoMatch
  }

  function ConstrEnumValue(s: string, i: nat): (r: Outcome<string>)
    requires i <= |s|
    ensures r.Match? ==> i < r.pos <= |s|
    ensures !r.Abort?
  {
    var (j, _) :- Lit(s, i, "\"");
    match AnyExcept(",;\" \t\n\r", s, j)
    case None => NoMatch
    case Some(k) =>
      var end := SkipText(",;\"\n\r", s, k);
      var (e, _) :- Lit(s, end, "\"");
      Match(e, s[j..end])
  }

  /** ConstrValue, with the proposition that it completes. */
  function ConstrValue(s: string, i: nat, name: string, op: RelationalOperator, start: nat)
    : (r: Outcome<Constraint>)
    requires i <= |s|
    ensures r.Match? ==> i < r.pos <= |s|
  {
    if EitherI(s, i, "true", "false").Match? then
      if IsOrdering(op) then Abort(UnorderedValue(start))
      else Match(EitherI(s, i, "true", "false").pos, BoolProposition(name, op, LitI(s, i, "true").Match?))
    else
      match Integer(s, i)
      case Match(j, n) => Match(j, IntProposition(name, op, n))
      case Abort(e) => Abort(e)
      case NoMatch =>
        var (j, text) :- ConstrEnumValue(s, i);
        if IsOrdering(op) then Abort(UnorderedValue(start)) else Match(j, EnumProposition(name, op, text))
  }

  function AtomicProp(s: string, i: nat, declared: set<string>): (r: Outcome<Constraint>)
    requires i <= |s|
    ensures r.Match? ==> i < r.pos <= |s|
  {
    var (i1, name) :- Identifier(s, i);
    if name !in declared then Abort(UndeclaredInConstraint(i, name))
    else
      var (i2, op) :- RelOp(s, Spaces(s, i1));
      ConstrValue(s, Spaces(s, i2), name, op, i)
  }

  /** '(' _ Implication _ ')' */
  function Parenthesized(s: string, i: nat, declared: set<string>): (r: Outcome<Constraint>)
    requires i <= |s|
    ensures r.Match? ==> i < r.pos <= |s|
    decreases |s| - i, 0
  {
    var (i1, _) :- Lit(s, i, "(");
    var (i2, c) :- ImplicationRule(s, Spaces(s, i1), declared);
    var (i3, _) :- Lit(s, Spaces(s, i2), ")");
    Match(i3, c)
  }

  function Operand(s: string, i: nat, declared: set<string>): (r: Outcome<Constraint>)
    requires i <= |s|
    ensures r.Match? ==> i < r.pos <= |s|
    decreases |s| - i, 1
  {
    match Parenthesized(s, i, declared)
    case NoMatch => AtomicProp(s, i, declared)
    case r => r
  }

  /** The operands of an OrExpr are AndExprs, those of an AndExpr are Operands. */
  function OperandOf(op: NaryOperator, s: string, i: nat, declared: set<string>): (r: Outcome<Constraint>)
    requires i <= |s|
    ensures r.Match? ==> i < r.pos <= |s|
    decreases |s| - i, if op.OR? then 4 else 2
  {
    match op
    case OR => Operands(AND, s, i, declared)
    case AND => Operand(s, i, declared)
  }

  /** _ op _ X */
  function NextOperand(op: NaryOperator, s: string, i: nat, declared: set<string>): (r: Outcome<Constraint>)
    requires i <= |s|
    ensures r.Match? ==> i < r.pos <= |s|
    decreases |s| - i, 0
  {
    var (j, _) :- Lit(s, Spaces(s, i), Symbol(op));
    OperandOf(op, s, Spaces(s, j), declared)
  }

  /** (_ op _ X)* */
  function MoreOperands(op: NaryOperator, s: string, i: nat, declared: set<string>)
    : (r: Outcome<seq<Constraint>>)
    requires i <= |s|
    ensures r.Match? ==> i <= r.pos <= |s|
    ensures !r.NoMatch?
    decreases |s| - i, 1
  {
    match NextOperand(op, s, i, declared)
    case NoMatch => Match(i, [])
    case Abort(e) => Abort(e)
    case Match(j, c) =>
      var (k, cs) :- MoreOperands(op, s, j, declared);
      Match(k, [c] + cs)
  }

  /** OrExpr or AndExpr: more than one operand become an expression. */
  function Operands(op: NaryOperator, s: string, i: nat, declared: set<string>): (r: Outcome<Constraint>)
    requires i <= |s|
    ensures r.Match? ==> i < r.pos <= |s|
    decreases |s| - i, if op.OR? then 5 else 3
  {
    var (j, c) :- OperandOf(op, s, i, declared);
    var (k, cs) :- MoreOperands(op, s, j, declared);
    Match(k, if cs == [] then c else Nary(op, [c] + cs))
  }

  /** _ '=>' _ OrExpr */
  function Conclusion(s: string, i: nat, declared: set<string>): (r: Outcome<Constraint>)
    requires i <= |s|
    ensures r.Match? ==> i < r.pos <= |s|
    decreases |s| - i, 0
  {
    var (j, _) :- Lit(s, Spaces(s, i), "=>");
    Operands(OR, s, Spaces(s, j), declared)
  }

  /** OrExpr (_ '=>' _ OrExpr)? */
  function ImplicationRule(s: string, i: nat, declared: set<string>): (r: Outcome<Constraint>)
    requires i <= |s|
    ensures r.Match? ==> i < r.pos <= |s|
    decreases |s| - i, 6
  {
    var (j, lhs) :- Operands(OR, s, i, declared);
    match Conclusion(s, j, declared)
    case NoMatch => Match(j, lhs)
    case Abort(e) => Abort(e)
    case Match(k, rhs) => Match(k, Implication(lhs, rhs))
  }

  function ConstraintRule(s: string, i: nat, declared: set<string>): (r: Outcome<Constraint>)
    requires i <= |s|
    ensures r.Match? ==> i < r.pos <= |s|
  {
    var (i1, c) :- ImplicationRule(s, i, declared);
    var (i2, _) :- LineEnd(s, Spaces(s, i1));
    Match(Spacing(s, i2), c)
  }

  /** ConstraintRule* */
  function Constraints(s: string, i: nat, declared: set<string>): (r: Outcome<seq<Constraint>>)
    requires i <= |s|
    ensures r.Match? ==> i <= r.pos <= |s|
    ensures !r.NoMatch?
    decreases |s| - i
  {
    match ConstraintRule(s, i, declared)
    case NoMatch => Match(i, [])
    case Abort(e) => Abort(e)
    case Match(j, c) =>
      var (k, cs) :- Constraints(s, j, declared);
      Match(k, [c] + cs)
  }

  function ConstraintSection(s: string, i: nat, declared: set<string>): (r: Outcome<seq<Constraint>>)
    requires i <= |s|
    ensures r.Match? ==> i <= r.pos <= |s|
  {
    var (j, _) :- SectionHeader(s, i, "Constraint");
    Constraints(s, j, declared)
  }

  /** An optional section: nothing is consumed when it does not match. */
  function Optional<T>(r: Outcome<seq<T>>, i: nat): Outcome<seq<T>> {
    if r.NoMatch? then Match(i, []) else r
  }

  /** The whole input parsed into model `m`. */
  function ParseInto(s: string, m: Model): (r: Outcome<Model>)
    ensures r.Match? ==> r.pos == |s|
  {
    var (i1, name) :- SystemSection(s, Spacing(s, 0));
    var (i2, ps) :- ParameterSection(s, i1);
    var declared := Declared(m.parameters + ps);
    var (i3, rs) :- Optional(RelationSection(s, i2, declared), i2);
    var (i4, cs) :- Optional(ConstraintSection(s, i3, declared), i3);
    if i4 < |s| then NoMatch
    else Match(i4, Model(name, m.parameters + ps, m.relations + rs, m.constraints + cs))
  }

  function Parse(s: string): Outcome<Model> { ParseInto(s, EmptyModel()) }
}
