/** What a compiled evaluator answers, in terms of the values that a test assigns and of the answers for the parts of a
    constraint. Every answer here is that of a model that is compiled and then evaluated. */
module Answers {
  import opened Acts
  import E = Evaluator

  /** Parameter `i` is the first one of a name. */
  predicate IsFirst(ps: seq<Parameter>, name: string, i: int) {
    0 <= i < |ps| && ps[i].name == name && forall k | 0 <= k < i :: ps[k].name != name
  }

  /** A test assigns value `v` to the first parameter of a name. */
  ghost predicate Assigns(ps: seq<Parameter>, test: seq<int>, name: string, v: Value)
    requires |test| == |ps|
  {
    exists i :: IsFirst(ps, name, i) && 0 <= test[i] < |ps[i].values| && ps[i].values[test[i]] == v
  }

  predicate IsOfKind(v: Value, kind: ParameterType) {
    match kind
    case BOOLEAN => v.BoolValue?
    case ENUM => v.EnumValue?
    case INTEGER => v.IntValue?
  }

  /** All values of the first parameter of a name, if there is one, are of a kind. */
  ghost predicate AllOfKind(ps: seq<Parameter>, name: string, kind: ParameterType) {
    forall i | IsFirst(ps, name, i) :: forall k | 0 <= k < |ps[i].values| :: IsOfKind(ps[i].values[k], kind)
  }

  lemma FirstIs(ps: seq<Parameter>, name: string)
    ensures var i := E.IndexOf(ps, name);
            if i < |ps| then IsFirst(ps, name, i) && forall k | IsFirst(ps, name, k) :: k == i
            else forall k :: !IsFirst(ps, name, k)
  {}

  function KindOf(c: Constraint): ParameterType
    requires IsProposition(c)
  {
    match c
    case BoolProposition(_, _, _) => BOOLEAN
    case EnumProposition(_, _, _) => ENUM
    case IntProposition(_, _, _) => INTEGER
  }

  lemma TypedExactly(c: Constraint, ps: seq<Parameter>)
    requires IsProposition(c)
    ensures E.Typed(c, ps) <==> AllOfKind(ps, c.parameter, KindOf(c))
  {
    FirstIs(ps, c.parameter);
    hide IsFirst, E.IndexOf;
  }

  lemma HoldsExactly(c: Constraint, ps: seq<Parameter>, test: seq<int>)
    requires IsProposition(c) && E.Typed(c, ps) && |test| == |ps|
    ensures E.Holds(c, ps, test) <==>
            exists v :: Assigns(ps, test, c.parameter, v) && E.Comparable(c, v) && E.Satisfies(c, v)
    ensures forall v, w | Assigns(ps, test, c.parameter, v) && Assigns(ps, test, c.parameter, w) :: v == w
    ensures forall v | Assigns(ps, test, c.parameter, v) :: E.Comparable(c, v)
  {
    FirstIs(ps, c.parameter);
    hide IsFirst, E.IndexOf, E.Satisfies, E.Comparable;
    var i := E.IndexOf(ps, c.parameter);
    if E.Holds(c, ps, test) { assert Assigns(ps, test, c.parameter, ps[i].values[test[i]]); }
  }

  /** Compiles a model with one constraint and evaluates a test. */
  method Ask(ps: seq<Parameter>, c: Constraint, test: seq<int>) returns (compiles: bool, holds: bool)
    requires |test| == |ps|
    ensures compiles == E.Typed(c, ps) && holds == (compiles && E.Holds(c, ps, test))
  {
    compiles, holds := AskAll(ps, [c], test);
    assert E.AllTyped([c], ps) <==> E.Typed([c][0], ps);
  }

  /** Compiles a model with the constraints and evaluates a test. */
  method AskAll(ps: seq<Parameter>, cs: seq<Constraint>, test: seq<int>) returns (compiles: bool, holds: bool)
    requires |test| == |ps|
    ensures compiles == E.AllTyped(cs, ps) && holds == (compiles && E.Fulfilled(cs, ps, test))
  {
    hide *;
    var m := Model("", ps, [], cs);
    var evaluator := new E.ConstraintEvaluator();
    compiles := evaluator.CompileModel(m);
    holds := false;
    if compiles { holds := evaluator.Fulfills(test, m); }
  }

  /** Integers are compared as numbers. Without a value for the parameter the answer is no. */
  method AskInteger(ps: seq<Parameter>, name: string, op: RelationalOperator, n: int, test: seq<int>)
    returns (compiles: bool, holds: bool)
    requires |test| == |ps|
    ensures compiles <==> AllOfKind(ps, name, INTEGER)
    ensures compiles && !(exists v :: Assigns(ps, test, name, IntValue(v))) ==> !holds
    ensures compiles ==> forall v | Assigns(ps, test, name, IntValue(v)) ::
              match op
              case EQ => holds <==> v == n
              case NEQ => holds <==> v != n
              case GE => holds <==> v >= n
              case LE => holds <==> v <= n
              case GT => holds <==> v > n
              case LT => holds <==> v < n
  {
    var c := IntProposition(name, op, n);
    compiles, holds := Ask(ps, c, test);
    TypedExactly(c, ps);
    if compiles { HoldsExactly(c, ps, test); }
    hide Assigns, AllOfKind, E.Typed, E.Holds;
  }

  /** Booleans are compared for equality: every operator but '=' asks for a difference. */
  method AskBoolean(ps: seq<Parameter>, name: string, op: RelationalOperator, b: bool, test: seq<int>)
    returns (compiles: bool, holds: bool)
    requires |test| == |ps|
    ensures compiles <==> AllOfKind(ps, name, BOOLEAN)
    ensures compiles && !(exists v :: Assigns(ps, test, name, BoolValue(v))) ==> !holds
    ensures compiles ==> forall v | Assigns(ps, test, name, BoolValue(v)) ::
              match op
              case EQ => holds <==> v == b
              case _ => holds <==> v != b
  {
    var c := BoolProposition(name, op, b);
    compiles, holds := Ask(ps, c, test);
    TypedExactly(c, ps);
    if compiles { HoldsExactly(c, ps, test); }
    hide Assigns, AllOfKind, E.Typed, E.Holds;
  }

  /** So are the texts of enums. */
  method AskEnum(ps: seq<Parameter>, name: string, op: RelationalOperator, text: string, test: seq<int>)
    returns (compiles: bool, holds: bool)
    requires |test| == |ps|
    ensures compiles <==> AllOfKind(ps, name, ENUM)
    ensures compiles && !(exists v :: Assigns(ps, test, name, EnumValue(v))) ==> !holds
    ensures compiles ==> forall v | Assigns(ps, test, name, EnumValue(v)) ::
              match op
              case EQ => holds <==> v == text
              case _ => holds <==> v != text
  {
    var c := EnumProposition(name, op, text);
    compiles, holds := Ask(ps, c, test);
    TypedExactly(c, ps);
    if compiles { HoldsExactly(c, ps, test); }
    hide Assigns, AllOfKind, E.Typed, E.Holds;
  }

  /** The answers for the six operators and one number exclude each other and fit together as an order does. */
  method AskOrder(ps: seq<Parameter>, name: string, n: int, test: seq<int>)
    returns (compiles: bool, ge: bool, lt: bool, le: bool, gt: bool, eq: bool, ne: bool)
    requires |test| == |ps|
    ensures compiles ==> !(ge && lt) && !(le && gt) && !(eq && ne)
    ensures compiles ==> eq == (ge && le) && ne == (gt || lt)
    ensures compiles && (exists v :: Assigns(ps, test, name, IntValue(v))) ==> (ge || lt) && (le || gt) && (eq || ne)
    ensures compiles && !(exists v :: Assigns(ps, test, name, IntValue(v))) ==> !ge && !lt && !le && !gt && !eq && !ne
  {
    hide Assigns, AllOfKind;
    compiles, ge := AskInteger(ps, name, GE, n, test);
    compiles, lt := AskInteger(ps, name, LT, n, test);
    compiles, le := AskInteger(ps, name, LE, n, test);
    compiles, gt := AskInteger(ps, name, GT, n, test);
    compiles, eq := AskInteger(ps, name, EQ, n, test);
    compiles, ne := AskInteger(ps, name, NEQ, n, test);
  }

  /** A literal is its value. */
  method AskLiteral(ps: seq<Parameter>, b: bool, test: seq<int>) returns (compiles: bool, holds: bool)
    requires |test| == |ps|
    ensures compiles && holds == b
  {
    compiles, holds := Ask(ps, Literal(b), test);
  }

  /** An implication compiles when both sides do, and it holds unless the left side does and the right side does not. */
  method AskImplication(ps: seq<Parameter>, l: Constraint, r: Constraint, test: seq<int>)
    returns (compiles: bool, holds: bool, left: (bool, bool), right: (bool, bool))
    requires |test| == |ps|
    ensures compiles == (left.0 && right.0) && (compiles ==> holds == (!left.1 || right.1))
  {
    var compilesLeft, holdsLeft := Ask(ps, l, test);
    var compilesRight, holdsRight := Ask(ps, r, test);
    left, right := (compilesLeft, holdsLeft), (compilesRight, holdsRight);
    compiles, holds := Ask(ps, Implication(l, r), test);
  }

  /** The answers for constraints that are asked one by one. */
  method AskEach(ps: seq<Parameter>, cs: seq<Constraint>, test: seq<int>) returns (compile: seq<bool>, hold: seq<bool>)
    requires |test| == |ps|
    ensures |compile| == |hold| == |cs|
    ensures forall k | 0 <= k < |cs| :: compile[k] == E.Typed(cs[k], ps) && hold[k] == (compile[k] && E.Holds(cs[k], ps, test))
  {
    hide *;
    compile, hold := [], [];
    for k := 0 to |cs|
      invariant |compile| == |hold| == k
      invariant forall j | 0 <= j < k :: compile[j] == E.Typed(cs[j], ps) && hold[j] == (compile[j] && E.Holds(cs[j], ps, test))
    {
      var compiles, holds := Ask(ps, cs[k], test);
      compile, hold := compile + [compiles], hold + [holds];
    }
  }

  /** A conjunction holds when all operands do, a disjunction when one does; both compile when all operands do. */
  method AskNary(ps: seq<Parameter>, op: NaryOperator, cs: seq<Constraint>, test: seq<int>)
    returns (compiles: bool, holds: bool, compile: seq<bool>, hold: seq<bool>)
    requires |test| == |ps|
    ensures |compile| == |hold| == |cs| && (compiles <==> forall k | 0 <= k < |cs| :: compile[k])
    ensures compiles && op.AND? ==> (holds <==> forall k | 0 <= k < |cs| :: hold[k])
    ensures compiles && op.OR? ==> (holds <==> exists k | 0 <= k < |cs| :: hold[k])
  {
    compile, hold := AskEach(ps, cs, test);
    compiles, holds := Ask(ps, Nary(op, cs), test);
    if compiles { NaryHolds(op, cs, ps, test); }
    TypedParts(op, cs, ps);
    hide E.Typed, E.Holds;
  }

  lemma TypedParts(op: NaryOperator, cs: seq<Constraint>, ps: seq<Parameter>)
    ensures E.Typed(Nary(op, cs), ps) <==> forall k | 0 <= k < |cs| :: E.Typed(cs[k], ps)
  {}

  lemma NaryHolds(op: NaryOperator, cs: seq<Constraint>, ps: seq<Parameter>, test: seq<int>)
    requires E.Typed(Nary(op, cs), ps) && |test| == |ps|
    ensures op.AND? ==> (E.Holds(Nary(op, cs), ps, test) <==> forall k | 0 <= k < |cs| :: E.Holds(cs[k], ps, test))
    ensures op.OR? ==> (E.Holds(Nary(op, cs), ps, test) <==> exists k | 0 <= k < |cs| :: E.Holds(cs[k], ps, test))
  {}

  /** A model compiles when each of its constraints does, and a test fulfills it when it fulfills each of them. */
  method AskModel(ps: seq<Parameter>, cs: seq<Constraint>, test: seq<int>)
    returns (compiles: bool, holds: bool, compile: seq<bool>, hold: seq<bool>)
    requires |test| == |ps|
    ensures |compile| == |hold| == |cs| && (compiles <==> forall k | 0 <= k < |cs| :: compile[k])
    ensures compiles ==> (holds <==> forall k | 0 <= k < |cs| :: hold[k])
  {
    compile, hold := AskEach(ps, cs, test);
    compiles, holds := AskAll(ps, cs, test);
    hide E.Typed, E.Holds;
  }
}
