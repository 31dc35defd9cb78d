/** The meaning of constraints over tests, and their compilation into flat nodes with tables, which preserves it. */
module Evaluator {
  import opened Text
  import opened Acts

  // ---- Meaning ---------------------------------------------------------------------------

  /** The index of the first parameter of a name, or the number of parameters. */
  function IndexOf(ps: seq<Parameter>, name: string): (i: nat)
    ensures i <= |ps|
    ensures i < |ps| ==> ps[i].name == name
    ensures forall k | 0 <= k < i :: ps[k].name != name
  {
    if ps == [] || ps[0].name == name then 0 else 1 + IndexOf(ps[1..], name)
  }

  predicate Compare(op: RelationalOperator, a: int, b: int) {
    match op
    case EQ => a == b
    case NEQ => a != b
    case GE => a >= b
    case LE => a <= b
    case GT => a > b
    case LT => a < b
  }

  /** Whether a value has the type that a proposition compares. */
  predicate Comparable(c: Constraint, v: Value)
    requires IsProposition(c)
  {
    match c
    case BoolProposition(_, _, _) => v.BoolValue?
    case EnumProposition(_, _, _) => v.EnumValue?
    case IntProposition(_, _, _) => v.IntValue?
  }

  /** A proposition about a value of its type. Only integers have an order: every operator but '=' means '!=' for
      the others. */
  predicate Satisfies(c: Constraint, v: Value)
    requires IsProposition(c) && Comparable(c, v)
  {
    match c
    case BoolProposition(_, op, b) => if op.EQ? then v.b == b else v.b != b
    case EnumProposition(_, op, t) => if op.EQ? then v.text == t else v.text != t
    case IntProposition(_, op, n) => Compare(op, v.n, n)
  }

  /** The values of a parameter that occur in a proposition about it have the compared type. */
  predicate Typed(c: Constraint, ps: seq<Parameter>)
    decreases c
  {
    match c
    case Literal(_) => true
    case Implication(l, r) => Typed(l, ps) && Typed(r, ps)
    case Nary(_, cs) => forall k | 0 <= k < |cs| :: Typed(cs[k], ps)
    case _ =>
      var i := IndexOf(ps, c.parameter);
      i < |ps| ==> forall k | 0 <= k < |ps[i].values| :: Comparable(c, ps[i].values[k])
  }

  /** A test gives every parameter the index of its value; anything out of range satisfies no proposition, and
      neither does a parameter that is not declared. */
  predicate Holds(c: Constraint, ps: seq<Parameter>, test: seq<int>)
    requires Typed(c, ps) && |test| == |ps|
    decreases c
  {
    match c
    case Literal(b) => b
    case Implication(l, r) => Holds(l, ps, test) ==> Holds(r, ps, test)
    case Nary(AND, cs) => forall k | 0 <= k < |cs| :: Holds(cs[k], ps, test)
    case Nary(OR, cs) => exists k | 0 <= k < |cs| :: Holds(cs[k], ps, test)
    case _ =>
      var i := IndexOf(ps, c.parameter);
      i < |ps| && 0 <= test[i] < |ps[i].values| && Satisfies(c, ps[i].values[test[i]])
  }

  predicate AllTyped(cs: seq<Constraint>, ps: seq<Parameter>) { forall k | 0 <= k < |cs| :: Typed(cs[k], ps) }

  predicate Fulfilled(cs: seq<Constraint>, ps: seq<Parameter>, test: seq<int>)
    requires AllTyped(cs, ps) && |test| == |ps|
  {
    forall k | 0 <= k < |cs| :: Holds(cs[k], ps, test)
  }

  // ---- Compilation ---------------------------------------------------------------------------

  datatype NodeKind = CONSTANT | ATOM | NOT_OR | AND_NODE | OR_NODE

  datatype Node = Node(kind: NodeKind, a: nat, b: nat, size: nat)

  function KindOfNary(op: NaryOperator): NodeKind { if op.AND? then AND_NODE else OR_NODE }

  /** The compiled code: nodes, the children of the inner ones, the tables of the atoms. */
  datatype Code = Code(nodes: seq<Node>, children: seq<nat>, tables: seq<bool>)

  predicate Extends(before: Code, after: Code) {
    before.nodes <= after.nodes && before.children <= after.children && before.tables <= after.tables
  }

  predicate IsTable(code: Code, n: Node, c: Constraint, p: Parameter)
    requires IsProposition(c) && forall k | 0 <= k < |p.values| :: Comparable(c, p.values[k])
  {
    && n.size == |p.values| && n.b + n.size <= |code.tables|
    && forall k | 0 <= k < n.size :: code.tables[n.b + k] == Satisfies(c, p.values[k])
  }

  /** Node `x` is the compiled form of `c`. */
  predicate Represents(code: Code, x: nat, c: Constraint, ps: seq<Parameter>)
    requires Typed(c, ps)
    decreases c
  {
    x < |code.nodes| &&
    var n := code.nodes[x];
    match c
    case Literal(b) => n.kind == CONSTANT && n.a == if b then 1 else 0
    case Implication(l, r) =>
      && n.kind == NOT_OR && n.a + 1 < |code.children|
      && Represents(code, code.children[n.a], l, ps) && Represents(code, code.children[n.a + 1], r, ps)
    case Nary(op, cs) =>
      && n.kind == KindOfNary(op) && n.b == |cs| && n.a + n.b <= |code.children|
      && forall k | 0 <= k < |cs| :: Represents(code, code.children[n.a + k], cs[k], ps)
    case _ =>
      var i := IndexOf(ps, c.parameter);
      if i == |ps| then n.kind == CONSTANT && n.a == 0
      else n.kind == ATOM && n.a == i && IsTable(code, n, c, ps[i])
  }

  /** Code only grows, and what it represents stays. */
  lemma {:induction false} StillRepresents(before: Code, after: Code, x: nat, c: Constraint, ps: seq<Parameter>)
    requires Extends(before, after) && Typed(c, ps) && Represents(before, x, c, ps)
    ensures Represents(after, x, c, ps)
    decreases c
  {
    var n := before.nodes[x];
    assert after.nodes[x] == n;
    match c
    case Literal(_) =>
    case Implication(l, r) =>
      StillRepresents(before, after, before.children[n.a], l, ps);
      StillRepresents(before, after, before.children[n.a + 1], r, ps);
    case Nary(_, cs) =>
      forall k | 0 <= k < |cs| ensures Represents(after, after.children[n.a + k], cs[k], ps) {
        assert before.children[n.a + k] == after.children[n.a + k];
        StillRepresents(before, after, before.children[n.a + k], cs[k], ps);
      }
    case _ => if IndexOf(ps, c.parameter) < |ps| { TableStays(before, after, n, c, ps); }
  }

  lemma TableStays(before: Code, after: Code, n: Node, c: Constraint, ps: seq<Parameter>)
    requires Extends(before, after) && IsProposition(c) && Typed(c, ps) && IndexOf(ps, c.parameter) < |ps|
    ensures var p := ps[IndexOf(ps, c.parameter)]; IsTable(before, n, c, p) ==> IsTable(after, n, c, p)
  {}

  /** Nodes `xs` represent the constraints `cs`, one by one. */
  predicate AllRepresent(code: Code, xs: seq<nat>, cs: seq<Constraint>, ps: seq<Parameter>)
    requires AllTyped(cs, ps)
  {
    |xs| == |cs| && forall k | 0 <= k < |cs| :: Represents(code, xs[k], cs[k], ps)
  }

  lemma AllStillRepresent(before: Code, after: Code, xs: seq<nat>, cs: seq<Constraint>, ps: seq<Parameter>)
    requires Extends(before, after) && AllTyped(cs, ps) && AllRepresent(before, xs, cs, ps)
    ensures AllRepresent(after, xs, cs, ps)
  {
    forall k | 0 <= k < |cs| ensures Represents(after, xs[k], cs[k], ps) {
      StillRepresents(before, after, xs[k], cs[k], ps);
    }
  }

  lemma OneMoreRepresents(code: Code, xs: seq<nat>, cs: seq<Constraint>, x: nat, c: Constraint, ps: seq<Parameter>)
    requires AllTyped(cs, ps) && AllRepresent(code, xs, cs, ps) && Typed(c, ps) && Represents(code, x, c, ps)
    ensures AllTyped(cs + [c], ps) && AllRepresent(code, xs + [x], cs + [c], ps)
  {
    var ys, ds := xs + [x], cs + [c];
    forall k | 0 <= k < |ds| ensures Typed(ds[k], ps) && Represents(code, ys[k], ds[k], ps) {
      if k < |cs| { assert ds[k] == cs[k] && ys[k] == xs[k]; }
    }
  }

  /** An inner node after its children. */
  lemma InnerRepresents(before: Code, after: Code, kids: seq<nat>, op: NaryOperator, cs: seq<Constraint>,
                        ps: seq<Parameter>)
    requires AllTyped(cs, ps) && AllRepresent(before, kids, cs, ps)
    requires after.nodes == before.nodes + [Node(KindOfNary(op), |before.children|, |kids|, 0)]
    requires after.children == before.children + kids && after.tables == before.tables
    ensures Extends(before, after) && Represents(after, |before.nodes|, Nary(op, cs), ps)
  {
    AllStillRepresent(before, after, kids, cs, ps);
    NaryRepresents(after, |before.nodes|, |before.children|, kids, op, cs, ps);
  }

  lemma NaryRepresents(code: Code, x: nat, first: nat, kids: seq<nat>, op: NaryOperator, cs: seq<Constraint>,
                       ps: seq<Parameter>)
    requires AllTyped(cs, ps) && AllRepresent(code, kids, cs, ps)
    requires x < |code.nodes| && code.nodes[x] == Node(KindOfNary(op), first, |kids|, 0)
    requires first + |kids| <= |code.children| && code.children[first..first + |kids|] == kids
    ensures Represents(code, x, Nary(op, cs), ps)
  {
    forall k | 0 <= k < |cs| ensures code.children[first + k] == kids[k] {
      assert code.children[first..first + |kids|][k] == kids[k];
    }
  }

  lemma ImplicationRepresents(before: Code, after: Code, x: nat, y: nat, l: Constraint, r: Constraint, ps: seq<Parameter>)
    requires Typed(l, ps) && Typed(r, ps) && Represents(before, x, l, ps) && Represents(before, y, r, ps)
    requires after.nodes == before.nodes + [Node(NOT_OR, |before.children|, 2, 0)]
    requires after.children == before.children + [x, y] && after.tables == before.tables
    ensures Extends(before, after) && Represents(after, |before.nodes|, Implication(l, r), ps)
  {
    StillRepresents(before, after, x, l, ps);
    StillRepresents(before, after, y, r, ps);
  }

  lemma ExtendsFurther(a: Code, b: Code, c: Code)
    requires Extends(a, b) && Extends(b, c)
    ensures Extends(a, c)
  {}

  lemma IndexIs(index: map<string, nat>, ps: seq<Parameter>, name: string)
    requires IsIndex(index, ps)
    ensures name in index <==> IndexOf(ps, name) < |ps|
    ensures name in index ==> index[name] == IndexOf(ps, name)
  {
    var i := IndexOf(ps, name);
    if i < |ps| { assert ps[i].name in index; }
  }

  /** The compiled constraints of a model. Compilation throws when it meets a value of another type than a
      proposition compares. */
  class ConstraintEvaluator {
    var nodes: seq<Node>
    var children: seq<nat>
    var tables: seq<bool>
    var roots: seq<nat>

    constructor ()
      ensures Compiled() == Code([], [], []) && roots == []
    {
      nodes, children, tables, roots := [], [], [], [];
    }

    function Compiled(): Code
      reads `nodes, `children, `tables
    {
      Code(nodes, children, tables)
    }

    method Add(n: Node) returns (x: nat)
      modifies `nodes
      ensures nodes == old(nodes) + [n] && x == |old(nodes)|
    {
      nodes := nodes + [n];
      x := |nodes| - 1;
    }

    method AddInner(kind: NodeKind, kids: seq<nat>) returns (x: nat)
      modifies `nodes, `children
      ensures nodes == old(nodes) + [Node(kind, |old(children)|, |kids|, 0)] && x == |old(nodes)|
      ensures children == old(children) + kids
    {
      var first := |children|;
      children := children + kids;
      x := Add(Node(kind, first, |kids|, 0));
    }

    /** An atom: the truth of the proposition for every value of its parameter, tabulated. */
    method CompileAtom(c: Constraint, ps: seq<Parameter>, index: map<string, nat>) returns (ok: bool, x: nat)
      requires IsProposition(c) && IsIndex(index, ps)
      modifies `nodes, `tables
      ensures Extends(old(Compiled()), Compiled())
      ensures ok == Typed(c, ps) && (ok ==> Represents(Compiled(), x, c, ps))
    {
      IndexIs(index, ps, c.parameter);
      hide IsIndex;
      if c.parameter !in index {
        x := Add(Node(CONSTANT, 0, 0, 0));
        return true, x;
      }
      var i := index[c.parameter];
      var offset := |tables|;
      ok := FillTable(c, ps[i].values);
      if !ok { return false, 0; }
      x := Add(Node(ATOM, i, offset, |ps[i].values|));
    }

    /** One entry for each value, up to the first one of another type. */
    method FillTable(c: Constraint, values: seq<Value>) returns (ok: bool)
      requires IsProposition(c)
      modifies `tables
      ensures ok == forall k | 0 <= k < |values| :: Comparable(c, values[k])
      ensures old(tables) <= tables
      ensures ok ==> |tables| == |old(tables)| + |values|
      ensures ok ==> forall k | 0 <= k < |values| :: tables[|old(tables)| + k] == Satisfies(c, values[k])
    {
      for k := 0 to |values|
        invariant forall j | 0 <= j < k :: Comparable(c, values[j])
        invariant |tables| == |old(tables)| + k && old(tables) <= tables
        invariant forall j | 0 <= j < k :: tables[|old(tables)| + j] == Satisfies(c, values[j])
      {
        if !Comparable(c, values[k]) { return false; }
        tables := tables + [Satisfies(c, values[k])];
      }
      return true;
    }

    method Compile(c: Constraint, ps: seq<Parameter>, index: map<string, nat>) returns (ok: bool, x: nat)
      requires IsIndex(index, ps)
      modifies `nodes, `children, `tables
      ensures Extends(old(Compiled()), Compiled())
      ensures ok == Typed(c, ps) && (ok ==> Represents(Compiled(), x, c, ps))
      decreases c
    {
      x := 0;
      match c {
        case Literal(b) =>
          ok := true;
          x := Add(Node(CONSTANT, if b then 1 else 0, 0, 0));
        case Implication(l, r) =>
          ok, x := CompileImplication(l, r, ps, index, c);
        case Nary(op, cs) =>
          ok, x := CompileNary(op, cs, ps, index, c);
        case _ =>
          ok, x := CompileAtom(c, ps, index);
      }
    }

    /** An implication becomes the disjunction of its negated left side and its right side. */
    method CompileImplication(l: Constraint, r: Constraint, ps: seq<Parameter>, index: map<string, nat>, ghost parent: Constraint)
      returns (ok: bool, x: nat)
      requires IsIndex(index, ps) && parent == Implication(l, r)
      modifies `nodes, `children, `tables
      ensures Extends(old(Compiled()), Compiled())
      ensures ok == Typed(parent, ps) && (ok ==> Represents(Compiled(), x, parent, ps))
      decreases parent, 0
    {
      hide Extends, Represents, IsIndex;
      var y;
      ghost var start := Compiled();
      ok, x := Compile(l, ps, index);
      if !ok { return; }
      ghost var first := Compiled();
      ok, y := Compile(r, ps, index);
      ghost var second := Compiled();
      ExtendsFurther(start, first, second);
      if !ok { return; }
      StillRepresents(first, second, x, l, ps);
      var z := AddInner(NOT_OR, [x, y]);
      ImplicationRepresents(second, Compiled(), x, y, l, r, ps);
      ExtendsFurther(start, second, Compiled());
      x := z;
    }

    method CompileNary(op: NaryOperator, cs: seq<Constraint>, ps: seq<Parameter>, index: map<string, nat>,
                       ghost parent: Constraint)
      returns (ok: bool, x: nat)
      requires IsIndex(index, ps) && parent == Nary(op, cs)
      modifies `nodes, `children, `tables
      ensures Extends(old(Compiled()), Compiled())
      ensures ok == Typed(parent, ps) && (ok ==> Represents(Compiled(), x, parent, ps))
      decreases parent, 0
    {
      hide Extends, Represents, IsIndex, AllTyped, AllRepresent;
      ghost var start := Compiled();
      var kids: seq<nat> := [];
      x := 0;
      NoneRepresents(start, ps);
      for k := 0 to |cs|
        invariant Extends(start, Compiled())
        invariant AllTyped(cs[..k], ps) && AllRepresent(Compiled(), kids, cs[..k], ps)
      {
        ghost var before := Compiled();
        var y;
        ok, y := Compile(cs[k], ps, index);
        ExtendsFurther(start, before, Compiled());
        if !ok { return; }
        AllStillRepresent(before, Compiled(), kids, cs[..k], ps);
        OneMoreRepresents(Compiled(), kids, cs[..k], y, cs[k], ps);
        assert cs[..k] + [cs[k]] == cs[..k + 1];
        kids := kids + [y];
      }
      assert cs[..|cs|] == cs;
      ghost var before := Compiled();
      x := AddInner(KindOfNary(op), kids);
      SameKids(before, kids, cs, ps);
      InnerRepresents(before, Compiled(), kids, op, cs, ps);
      ExtendsFurther(start, before, Compiled());
      ok := true;
    }

    /** The constructor: compiles all constraints of a model. */
    method CompileModel(m: Model) returns (ok: bool)
      requires Compiled() == Code([], [], []) && roots == []
      modifies this
      ensures ok == AllTyped(m.constraints, m.parameters)
      ensures ok ==> AllRepresent(Compiled(), roots, m.constraints, m.parameters)
    {
      hide Extends, Represents, IsIndex, AllTyped, AllRepresent;
      var ps, cs := m.parameters, m.constraints;
      var index := BuildIndex(ps);
      NoneRepresents(Compiled(), ps);
      for k := 0 to |cs|
        invariant AllTyped(cs[..k], ps) && AllRepresent(Compiled(), roots, cs[..k], ps)
      {
        ghost var before := Compiled();
        var x;
        ok, x := Compile(cs[k], ps, index);
        if !ok {
          NotAllTyped(cs, k, ps);
          return;
        }
        AllStillRepresent(before, Compiled(), roots, cs[..k], ps);
        OneMoreRepresents(Compiled(), roots, cs[..k], x, cs[k], ps);
        assert cs[..k] + [cs[k]] == cs[..k + 1];
        roots := roots + [x];
      }
      assert cs[..|cs|] == cs;
      ok := true;
    }

    /** Parameter names with their index, where the first of a name stays. */
    static method BuildIndex(ps: seq<Parameter>) returns (index: map<string, nat>)
      ensures IsIndex(index, ps)
    {
      hide IsIndex;
      index := map[];
      assert IsIndex(map[], []) by { NoIndex(); }
      for i := 0 to |ps|
        invariant IsIndex(index, ps[..i])
      {
        IndexGrows(index, ps[..i], ps[i]);
        assert ps[..i] + [ps[i]] == ps[..i + 1];
        if ps[i].name !in index { index := index[ps[i].name := i]; }
      }
      assert ps[..|ps|] == ps;
    }

    /** Evaluates a node: the compiled form has the meaning of the constraint. */
    method Eval(x: nat, test: seq<int>, ghost c: Constraint, ghost ps: seq<Parameter>) returns (r: bool)
      requires Typed(c, ps) && Represents(Compiled(), x, c, ps) && |test| == |ps|
      ensures r == Holds(c, ps, test)
      decreases c
    {
      var n := nodes[x];
      match n.kind {
        case CONSTANT =>
          r := n.a != 0;
        case ATOM =>
          var v := test[n.a];
          r := 0 <= v < n.size && tables[n.b + v];
        case NOT_OR =>
          var l := Eval(children[n.a], test, c.lhs, ps);
          if l { r := Eval(children[n.a + 1], test, c.rhs, ps); } else { r := true; }
        case AND_NODE =>
          r := EvalAnd(n, test, c, ps);
        case OR_NODE =>
          r := EvalOr(n, test, c, ps);
      }
    }

    /** A conjunction: the operands after the first false one are not evaluated. */
    method EvalAnd(n: Node, test: seq<int>, ghost c: Constraint, ghost ps: seq<Parameter>) returns (r: bool)
      requires c.Nary? && c.nop.AND? && Typed(c, ps) && |test| == |ps|
      requires n.b == |c.operands| && n.a + n.b <= |children|
      requires forall k | 0 <= k < n.b :: Represents(Compiled(), children[n.a + k], c.operands[k], ps)
      ensures r == Holds(c, ps, test)
      decreases c, 0
    {
      for i := 0 to n.b
        invariant forall k | 0 <= k < i :: Holds(c.operands[k], ps, test)
      {
        var holds := Eval(children[n.a + i], test, c.operands[i], ps);
        if !holds { return false; }
      }
      return true;
    }

    /** A disjunction: the operands after the first true one are not evaluated. */
    method EvalOr(n: Node, test: seq<int>, ghost c: Constraint, ghost ps: seq<Parameter>) returns (r: bool)
      requires c.Nary? && c.nop.OR? && Typed(c, ps) && |test| == |ps|
      requires n.b == |c.operands| && n.a + n.b <= |children|
      requires forall k | 0 <= k < n.b :: Represents(Compiled(), children[n.a + k], c.operands[k], ps)
      ensures r == Holds(c, ps, test)
      decreases c, 0
    {
      for i := 0 to n.b
        invariant forall k | 0 <= k < i :: !Holds(c.operands[k], ps, test)
      {
        var holds := Eval(children[n.a + i], test, c.operands[i], ps);
        if holds { return true; }
      }
      return false;
    }

    /** Whether a test fulfills all constraints of the model the code is compiled from. */
    method Fulfills(test: seq<int>, ghost m: Model) returns (r: bool)
      requires AllTyped(m.constraints, m.parameters) && |test| == |m.parameters|
      requires AllRepresent(Compiled(), roots, m.constraints, m.parameters)
      ensures r == Fulfilled(m.constraints, m.parameters, test)
    {
      hide Represents, Holds;
      for i := 0 to |roots|
        invariant forall k | 0 <= k < i :: Holds(m.constraints[k], m.parameters, test)
      {
        var holds := Eval(roots[i], test, m.constraints[i], m.parameters);
        if !holds { return false; }
      }
      return true;
    }
  }

  lemma NotAllTyped(cs: seq<Constraint>, k: nat, ps: seq<Parameter>)
    requires k < |cs| && !Typed(cs[k], ps)
    ensures !AllTyped(cs, ps)
  {}

  lemma NoIndex()
    ensures IsIndex(map[], [])
  {}

  lemma NoneRepresents(code: Code, ps: seq<Parameter>)
    ensures AllTyped([], ps) && AllRepresent(code, [], [], ps) && Extends(code, code)
  {}

  lemma SameKids(code: Code, kids: seq<nat>, cs: seq<Constraint>, ps: seq<Parameter>)
    requires AllTyped(cs, ps) && AllRepresent(code, kids, cs, ps)
    ensures |kids| == |cs| && Typed(Nary(AND, cs), ps) && Typed(Nary(OR, cs), ps)
  {}
}
