/** The CASA converter: reading clauses over flat variables, writing them as an ACTS model, and what that model
    means. */
module Casa {
  import opened Text
  import opened Acts
  import R = Rules
  import opened Clauses
  import M = ModelRoundTrip
  import E = Evaluator
  import P = Printer

  /** The parameter and the value that a flat variable stands for. */
  datatype VarMap = VarMap(param: nat, value: nat)

  datatype CasaLiteral = CasaLiteral(variable: int, negative: bool)

  // ---- The flat variable map -------------------------------------------------------------------

  function Row(p: nat, size: int): (row: seq<VarMap>)
    ensures |row| == if size > 0 then size else 0
    ensures forall v | 0 <= v < |row| :: row[v] == VarMap(p, v)
  {
    seq(if size > 0 then size else 0, v requires v >= 0 => VarMap(p, v))
  }

  /** All pairs of a parameter and one of its values, in order. */
  function FlatMap(sizes: seq<int>): seq<VarMap> {
    if sizes == [] then [] else FlatMap(sizes[..|sizes| - 1]) + Row(|sizes| - 1, sizes[|sizes| - 1])
  }

  lemma RowGrows(p: nat, v: nat)
    ensures Row(p, v) + [VarMap(p, v)] == Row(p, v + 1)
  {}

  lemma RowEnds(p: nat, v: nat, size: int)
    requires v == if size > 0 then size else 0
    ensures Row(p, v) == Row(p, size) && Row(p, 0) == []
  {}

  lemma FlatMapGrows(sizes: seq<int>, p: nat)
    requires p < |sizes|
    ensures FlatMap(sizes[..p + 1]) == FlatMap(sizes[..p]) + Row(p, sizes[p])
  {
    hide Row;
    assert sizes[..p + 1][..p] == sizes[..p];
  }

  method BuildVarMap(sizes: seq<int>) returns (varMap: seq<VarMap>)
    ensures varMap == FlatMap(sizes)
  {
    hide Row;
    varMap := [];
    for p := 0 to |sizes|
      invariant varMap == FlatMap(sizes[..p])
    {
      hide FlatMap;
      ghost var before := varMap;
      var v := 0;
      RowEnds(p, 0, 0);
      while v < sizes[p]
        invariant 0 <= v && (v > 0 ==> v <= sizes[p])
        invariant varMap == before + Row(p, v)
      {
        varMap := varMap + [VarMap(p, v)];
        RowGrows(p, v);
        v := v + 1;
      }
      RowEnds(p, v, sizes[p]);
      FlatMapGrows(sizes, p);
    }
    assert sizes[..|sizes|] == sizes;
  }

  /** The flat index of a value of a parameter. */
  function FlatIndex(sizes: seq<int>, p: nat, v: nat): nat
    requires p < |sizes|
  {
    |FlatMap(sizes[..p])| + v
  }

  lemma {:induction false} FlatPrefix(sizes: seq<int>, p: nat)
    requires p <= |sizes|
    ensures FlatMap(sizes[..p]) <= FlatMap(sizes)
  {
    var n := |sizes| - 1;
    if p == |sizes| {
      assert sizes[..p] == sizes;
    } else {
      FlatPrefix(sizes[..n], p);
      assert sizes[..n][..p] == sizes[..p];
    }
  }

  /** Every pair in range has its flat index, ... */
  lemma FlatOfPair(sizes: seq<int>, p: nat, v: nat)
    requires p < |sizes| && v < sizes[p]
    ensures FlatIndex(sizes, p, v) < |FlatMap(sizes)| && FlatMap(sizes)[FlatIndex(sizes, p, v)] == VarMap(p, v)
  {
    var upTo := sizes[..p + 1];
    assert upTo[..p] == sizes[..p];
    FlatPrefix(sizes, p + 1);
  }

  /** ... and every flat index is that of the pair it is mapped to. */
  lemma {:induction false} PairOfFlat(sizes: seq<int>, x: nat)
    requires x < |FlatMap(sizes)|
    ensures var m := FlatMap(sizes)[x];
            m.param < |sizes| && m.value < sizes[m.param] && FlatIndex(sizes, m.param, m.value) == x
  {
    var n := |sizes| - 1;
    var before := FlatMap(sizes[..n]);
    if x < |before| {
      PairOfFlat(sizes[..n], x);
      var m := before[x];
      assert sizes[..n][..m.param] == sizes[..m.param];
    }
  }

  // ---- Meaning of clauses --------------------------------------------------------------------------

  predicate InRange(lit: CasaLiteral, varMap: seq<VarMap>) { 0 <= lit.variable < |varMap| }

  predicate AllInRange(lits: seq<CasaLiteral>, varMap: seq<VarMap>) { forall k | 0 <= k < |lits| :: InRange(lits[k], varMap) }

  /** A truth value for every flat variable, exactly one of which is true for each parameter. */
  predicate OneHot(sizes: seq<int>, xs: seq<bool>) {
    && |xs| == |FlatMap(sizes)|
    && forall p | 0 <= p < |sizes| :: HasOneHot(sizes, xs, p)
  }

  predicate HasOneHot(sizes: seq<int>, xs: seq<bool>, p: nat)
    requires p < |sizes| && |xs| == |FlatMap(sizes)|
  {
    exists v | 0 <= v < sizes[p] :: IsHot(sizes, xs, p, v)
  }

  /** The value `v` is the one whose variable is true. */
  predicate IsHot(sizes: seq<int>, xs: seq<bool>, p: nat, v: nat)
    requires p < |sizes| && |xs| == |FlatMap(sizes)|
  {
    forall w | 0 <= w < sizes[p] :: FlatIndex(sizes, p, w) < |xs| && (xs[FlatIndex(sizes, p, w)] <==> w == v)
  }

  predicate IsTest(sizes: seq<int>, test: seq<int>) {
    |test| == |sizes| && forall p | 0 <= p < |sizes| :: 0 <= test[p] < sizes[p]
  }

  /** The truth values that a test gives to the flat variables. */
  function Encode(sizes: seq<int>, test: seq<int>): (xs: seq<bool>)
    requires |test| == |sizes|
    ensures |xs| == |FlatMap(sizes)|
  {
    seq(|FlatMap(sizes)|, x requires 0 <= x < |FlatMap(sizes)| =>
      PairOfFlat(sizes, x); test[FlatMap(sizes)[x].param] == FlatMap(sizes)[x].value)
  }

  lemma EncodeAt(sizes: seq<int>, test: seq<int>, p: nat, v: nat)
    requires |test| == |sizes| && p < |sizes| && v < sizes[p]
    ensures FlatIndex(sizes, p, v) < |FlatMap(sizes)| && Encode(sizes, test)[FlatIndex(sizes, p, v)] == (test[p] == v)
  {
    FlatOfPair(sizes, p, v);
  }

  /** Tests and one-hot assignments correspond: a test gives a one-hot assignment, and ... */
  lemma EncodeIsOneHot(sizes: seq<int>, test: seq<int>)
    requires IsTest(sizes, test)
    ensures OneHot(sizes, Encode(sizes, test))
  {
    var xs := Encode(sizes, test);
    forall p | 0 <= p < |sizes| ensures HasOneHot(sizes, xs, p) {
      forall w | 0 <= w < sizes[p]
        ensures FlatIndex(sizes, p, w) < |xs| && (xs[FlatIndex(sizes, p, w)] <==> w == test[p])
      {
        EncodeAt(sizes, test, p, w);
      }
      assert IsHot(sizes, xs, p, test[p]);
    }
  }

  /** ... every one-hot assignment is that of a test. */
  lemma OneHotIsEncoded(sizes: seq<int>, xs: seq<bool>) returns (test: seq<int>)
    requires OneHot(sizes, xs)
    ensures IsTest(sizes, test) && Encode(sizes, test) == xs
  {
    test := [];
    while |test| < |sizes|
      invariant |test| <= |sizes|
      invariant forall p | 0 <= p < |test| :: 0 <= test[p] < sizes[p] && IsHot(sizes, xs, p, test[p])
    {
      var p := |test|;
      assert HasOneHot(sizes, xs, p);
      var v :| 0 <= v < sizes[p] && IsHot(sizes, xs, p, v);
      test := test + [v];
    }
    forall x | 0 <= x < |xs| ensures Encode(sizes, test)[x] == xs[x] {
      PairOfFlat(sizes, x);
      var m := FlatMap(sizes)[x];
      assert IsHot(sizes, xs, m.param, test[m.param]);
      EncodeAt(sizes, test, m.param, m.value);
    }
  }

  predicate ClauseTrue(lits: seq<CasaLiteral>, xs: seq<bool>)
    requires forall k | 0 <= k < |lits| :: 0 <= lits[k].variable < |xs|
  {
    exists k | 0 <= k < |lits| :: xs[lits[k].variable] != lits[k].negative
  }

  /** What a clause says about a test: a positive literal asks for the value it stands for, a negative one for another. */
  lemma TestDecides(lits: seq<CasaLiteral>, sizes: seq<int>, test: seq<int>)
    requires |test| == |sizes| && forall k | 0 <= k < |lits| :: 0 <= lits[k].variable < |FlatMap(sizes)|
    ensures (forall k | 0 <= k < |lits| :: FlatMap(sizes)[lits[k].variable].param < |sizes|)
    ensures ClauseTrue(lits, Encode(sizes, test)) <==>
            exists k | 0 <= k < |lits| ::
              var pair := FlatMap(sizes)[lits[k].variable];
              if lits[k].negative then test[pair.param] != pair.value else test[pair.param] == pair.value
  {
    hide FlatMap;
    forall k | 0 <= k < |lits| ensures FlatMap(sizes)[lits[k].variable].param < |sizes| { PairOfFlat(sizes, lits[k].variable); }
  }

  predicate AllClausesTrue(clauses: seq<seq<CasaLiteral>>, sizes: seq<int>, test: seq<int>)
    requires |test| == |sizes| && AllClausesInRange(clauses, FlatMap(sizes))
  {
    forall k | 0 <= k < |clauses| :: ClauseTrue(clauses[k], Encode(sizes, test))
  }

  // ---- Writing clauses --------------------------------------------------------------------------------

  function ParamName(p: nat): (name: string)
    ensures IsIdentifier(name)
  {
    "p" + NatToString(p)
  }

  /** The proposition that a literal is written as. */
  function Proposition(lit: CasaLiteral, varMap: seq<VarMap>): (c: Constraint)
    requires InRange(lit, varMap)
  {
    var m := varMap[lit.variable];
    IntProposition(ParamName(m.param), if lit.negative then NEQ else EQ, m.value)
  }

  function Propositions(lits: seq<CasaLiteral>, varMap: seq<VarMap>): (cs: seq<Constraint>)
    requires AllInRange(lits, varMap)
    ensures |cs| == |lits| && forall k | 0 <= k < |lits| :: cs[k] == Proposition(lits[k], varMap)
  {
    seq(|lits|, k requires 0 <= k < |lits| => Proposition(lits[k], varMap))
  }

  /** An index out of bounds is an error. */
  function FormatLiteral(lit: CasaLiteral, varMap: seq<VarMap>): Option<string> {
    if lit.variable < 0 || lit.variable >= |varMap| then None
    else
      var m := varMap[lit.variable];
      Some("(" + ("p" + NatToString(m.param)) + " " + (if lit.negative then "!=" else "=") + " " + IntToString(m.value) + ")")
  }

  lemma FormattedLiteral(lit: CasaLiteral, varMap: seq<VarMap>)
    requires InRange(lit, varMap)
    ensures FormatLiteral(lit, varMap) == Some(LiteralText(Proposition(lit, varMap)))
  {
    var m := varMap[lit.variable];
    var name, op, value := ParamName(m.param), if lit.negative then "!=" else "=", IntToString(m.value);
    assert PrintProposition(name, if lit.negative then NEQ else EQ, value) == name + " " + op + " " + value;
    ParenthesizedText(name, op, value);
  }

  lemma ParenthesizedText(name: string, op: string, value: string)
    ensures "(" + name + " " + op + " " + value + ")" == "(" + (name + " " + op + " " + value) + ")"
  {}

  method FormatClause(lits: seq<CasaLiteral>, varMap: seq<VarMap>) returns (r: Option<string>)
    ensures r == if AllInRange(lits, varMap) then Some(ClauseText(Propositions(lits, varMap))) else None
  {
    hide FormatLiteral, LiteralText, ClauseText, Proposition;
    var result := "";
    assert result == ClauseText([]) by { EmptyClauseText(); }
    for i := 0 to |lits|
      invariant AllInRange(lits[..i], varMap) && result == ClauseText(Propositions(lits[..i], varMap))
    {
      if i > 0 { result := result + " || "; }
      if !InRange(lits[i], varMap) {
        OutOfRange(lits[i], varMap);
        assert !AllInRange(lits, varMap);
        return None;
      }
      FormattedLiteral(lits[i], varMap);
      result := result + FormatLiteral(lits[i], varMap).value;
      ClauseTextAppend(Propositions(lits[..i], varMap), Proposition(lits[i], varMap));
      assert lits[..i + 1] == lits[..i] + [lits[i]];
      assert Propositions(lits[..i + 1], varMap) == Propositions(lits[..i], varMap) + [Proposition(lits[i], varMap)];
    }
    assert lits[..|lits|] == lits;
    return Some(result);
  }

  lemma OutOfRange(lit: CasaLiteral, varMap: seq<VarMap>)
    requires !InRange(lit, varMap)
    ensures FormatLiteral(lit, varMap) == None
  {}

  // ---- What the written model means --------------------------------------------------------------------

  function ValuesUpTo(size: int): (vs: seq<Value>)
    ensures |vs| == if size > 0 then size else 0
    ensures forall v | 0 <= v < |vs| :: vs[v] == IntValue(v)
  {
    seq(if size > 0 then size else 0, v requires v >= 0 => IntValue(v))
  }

  function Parameters(sizes: seq<int>): (ps: seq<Parameter>)
    ensures |ps| == |sizes|
    ensures forall p | 0 <= p < |ps| :: ps[p] == Parameter(ParamName(p), INTEGER, ValuesUpTo(sizes[p]))
  {
    seq(|sizes|, p requires 0 <= p < |sizes| => Parameter(ParamName(p), INTEGER, ValuesUpTo(sizes[p])))
  }

  lemma ParamNamesDiffer(p: nat, q: nat)
    requires ParamName(p) == ParamName(q)
    ensures p == q
  {
    assert ParamName(p)[1..] == NatToString(p) && ParamName(q)[1..] == NatToString(q);
    NatToStringInjective(p, q);
  }

  lemma ParameterIndex(sizes: seq<int>, p: nat)
    requires p < |sizes|
    ensures E.IndexOf(Parameters(sizes), ParamName(p)) == p
  {
    var ps := Parameters(sizes);
    var i := E.IndexOf(ps, ParamName(p));
    assert ps[p].name == ParamName(p);
    if i < |ps| { ParamNamesDiffer(i, p); }
  }

  /** A literal holds for a test exactly when it is true for the test's one-hot assignment. */
  lemma LiteralMeaning(sizes: seq<int>, lit: CasaLiteral, test: seq<int>)
    requires IsTest(sizes, test) && InRange(lit, FlatMap(sizes))
    ensures var c := Proposition(lit, FlatMap(sizes));
            && E.Typed(c, Parameters(sizes))
            && (E.Holds(c, Parameters(sizes), test) <==> Encode(sizes, test)[lit.variable] != lit.negative)
  {
    hide FlatMap;
    PairOfFlat(sizes, lit.variable);
    var m := FlatMap(sizes)[lit.variable];
    ParameterIndex(sizes, m.param);
    hide ParamName;
    assert Parameters(sizes)[m.param].values == ValuesUpTo(sizes[m.param]);
  }

  /** The translation preserves meaning: the constraint that is read from a written clause holds for a test exactly
      when the clause is true for the test's one-hot assignment. */
  lemma ClauseMeaning(sizes: seq<int>, lits: seq<CasaLiteral>, test: seq<int>)
    requires IsTest(sizes, test) && lits != [] && AllInRange(lits, FlatMap(sizes))
    ensures var c := Disjunction(Propositions(lits, FlatMap(sizes)));
            && E.Typed(c, Parameters(sizes))
            && (E.Holds(c, Parameters(sizes), test) <==> ClauseTrue(lits, Encode(sizes, test)))
  {
    hide FlatMap, Proposition, Encode, Parameters;
    var cs, ps, xs := Propositions(lits, FlatMap(sizes)), Parameters(sizes), Encode(sizes, test);
    forall k | 0 <= k < |lits|
      ensures E.Typed(cs[k], ps) && (E.Holds(cs[k], ps, test) <==> xs[lits[k].variable] != lits[k].negative)
    {
      LiteralMeaning(sizes, lits[k], test);
    }
    if |lits| > 1 { DisjunctionMeaning(cs, ps, test); }
  }

  // ---- The whole file ---------------------------------------------------------------------------------------

  function Names(n: nat): (names: seq<string>)
    ensures |names| == n && forall p | 0 <= p < n :: names[p] == ParamName(p)
  {
    seq(n, p requires p >= 0 => ParamName(p))
  }

  predicate AllClausesInRange(clauses: seq<seq<CasaLiteral>>, varMap: seq<VarMap>) {
    forall k | 0 <= k < |clauses| :: AllInRange(clauses[k], varMap)
  }

  lemma {:induction false} KeptInRange(clauses: seq<seq<CasaLiteral>>, varMap: seq<VarMap>)
    ensures AllClausesInRange(clauses, varMap) <==> AllClausesInRange(Kept(clauses), varMap)
  {
    if clauses != [] {
      var n := |clauses| - 1;
      var before, last, kept := clauses[..n], clauses[n], Kept(clauses);
      KeptInRange(before, varMap);
      assert kept == Kept(before) + if last == [] then [] else [last];
      if AllClausesInRange(kept, varMap) {
        forall k | 0 <= k < |Kept(before)| ensures AllInRange(Kept(before)[k], varMap) {
          assert kept[k] == Kept(before)[k];
        }
        forall k | 0 <= k < |clauses| ensures AllInRange(clauses[k], varMap) {
          if k < n { assert clauses[k] == before[k]; } else if last != [] { assert kept[|kept| - 1] == last; }
        }
      }
      if AllClausesInRange(clauses, varMap) {
        forall k | 0 <= k < |before| ensures AllInRange(before[k], varMap) {
          assert before[k] == clauses[k];
        }
      }
    }
  }

  function ClauseTexts(clauses: seq<seq<CasaLiteral>>, varMap: seq<VarMap>): (texts: seq<string>)
    requires AllClausesInRange(clauses, varMap)
    ensures |texts| == |clauses|
    ensures forall k | 0 <= k < |clauses| :: texts[k] == ClauseText(Propositions(clauses[k], varMap))
  {
    seq(|clauses|, k requires 0 <= k < |clauses| => ClauseText(Propositions(clauses[k], varMap)))
  }

  function ClauseConstraints(clauses: seq<seq<CasaLiteral>>, varMap: seq<VarMap>): (cs: seq<Constraint>)
    requires AllClausesInRange(clauses, varMap) && forall k | 0 <= k < |clauses| :: clauses[k] != []
    ensures |cs| == |clauses|
    ensures forall k | 0 <= k < |clauses| :: cs[k] == Disjunction(Propositions(clauses[k], varMap))
  {
    seq(|clauses|, k requires 0 <= k < |clauses| => Disjunction(Propositions(clauses[k], varMap)))
  }

  /** The text of the output file. */
  function ActsText(name: string, sizes: seq<int>, strength: int, clauses: seq<seq<CasaLiteral>>): string
    requires AllClausesInRange(Kept(clauses), FlatMap(sizes))
  {
    PrintSystemSection(name)
    + PrintSection("Parameter", PrintParameters(Parameters(sizes)), "\n")
    + M.RelationPart([RelationLine(Names(|sizes|), strength)])
    + M.ConstraintPart(true, ClauseTexts(Kept(clauses), FlatMap(sizes)), "")
  }

  /** The model that the file is meant to describe. */
  function ActsModel(name: string, sizes: seq<int>, strength: nat, clauses: seq<seq<CasaLiteral>>): Model
    requires AllClausesInRange(Kept(clauses), FlatMap(sizes))
  {
    Model(name, Parameters(sizes), [Relation("R1", Names(|sizes|), strength)],
          ClauseConstraints(Kept(clauses), FlatMap(sizes)))
  }

  predicate ValidSizes(sizes: seq<int>) { sizes != [] && forall p | 0 <= p < |sizes| :: 1 <= sizes[p] <= INT_MAX }

  lemma ParameterIsWellFormed(sizes: seq<int>, p: nat)
    requires ValidSizes(sizes) && p < |sizes|
    ensures WellFormedParameter(Parameters(sizes)[p])
  {
    hide ParamName, IsIdentifier;
    var q := Parameters(sizes)[p];
    assert IsIdentifier(q.name);
    forall v | 0 <= v < |q.values| ensures WellFormedValue(INTEGER, q.values[v]) {
      assert q.values[v] == IntValue(v);
    }
  }

  lemma NamesDeclared(sizes: seq<int>, p: nat)
    requires p < |sizes|
    ensures ParamName(p) in Declared(Parameters(sizes))
  {
    hide ParamName;
    assert Parameters(sizes)[p] in Parameters(sizes);
  }

  lemma RelationIsDeclared(sizes: seq<int>)
    requires sizes != []
    ensures Names(|sizes|) != [] && M.AllDeclared(Names(|sizes|), Declared(Parameters(sizes)))
  {
    var names, ds := Names(|sizes|), Declared(Parameters(sizes));
    hide ParamName, IsIdentifier, Parameters, Declared;
    forall k | 0 <= k < |names| ensures names[k] in ds && IsIdentifier(names[k]) {
      NamesDeclared(sizes, k);
    }
  }

  lemma PropositionsAreWellFormed(sizes: seq<int>, lits: seq<CasaLiteral>)
    requires ValidSizes(sizes) && AllInRange(lits, FlatMap(sizes))
    ensures AllWellFormed(Propositions(lits, FlatMap(sizes)), Declared(Parameters(sizes)))
  {
    hide FlatMap, ParamName, Parameters, Declared, IsIdentifier;
    var cs, ds := Propositions(lits, FlatMap(sizes)), Declared(Parameters(sizes));
    forall k | 0 <= k < |cs| ensures WellFormedConstraint(cs[k], ds) {
      PairOfFlat(sizes, lits[k].variable);
      var m := FlatMap(sizes)[lits[k].variable];
      NamesDeclared(sizes, m.param);
      assert IsIdentifier(ParamName(m.param));
      assert 1 <= sizes[m.param] <= INT_MAX;
    }
  }

  lemma ClausesRead(sizes: seq<int>, clauses: seq<seq<CasaLiteral>>)
    requires ValidSizes(sizes) && AllClausesInRange(clauses, FlatMap(sizes)) && forall k | 0 <= k < |clauses| :: clauses[k] != []
    ensures M.AllReadAs(ClauseTexts(clauses, FlatMap(sizes)), ClauseConstraints(clauses, FlatMap(sizes)),
                        Declared(Parameters(sizes)))
  {
    hide FlatMap, Parameters, Declared, M.ReadsAs, AllInRange, Propositions, ClauseText, Disjunction, AllWellFormed;
    var texts, cs, ds := ClauseTexts(clauses, FlatMap(sizes)), ClauseConstraints(clauses, FlatMap(sizes)), Declared(Parameters(sizes));
    forall k | 0 <= k < |cs| ensures M.ReadsAs(texts[k], cs[k], ds) {
      PropositionsAreWellFormed(sizes, clauses[k]);
      ClauseReads(Propositions(clauses[k], FlatMap(sizes)), ds);
    }
    M.EachReadAs(texts, cs, ds);
  }

  /** The output file parses into the model it is meant to describe. */
  lemma FileParses(name: string, sizes: seq<int>, strength: nat, clauses: seq<seq<CasaLiteral>>)
    requires WellFormedName(name) && ValidSizes(sizes) && strength <= INT_MAX
    requires AllClausesInRange(Kept(clauses), FlatMap(sizes))
    ensures var t := ActsText(name, sizes, strength, clauses);
            R.Parse(t) == R.Match(|t|, ActsModel(name, sizes, strength, clauses))
  {
    hide WellFormedName, FlatMap, Kept, ParamName, Parameters, Names, AllClausesInRange, ClauseTexts, ClauseConstraints,
         M.AllReadAs, M.AllRelationTexts, R.ParseInto, WellFormedParameter, Declared, RelationLine,
         PrintSystemSection, PrintSection, PrintParameters, M.RelationPart, M.ConstraintPart;
    var ps, kept := Parameters(sizes), Kept(clauses);
    var r := Relation("R1", Names(|sizes|), strength);
    forall k | 0 <= k < |ps| ensures WellFormedParameter(ps[k]) { ParameterIsWellFormed(sizes, k); }
    RelationIsDeclared(sizes);
    RelationReads(Names(|sizes|), strength, Declared(ps));
    ClausesRead(sizes, kept);
    assert [] + ps == ps && [] + [r] == [r] && [] + ClauseConstraints(kept, FlatMap(sizes)) == ClauseConstraints(kept, FlatMap(sizes));
    M.DocumentParses(ActsText(name, sizes, strength, clauses), EmptyModel(), name, ps, [RelationLine(Names(|sizes|), strength)], [r],
                     " : (", true, ClauseTexts(kept, FlatMap(sizes)), ClauseConstraints(kept, FlatMap(sizes)), "");
  }

  /** A test fulfills the model read from the output file exactly when its one-hot assignment makes every non-empty
      clause true. */
  lemma FileMeaning(name: string, sizes: seq<int>, strength: nat, clauses: seq<seq<CasaLiteral>>, test: seq<int>)
    requires WellFormedName(name) && ValidSizes(sizes) && strength <= INT_MAX && IsTest(sizes, test)
    requires AllClausesInRange(Kept(clauses), FlatMap(sizes))
    ensures var o := R.Parse(ActsText(name, sizes, strength, clauses));
            && o.Match? && |o.value.parameters| == |test|
            && E.AllTyped(o.value.constraints, o.value.parameters)
            && (E.Fulfilled(o.value.constraints, o.value.parameters, test) <==> AllClausesTrue(Kept(clauses), sizes, test))
  {
    hide R.Parse, ActsText, WellFormedName, FlatMap, Kept, Parameters, Names, Disjunction, Propositions, Encode;
    FileParses(name, sizes, strength, clauses);
    var kept := Kept(clauses);
    forall k | 0 <= k < |kept|
      ensures var c := ClauseConstraints(kept, FlatMap(sizes))[k];
              && E.Typed(c, Parameters(sizes))
              && (E.Holds(c, Parameters(sizes), test) <==> ClauseTrue(kept[k], Encode(sizes, test)))
    {
      ClauseMeaning(sizes, kept[k], test);
    }
  }

  // ---- Writing the file, piece by piece --------------------------------------------------------------------

  method WriteParameterLines(os: P.Stream, sizes: seq<int>)
    modifies os
    ensures os.text == old(os.text) + Lines(PrintParameters(Parameters(sizes)))
  {
    hide PrintParameter, ParamName;
    ghost var texts := PrintParameters(Parameters(sizes));
    for p := 0 to |sizes|
      invariant os.text == old(os.text) + Lines(texts[..p])
    {
      P.TakeLine(texts, p);
      WriteParameterLine(os, p, sizes[p]);
      os.Write("\n");
    }
    assert texts[..|sizes|] == texts;
  }

  method WriteParameterLine(os: P.Stream, p: nat, size: int)
    modifies os
    ensures os.text == old(os.text) + PrintParameter(Parameter(ParamName(p), INTEGER, ValuesUpTo(size)))
  {
    hide PrintValues, NatToString, ParamName, PrintParameter, ValuesUpTo;
    os.Write("p");
    os.Write(NatToString(p));
    os.Write(" (int) : ");
    WriteValues(os, size);
    ParameterLineText(p, size);
  }

  method WriteValues(os: P.Stream, size: int)
    modifies os
    ensures os.text == old(os.text) + PrintValues(ValuesUpTo(size))
  {
    hide PrintValue, IntToString, PrintValues;
    NoValues();
    ghost var vs := ValuesUpTo(size);
    var v := 0;
    while v < size
      invariant 0 <= v && (v > 0 ==> v <= size)
      invariant os.text == old(os.text) + PrintValues(vs[..v])
    {
      if v > 0 { os.Write(", "); }
      os.Write(IntToString(v));
      P.LastValue(vs[..v], vs[v]);
      IntText(v);
      assert vs[..v + 1] == vs[..v] + [vs[v]];
      v := v + 1;
    }
    assert vs[..v] == vs;
  }

  lemma NoValues()
    ensures PrintValues([]) == ""
  {}

  lemma IntText(n: int)
    ensures PrintValue(IntValue(n)) == IntToString(n)
  {}

  lemma ParameterLineText(p: nat, size: int)
    ensures PrintParameter(Parameter(ParamName(p), INTEGER, ValuesUpTo(size))) ==
            "p" + NatToString(p) + " (int) : " + PrintValues(ValuesUpTo(size))
  {
    hide PrintValues, NatToString, ValuesUpTo;
    assert " " + PrintType(INTEGER) == " (int) : ";
    assert ParamName(p) + " " + PrintType(INTEGER) == "p" + NatToString(p) + (" " + PrintType(INTEGER));
  }

  method WriteRelationLine(os: P.Stream, n: nat, strength: int)
    requires n > 0
    modifies os
    ensures os.text == old(os.text) + RelationLine(Names(n), strength)
  {
    hide CommaSeparated, RelationLine, IntToString;
    os.Write("R1 : (");
    WriteNames(os, n);
    os.Write(", ");
    os.Write(IntToString(strength));
    os.Write(")");
    RelationLineText(Names(n), strength);
  }

  method WriteNames(os: P.Stream, n: nat)
    modifies os
    ensures os.text == old(os.text) + CommaSeparated(Names(n))
  {
    hide ParamName;
    ghost var names := Names(n);
    for p := 0 to n
      invariant os.text == old(os.text) + CommaSeparated(names[..p])
    {
      if p > 0 { os.Write(", "); }
      os.Write(ParamName(p));
      assert names[..p + 1][..p] == names[..p];
    }
    assert names[..n] == names;
  }

  method WriteClauses(os: P.Stream, clauses: seq<seq<CasaLiteral>>, varMap: seq<VarMap>) returns (ok: bool)
    modifies os
    ensures ok == AllClausesInRange(Kept(clauses), varMap)
    ensures ok ==> os.text == old(os.text) + Lines(ClauseTexts(Kept(clauses), varMap))
  {
    hide AllInRange, ClauseText, Propositions, Lines, Kept, ClauseTexts, AllClausesInRange;
    NothingKept(varMap);
    assert clauses[..0] == [];
    for i := 0 to |clauses|
      invariant AllClausesInRange(Kept(clauses[..i]), varMap)
      invariant os.text == old(os.text) + Lines(ClauseTexts(Kept(clauses[..i]), varMap))
    {
      KeepNext(clauses, i);
      if clauses[i] == [] { continue; }
      var text := FormatClause(clauses[i], varMap);
      if text.None? {
        ClauseOutOfRange(clauses, i, varMap);
        return false;
      }
      AppendClause(Kept(clauses[..i]), clauses[i], varMap);
      os.Write(text.value);
      os.Write("\n");
    }
    assert clauses[..|clauses|] == clauses;
    return true;
  }

  lemma NothingKept(varMap: seq<VarMap>)
    ensures Kept<CasaLiteral>([]) == [] && AllClausesInRange([], varMap) && Lines(ClauseTexts([], varMap)) == ""
  {}

  lemma ClauseOutOfRange(clauses: seq<seq<CasaLiteral>>, i: nat, varMap: seq<VarMap>)
    requires i < |clauses| && !AllInRange(clauses[i], varMap)
    ensures !AllClausesInRange(Kept(clauses), varMap)
  {
    KeptInRange(clauses, varMap);
    hide AllInRange, Kept;
  }

  lemma AppendClause(kept: seq<seq<CasaLiteral>>, lits: seq<CasaLiteral>, varMap: seq<VarMap>)
    requires AllClausesInRange(kept, varMap) && AllInRange(lits, varMap)
    ensures AllClausesInRange(kept + [lits], varMap)
    ensures Lines(ClauseTexts(kept + [lits], varMap)) ==
            Lines(ClauseTexts(kept, varMap)) + ClauseText(Propositions(lits, varMap)) + "\n"
  {
    hide AllInRange, ClauseText, Propositions;
    assert ClauseTexts(kept + [lits], varMap) == ClauseTexts(kept, varMap) + [ClauseText(Propositions(lits, varMap))];
    P.LastLine(ClauseTexts(kept, varMap), ClauseText(Propositions(lits, varMap)));
  }

  /** The output part of the conversion; a literal out of bounds ends it with an error. */
  method WriteActs(os: P.Stream, name: string, sizes: seq<int>, strength: int, clauses: seq<seq<CasaLiteral>>)
    returns (ok: bool)
    requires sizes != []
    modifies os
    ensures ok == AllClausesInRange(clauses, FlatMap(sizes))
    ensures ok ==> AllClausesInRange(Kept(clauses), FlatMap(sizes)) &&
                   os.text == old(os.text) + ActsText(name, sizes, strength, clauses)
  {
    hide FlatMap, AllClausesInRange, Parameters, RelationLine, ClauseTexts, Lines, Kept, PrintSystemSection;
    hide PrintSection, PrintParameters, M.RelationPart, M.ConstraintPart;
    var varMap := BuildVarMap(sizes);
    KeptInRange(clauses, varMap);
    P.WriteHeader(os, name);
    WriteParameterSection(os, sizes);
    WriteRelationSection(os, |sizes|, strength);
    ok := WriteConstraintSection(os, clauses, varMap);
  }

  method WriteParameterSection(os: P.Stream, sizes: seq<int>)
    modifies os
    ensures os.text == old(os.text) + PrintSection("Parameter", PrintParameters(Parameters(sizes)), "\n")
  {
    hide Lines, PrintParameters, Parameters;
    os.Write("[Parameter]\n");
    WriteParameterLines(os, sizes);
    os.Write("\n");
    assert "[" + "Parameter" + "]\n" == "[Parameter]\n";
  }

  method WriteRelationSection(os: P.Stream, n: nat, strength: int)
    requires n > 0
    modifies os
    ensures os.text == old(os.text) + M.RelationPart([RelationLine(Names(n), strength)])
  {
    hide RelationLine;
    os.Write("[Relation]\n");
    WriteRelationLine(os, n, strength);
    os.Write("\n\n");
    OneLine(RelationLine(Names(n), strength));
  }

  method WriteConstraintSection(os: P.Stream, clauses: seq<seq<CasaLiteral>>, varMap: seq<VarMap>) returns (ok: bool)
    modifies os
    ensures ok == AllClausesInRange(Kept(clauses), varMap)
    ensures ok ==> os.text == old(os.text) + M.ConstraintPart(true, ClauseTexts(Kept(clauses), varMap), "")
  {
    hide AllClausesInRange, Kept, Lines, ClauseTexts;
    os.Write("[Constraint]\n");
    ok := WriteClauses(os, clauses, varMap);
    assert "[" + "Constraint" + "]\n" == "[Constraint]\n";
  }
}
