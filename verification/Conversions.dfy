/** The converters and the parser together, from the lines that a converter reads to the meaning of the model that is
    parsed from what it writes. */
module Conversions {
  import opened Text
  import opened Acts
  import R = Rules
  import opened Clauses
  import C = Casa
  import CasaReader
  import D = Dimacs
  import E = Evaluator
  import Parser
  import P = Printer

  // ---- DIMACS ------------------------------------------------------------------------------------

  /** A model with a parameter for each variable that is fulfilled by exactly the assignments that satisfy every non-empty
      clause of the lines. */
  ghost predicate MeansDimacs(m: Model, lines: seq<D.Line>) {
    var kept := Kept(D.ClausesOf(D.Stream(lines)));
    && |m.parameters| == D.VariableCount(lines) && D.AllClausesWithin(kept, |m.parameters|)
    && E.AllTyped(m.constraints, m.parameters)
    && forall xs | D.IsAssignment(|m.parameters|, xs) && |xs| == |m.parameters| ::
         E.Fulfilled(m.constraints, m.parameters, xs) <==> D.AllClausesTrue(kept, xs)
  }

  /** A model with a parameter of the values 0 and 1 for each variable under its chosen name, and with a relation of the
      variables that it covers when a strength is given. */
  ghost predicate IsWrittenFor(m: Model, names: seq<string>, name: string, lines: seq<D.Line>, strength: int, keepAux: bool) {
    var n, vars := |m.parameters|, D.RelationVars(|m.parameters|, D.Comments(lines), keepAux);
    && m.name == name && |names| == n + 1 && D.AreChosenNames(names, D.Comments(lines), n)
    && (forall i | 0 <= i < n :: m.parameters[i] == Parameter(names[i + 1], INTEGER, [IntValue(0), IntValue(1)]))
    && (strength <= 0 ==> m.relations == [])
    && (strength > 0 ==> vars != [])
    && (strength > 0 ==> m.relations == [Relation("R1", D.VarNames(vars, names), if strength > |vars| then |vars| else strength)])
  }

  lemma WrittenFor(name: string, lines: seq<D.Line>, strength: int, keepAux: bool, c: D.Conversion)
    requires WellFormedName(name) && strength <= INT_MAX && c.numVars > 0
    requires D.AreNames(c.names, c.numVars) && |c.names| == c.numVars + 1
    requires D.AllClausesWithin(Kept(c.clauses), c.numVars) && D.AreChosenNames(c.names, D.Comments(lines), c.numVars)
    requires D.IsRelationOf(c, D.RelationVars(c.numVars, D.Comments(lines), keepAux), strength)
    ensures var o := R.Parse(D.ActsText(name, c.names, c.covered, c.strength, c.clauses));
            o.Match? && IsWrittenFor(o.value, c.names, name, lines, strength, keepAux)
  {
    D.CoveredAreNames(c, D.RelationVars(c.numVars, D.Comments(lines), keepAux), strength);
    assert c.strength <= INT_MAX && |D.Parameters(c.names)| == c.numVars;
    ModelIsWrittenFor(name, lines, strength, keepAux, c);
    hide *;
    D.FileParses(name, c.names, c.numVars, c.covered, c.strength, c.clauses);
  }

  lemma ModelIsWrittenFor(name: string, lines: seq<D.Line>, strength: int, keepAux: bool, c: D.Conversion)
    requires c.numVars > 0 && |c.names| == c.numVars + 1 && D.AreChosenNames(c.names, D.Comments(lines), c.numVars)
    requires D.IsRelationOf(c, D.RelationVars(c.numVars, D.Comments(lines), keepAux), strength)
    ensures forall cs ::
              IsWrittenFor(Model(name, D.Parameters(c.names), D.TheRelations(c.covered, c.strength), cs), c.names, name, lines,
                           strength, keepAux)
  {
    hide D.AreChosenNames, D.RelationVars, D.Comments;
  }

  /** The parsed model has as many parameters as the problem line says when no number in the clauses is greater. */
  lemma CountsVariables(m: Model, lines: seq<D.Line>)
    requires MeansDimacs(m, lines)
    ensures forall k | D.IsLastProblem(lines, k) && D.NumbersWithin(lines, lines[k].vars) :: |m.parameters| == lines[k].vars
  {
    assert |m.parameters| == D.VariableCount(lines);
    hide *;
    forall k | D.IsLastProblem(lines, k) && D.NumbersWithin(lines, lines[k].vars) ensures |m.parameters| == lines[k].vars {
      D.CountOfHeader(lines, k);
    }
  }

  lemma ConversionMeans(name: string, lines: seq<D.Line>, strength: int, keepAux: bool, c: D.Conversion)
    requires WellFormedName(name) && strength <= INT_MAX && c.numVars == D.VariableCount(lines) > 0
    requires D.AreNames(c.names, c.numVars) && |c.names| == c.numVars + 1
    requires c.clauses == D.ClausesOf(D.Stream(lines)) && D.AllClausesWithin(Kept(c.clauses), c.numVars)
    requires D.IsRelationOf(c, D.RelationVars(c.numVars, D.Comments(lines), keepAux), strength)
    ensures var o := R.Parse(D.ActsText(name, c.names, c.covered, c.strength, c.clauses));
            o.Match? && MeansDimacs(o.value, lines)
  {
    assert c.strength <= INT_MAX;
    hide *;
    SomeAssignment(c.numVars);
    D.ConversionMeaning(name, lines, strength, keepAux, c, seq(c.numVars, _ => 0));
    var m := R.Parse(D.ActsText(name, c.names, c.covered, c.strength, c.clauses)).value;
    forall xs | D.IsAssignment(|m.parameters|, xs) && |xs| == |m.parameters|
      ensures E.Fulfilled(m.constraints, m.parameters, xs) <==> D.AllClausesTrue(Kept(D.ClausesOf(D.Stream(lines))), xs)
    {
      D.ConversionMeaning(name, lines, strength, keepAux, c, xs);
    }
    Means(m, lines);
  }

  lemma SomeAssignment(n: nat)
    ensures D.IsAssignment(n, seq(n, _ => 0))
  {}

  lemma Means(m: Model, lines: seq<D.Line>)
    requires |m.parameters| == D.VariableCount(lines) && E.AllTyped(m.constraints, m.parameters)
    requires D.AllClausesWithin(Kept(D.ClausesOf(D.Stream(lines))), |m.parameters|)
    requires forall xs | D.IsAssignment(|m.parameters|, xs) && |xs| == |m.parameters| ::
               E.Fulfilled(m.constraints, m.parameters, xs) <==>
               D.AllClausesTrue(Kept(D.ClausesOf(D.Stream(lines))), xs)
    ensures MeansDimacs(m, lines)
  {
    hide D.IsAssignment, E.Fulfilled, D.AllClausesTrue, D.AllClausesWithin, Kept, D.ClausesOf, D.Stream, E.AllTyped;
  }

  /** Converts the lines of a DIMACS file and parses what has been written. */
  method ConvertDimacs(name: string, lines: seq<D.Line>, strength: int, keepAux: bool)
    returns (converted: bool, m: Parser.ModelObject, parsed: bool)
    requires WellFormedName(name) && strength <= INT_MAX
    ensures converted == !D.CannotConvert(lines, strength, keepAux)
    ensures converted ==> parsed && MeansDimacs(m.Contents(), lines)
    ensures converted ==> exists names :: IsWrittenFor(m.Contents(), names, name, lines, strength, keepAux)
    ensures converted ==> forall k | D.IsLastProblem(lines, k) && D.NumbersWithin(lines, lines[k].vars) ::
              |m.Contents().parameters| == lines[k].vars
  {
    hide *;
    m := new Parser.ModelObject();
    parsed := false;
    var os := new P.Stream();
    var r := D.Convert(os, name, lines, strength, keepAux);
    converted := r.Some?;
    if r.Some? {
      ghost var c := r.value;
      ConversionIs(c, lines, strength, keepAux);
      D.NamesLength(c.names, c.numVars);
      ConversionMeans(name, lines, strength, keepAux, c);
      WrittenFor(name, lines, strength, keepAux, c);
      CountsVariables(R.Parse(D.ActsText(name, c.names, c.covered, c.strength, c.clauses)).value, lines);
      Printed(D.ActsText(name, c.names, c.covered, c.strength, c.clauses));
      var parser := new Parser.ActsParser();
      parsed := parser.ParseInputModel(os.text, m);
    }
  }

  lemma ConversionIs(c: D.Conversion, lines: seq<D.Line>, strength: int, keepAux: bool)
    requires D.IsConversionOf(c, lines, strength, keepAux)
    ensures c.clauses == D.ClausesOf(D.Stream(lines)) && D.AllClausesWithin(c.clauses, c.numVars)
    ensures c.numVars == D.VariableCount(lines) > 0 && D.AreNames(c.names, c.numVars)
    ensures D.AreChosenNames(c.names, D.Comments(lines), c.numVars)
    ensures D.IsRelationOf(c, D.RelationVars(c.numVars, D.Comments(lines), keepAux), strength)
  {
    hide D.ClausesOf, D.Stream, D.AllClausesWithin, D.VariableCount, D.AreNames, D.AreChosenNames, D.Comments, D.IsRelationOf,
         D.RelationVars;
  }

  /** A stream starts empty, and parsing starts with an empty model. */
  lemma Printed(t: string)
    ensures "" + t == t && R.Parse(t) == R.ParseInto(t, EmptyModel())
  {
    hide R.ParseInto;
  }

  // ---- CASA --------------------------------------------------------------------------------------------

  /** A model with a parameter for each size that is fulfilled by exactly the tests whose one-hot assignments make every
      non-empty clause true. */
  ghost predicate MeansCasa(m: Model, sizes: seq<int>, clauses: seq<seq<C.CasaLiteral>>) {
    && |m.parameters| == |sizes| && C.AllClausesInRange(Kept(clauses), C.FlatMap(sizes))
    && E.AllTyped(m.constraints, m.parameters)
    && forall test | C.IsTest(sizes, test) && |test| == |sizes| ::
         E.Fulfilled(m.constraints, m.parameters, test) <==> C.AllClausesTrue(Kept(clauses), sizes, test)
  }

  lemma CasaMeans(name: string, sizes: seq<int>, strength: nat, clauses: seq<seq<C.CasaLiteral>>)
    requires WellFormedName(name) && C.ValidSizes(sizes) && strength <= INT_MAX
    requires C.AllClausesInRange(Kept(clauses), C.FlatMap(sizes))
    ensures var o := R.Parse(C.ActsText(name, sizes, strength, clauses));
            o.Match? && o.value == C.ActsModel(name, sizes, strength, clauses) && MeansCasa(o.value, sizes, clauses)
  {
    SomeTest(sizes);
    hide *;
    C.FileParses(name, sizes, strength, clauses);
    C.FileMeaning(name, sizes, strength, clauses, seq(|sizes|, _ => 0));
    var m := R.Parse(C.ActsText(name, sizes, strength, clauses)).value;
    forall test | C.IsTest(sizes, test) && |test| == |sizes|
      ensures E.Fulfilled(m.constraints, m.parameters, test) <==> C.AllClausesTrue(Kept(clauses), sizes, test)
    {
      C.FileMeaning(name, sizes, strength, clauses, test);
    }
    MeansToo(m, sizes, clauses);
  }

  lemma SomeTest(sizes: seq<int>)
    requires C.ValidSizes(sizes)
    ensures C.IsTest(sizes, seq(|sizes|, _ => 0))
  {}

  lemma MeansToo(m: Model, sizes: seq<int>, clauses: seq<seq<C.CasaLiteral>>)
    requires |m.parameters| == |sizes| && C.AllClausesInRange(Kept(clauses), C.FlatMap(sizes))
    requires E.AllTyped(m.constraints, m.parameters)
    requires forall test | C.IsTest(sizes, test) && |test| == |sizes| ::
               E.Fulfilled(m.constraints, m.parameters, test) <==> C.AllClausesTrue(Kept(clauses), sizes, test)
    ensures MeansCasa(m, sizes, clauses)
  {
    hide C.IsTest, E.Fulfilled, C.AllClausesTrue, C.AllClausesInRange, C.FlatMap, Kept, E.AllTyped;
  }

  lemma NotEmpty(sizes: seq<int>)
    requires C.ValidSizes(sizes)
    ensures sizes != []
  {}

  /** Writes a CASA model with its constraints and parses what has been written. */
  method WriteAndParse(name: string, sizes: seq<int>, strength: nat, clauses: seq<seq<C.CasaLiteral>>)
    returns (written: bool, m: Parser.ModelObject, parsed: bool)
    requires WellFormedName(name) && C.ValidSizes(sizes) && strength <= INT_MAX
    ensures written <==> C.AllClausesInRange(clauses, C.FlatMap(sizes))
    ensures written ==> parsed && MeansCasa(m.Contents(), sizes, clauses)
    ensures written ==> m.Contents() == C.ActsModel(name, sizes, strength, clauses)
  {
    hide *;
    NotEmpty(sizes);
    m := new Parser.ModelObject();
    parsed := false;
    var os := new P.Stream();
    written := C.WriteActs(os, name, sizes, strength, clauses);
    if written {
      CasaMeans(name, sizes, strength, clauses);
      Printed(C.ActsText(name, sizes, strength, clauses));
      var parser := new Parser.ActsParser();
      parsed := parser.ParseInputModel(os.text, m);
    }
  }

  /** Reads the constraints of a CASA model with these sizes, converts both and parses what has been written. */
  method ConvertCasa(name: string, sizes: seq<int>, strength: nat, lines: seq<string>)
    returns (converted: bool, m: Parser.ModelObject, parsed: bool)
    requires WellFormedName(name) && C.ValidSizes(sizes) && strength <= INT_MAX
    ensures converted <==> CasaReader.ReadConstraints(lines).Some? &&
                           C.AllClausesInRange(CasaReader.ReadConstraints(lines).value, C.FlatMap(sizes))
    ensures converted ==> parsed && MeansCasa(m.Contents(), sizes, CasaReader.ReadConstraints(lines).value)
    ensures converted ==> m.Contents() == C.ActsModel(name, sizes, strength, CasaReader.ReadConstraints(lines).value)
  {
    hide *;
    var clauses := CasaReader.ReadCasaConstraints(lines);
    match clauses {
      case None =>
        m := new Parser.ModelObject();
        converted, parsed := false, false;
      case Some(cs) => converted, m, parsed := WriteAndParse(name, sizes, strength, cs);
    }
  }
}
