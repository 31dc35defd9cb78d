/** Models of the ACTS format: parameters, relations, constraints and how they are printed. */
module Acts {
  import opened Text

  datatype Value = BoolValue(b: bool) | EnumValue(text: string) | IntValue(n: int)

  datatype ParameterType = BOOLEAN | ENUM | INTEGER

  datatype Parameter = Parameter(name: string, ptype: ParameterType, values: seq<Value>)

  datatype Relation = Relation(name: string, parameters: seq<string>, strength: nat)

  datatype RelationalOperator = EQ | NEQ | GE | LE | GT | LT

  datatype NaryOperator = AND | OR

  datatype Constraint =
    | Literal(value: bool)
    | BoolProposition(parameter: string, op: RelationalOperator, flag: bool)
    | EnumProposition(parameter: string, op: RelationalOperator, text: string)
    | IntProposition(parameter: string, op: RelationalOperator, number: int)
    | Implication(lhs: Constraint, rhs: Constraint)
    | Nary(nop: NaryOperator, operands: seq<Constraint>)

  predicate IsProposition(c: Constraint) { c.BoolProposition? || c.EnumProposition? || c.IntProposition? }

  datatype Model = Model(name: string, parameters: seq<Parameter>, relations: seq<Relation>,
                         constraints: seq<Constraint>)

  function EmptyModel(): Model { Model("", [], [], []) }

  function Declared(ps: seq<Parameter>): set<string> {
    set p | p in ps :: p.name
  }

  /** The index of the first parameter of each name. */
  predicate IsIndex(index: map<string, nat>, ps: seq<Parameter>) {
    && (forall n | n in index :: index[n] < |ps| && ps[index[n]].name == n && forall k | 0 <= k < index[n] :: ps[k].name != n)
    && (forall k | 0 <= k < |ps| :: ps[k].name in index)
  }

  /** Declaring a parameter: the index of an earlier one of the same name stays. */
  lemma IndexGrows(index: map<string, nat>, ps: seq<Parameter>, p: Parameter)
    requires IsIndex(index, ps)
    ensures IsIndex(if p.name in index then index else index[p.name := |ps|], ps + [p])
  {
    var qs := ps + [p];
    assert qs[|ps|] == p;
    forall k | 0 <= k < |qs| ensures qs[k].name in (if p.name in index then index else index[p.name := |ps|]) {
      if k < |ps| { assert qs[k] == ps[k]; }
    }
  }

  // ---- Printing (the stream operators) --------------------------------------

  function PrintBool(b: bool): string { if b then "true" else "false" }

  function PrintValue(v: Value): string {
    match v
    case BoolValue(b) => PrintBool(b)
    case EnumValue(text) => text
    case IntValue(n) => IntToString(n)
  }

  /** The values with ", " between neighbours. */
  function PrintValues(vs: seq<Value>): string {
    if vs == [] then "" else PrintValue(vs[0]) + PrintMoreValues(vs[1..])
  }

  function PrintMoreValues(vs: seq<Value>): string {
    if vs == [] then "" else ", " + PrintValue(vs[0]) + PrintMoreValues(vs[1..])
  }

  function TypeWord(t: ParameterType): string {
    match t
    case BOOLEAN => "boolean"
    case ENUM => "enum"
    case INTEGER => "int"
  }

  function PrintType(t: ParameterType): string { "(" + TypeWord(t) + ") : " }

  function PrintParameter(p: Parameter): string {
    p.name + " " + PrintType(p.ptype) + PrintValues(p.values)
  }

  function PrintRelation(r: Relation): string { PrintRelationWith(r, ": (") }

  function PrintRelationWith(r: Relation, opening: string): string {
    r.name + opening + PrintReferences(r.parameters) + NatToString(r.strength) + ")"
  }

  function PrintReferences(names: seq<string>): string {
    if names == [] then "" else names[0] + ", " + PrintReferences(names[1..])
  }

  function PrintOperator(op: RelationalOperator): string {
    match op
    case EQ => "="
    case NEQ => "!="
    case GE => ">="
    case LE => "<="
    case GT => ">"
    case LT => "<"
  }

  function Symbol(op: NaryOperator): string {
    match op
    case AND => "&&"
    case OR => "||"
  }

  function Separator(op: NaryOperator): string {
    match op
    case AND => " && "
    case OR => " || "
  }

  function PrintConstraint(c: Constraint): string
    decreases c, 1
  {
    match c
    case Literal(b) => PrintBool(b)
    case BoolProposition(p, op, b) => PrintProposition(p, op, PrintBool(b))
    case EnumProposition(p, op, v) => PrintProposition(p, op, "\"" + v + "\"")
    case IntProposition(p, op, n) => PrintProposition(p, op, IntToString(n))
    case Implication(l, r) => "(" + (PrintConstraint(l) + " => " + PrintConstraint(r)) + ")"
    case Nary(op, cs) =>
      "(" + (if cs == [] then "" else PrintConstraint(cs[0]) + PrintOperands(op, cs[1..])) + ")"
  }

  function PrintProposition(parameter: string, op: RelationalOperator, value: string): string {
    parameter + " " + PrintOperator(op) + " " + value
  }

  function PrintOperands(op: NaryOperator, cs: seq<Constraint>): string
    decreases cs, 0
  {
    if cs == [] then ""
    else Separator(op) + PrintConstraint(cs[0]) + PrintOperands(op, cs[1..])
  }

  /** Each text as a line of its own. */
  function Lines(texts: seq<string>): string {
    if texts == [] then "" else texts[0] + "\n" + Lines(texts[1..])
  }

  function PrintParameters(ps: seq<Parameter>): (r: seq<string>)
    ensures |r| == |ps| && forall k | 0 <= k < |ps| :: r[k] == PrintParameter(ps[k])
  {
    seq(|ps|, k requires 0 <= k < |ps| => PrintParameter(ps[k]))
  }

  function PrintRelations(rs: seq<Relation>): (r: seq<string>)
    ensures |r| == |rs| && forall k | 0 <= k < |rs| :: r[k] == PrintRelation(rs[k])
  {
    seq(|rs|, k requires 0 <= k < |rs| => PrintRelation(rs[k]))
  }

  function PrintConstraints(cs: seq<Constraint>): (r: seq<string>)
    ensures |r| == |cs| && forall k | 0 <= k < |cs| :: r[k] == PrintConstraint(cs[k])
  {
    seq(|cs|, k requires 0 <= k < |cs| => PrintConstraint(cs[k]))
  }

  function PrintSystemSection(name: string): string {
    "[" + "System" + "]\n" + "Name: " + name + "\n\n"
  }

  /** A section: its header, its lines and what ends it. */
  function PrintSection(name: string, texts: seq<string>, end: string): string {
    "[" + name + "]\n" + Lines(texts) + end
  }

  function PrintModel(m: Model): string {
    PrintSystemSection(m.name)
    + PrintSection("Parameter", PrintParameters(m.parameters), "\n")
    + (if m.relations == [] then "" else PrintSection("Relation", PrintRelations(m.relations), "\n"))
    + (if m.constraints == [] then "" else PrintSection("Constraint", PrintConstraints(m.constraints), "\n"))
  }

  // ---- Well-formed models: what the format can express ------------------------

  predicate WellFormedName(name: string) { IsTrimmed(name) && Covers("\n\r", name) }

  predicate WellFormedValue(t: ParameterType, v: Value) {
    match t
    case BOOLEAN => v.BoolValue?
    case ENUM => v.EnumValue? && v.text != [] && v.text[0] !in ",; \t\n\r"
                 && IsTrimmed(v.text) && Covers(",;\n\r", v.text)
    case INTEGER => v.IntValue? && FitsInt(v.n)
  }

  predicate WellFormedParameter(p: Parameter) {
    && IsIdentifier(p.name)
    && p.values != []
    && forall k | 0 <= k < |p.values| :: WellFormedValue(p.ptype, p.values[k])
  }

  predicate WellFormedRelation(r: Relation, declared: set<string>) {
    && IsIdentifier(r.name)
    && r.parameters != []
    && (forall k | 0 <= k < |r.parameters| :: r.parameters[k] in declared && IsIdentifier(r.parameters[k]))
    && r.strength <= INT_MAX
  }

  predicate IsOrdering(op: RelationalOperator) { op.GE? || op.LE? || op.GT? || op.LT? }

  predicate WellFormedConstraint(c: Constraint, declared: set<string>) {
    match c
    case Literal(_) => false
    case BoolProposition(p, op, _) => p in declared && IsIdentifier(p) && !IsOrdering(op)
    case EnumProposition(p, op, v) =>
      && p in declared && IsIdentifier(p) && !IsOrdering(op)
      && v != [] && v[0] !in ",;\" \t\n\r" && Covers(",;\"\n\r", v)
    case IntProposition(p, op, n) => p in declared && IsIdentifier(p) && FitsInt(n)
    case Implication(l, r) => WellFormedConstraint(l, declared) && WellFormedConstraint(r, declared)
    case Nary(_, cs) => |cs| >= 2 && forall k | 0 <= k < |cs| :: WellFormedConstraint(cs[k], declared)
  }

  predicate WellFormed(m: Model) {
    && WellFormedName(m.name)
    && m.parameters != []
    && (forall k | 0 <= k < |m.parameters| :: WellFormedParameter(m.parameters[k]))
    && (forall k | 0 <= k < |m.relations| :: WellFormedRelation(m.relations[k], Declared(m.parameters)))
    && (forall k | 0 <= k < |m.constraints| :: WellFormedConstraint(m.constraints[k], Declared(m.parameters)))
  }
}
