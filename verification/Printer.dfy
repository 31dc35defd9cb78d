/** The stream operators as they run: loops that append to a stream, with a separator that changes after the first
    element. Each writes exactly what the printing functions of Acts say. */
module Printer {
  import opened Text
  import opened Acts

  class Stream {
    var text: string

    constructor ()
      ensures text == ""
    {
      text := "";
    }

    method Write(s: string)
      modifies this
      ensures text == old(text) + s
    {
      text := text + s;
    }
  }

  lemma LastValue(vs: seq<Value>, v: Value)
    ensures PrintValues(vs + [v]) == PrintValues(vs) + (if vs == [] then "" else ", ") + PrintValue(v)
  {
    if vs == [] {
      assert vs + [v] == [v];
    } else {
      assert (vs + [v])[0] == vs[0] && (vs + [v])[1..] == vs[1..] + [v];
      LastMoreValue(vs[1..], v);
    }
  }

  lemma {:induction false} LastMoreValue(vs: seq<Value>, v: Value)
    ensures PrintMoreValues(vs + [v]) == PrintMoreValues(vs) + ", " + PrintValue(v)
  {
    if vs == [] {
      assert vs + [v] == [v];
    } else {
      assert (vs + [v])[0] == vs[0] && (vs + [v])[1..] == vs[1..] + [v];
      LastMoreValue(vs[1..], v);
    }
  }

  method WriteParameter(os: Stream, p: Parameter)
    modifies os
    ensures os.text == old(os.text) + PrintParameter(p)
  {
    hide PrintType, PrintValues;
    os.Write(p.name);
    os.Write(" ");
    os.Write(PrintType(p.ptype));
    WriteValues(os, p.values);
  }

  method WriteValues(os: Stream, values: seq<Value>)
    modifies os
    ensures os.text == old(os.text) + PrintValues(values)
  {
    hide PrintValue;
    var sep := "";
    for i := 0 to |values|
      invariant os.text == old(os.text) + PrintValues(values[..i])
      invariant sep == if i == 0 then "" else ", "
    {
      LastValue(values[..i], values[i]);
      assert values[..i + 1] == values[..i] + [values[i]];
      os.Write(sep);
      os.Write(PrintValue(values[i]));
      sep := ", ";
    }
    assert values[..|values|] == values;
  }

  lemma {:induction false} LastReference(names: seq<string>, name: string)
    ensures PrintReferences(names + [name]) == PrintReferences(names) + name + ", "
  {
    if names == [] {
      assert names + [name] == [name];
    } else {
      assert (names + [name])[0] == names[0] && (names + [name])[1..] == names[1..] + [name];
      LastReference(names[1..], name);
    }
  }

  method WriteRelation(os: Stream, r: Relation)
    modifies os
    ensures os.text == old(os.text) + PrintRelation(r)
  {
    os.Write(r.name);
    os.Write(": (");
    ghost var start := os.text;
    for i := 0 to |r.parameters|
      invariant os.text == start + PrintReferences(r.parameters[..i])
    {
      LastReference(r.parameters[..i], r.parameters[i]);
      assert r.parameters[..i + 1] == r.parameters[..i] + [r.parameters[i]];
      os.Write(r.parameters[i]);
      os.Write(", ");
    }
    assert r.parameters[..|r.parameters|] == r.parameters;
    os.Write(NatToString(r.strength));
    os.Write(")");
  }

  /** The operands with the separator between neighbours. */
  function Joined(op: NaryOperator, cs: seq<Constraint>): string {
    if cs == [] then "" else PrintConstraint(cs[0]) + PrintOperands(op, cs[1..])
  }

  lemma {:induction false} LastOperand(op: NaryOperator, cs: seq<Constraint>, c: Constraint)
    ensures PrintOperands(op, cs + [c]) == PrintOperands(op, cs) + Separator(op) + PrintConstraint(c)
  {
    hide PrintConstraint;
    if cs == [] {
      assert cs + [c] == [c];
    } else {
      assert (cs + [c])[0] == cs[0] && (cs + [c])[1..] == cs[1..] + [c];
      LastOperand(op, cs[1..], c);
    }
  }

  lemma JoinedLast(op: NaryOperator, cs: seq<Constraint>, c: Constraint)
    ensures Joined(op, cs + [c]) == Joined(op, cs) + (if cs == [] then "" else Separator(op)) + PrintConstraint(c)
  {
    hide PrintConstraint;
    if cs == [] {
      assert cs + [c] == [c];
    } else {
      assert (cs + [c])[0] == cs[0] && (cs + [c])[1..] == cs[1..] + [c];
      LastOperand(op, cs[1..], c);
    }
  }

  method WriteConstraint(os: Stream, c: Constraint)
    modifies os
    ensures os.text == old(os.text) + PrintConstraint(c)
    ensures c == Literal(true) ==> os.text == old(os.text) + "true"
    ensures c == Literal(false) ==> os.text == old(os.text) + "false"
    decreases c
  {
    hide PrintProposition;
    match c {
      case Literal(b) => os.Write(PrintBool(b));
      case BoolProposition(p, op, b) => WriteProposition(os, p, op, PrintBool(b));
      case EnumProposition(p, op, v) => WriteProposition(os, p, op, "\"" + v + "\"");
      case IntProposition(p, op, n) => WriteProposition(os, p, op, IntToString(n));
      case Implication(l, r) =>
        WriteImplication(os, l, r, c);
      case Nary(op, cs) =>
        os.Write("(");
        WriteOperands(os, op, cs, c);
        os.Write(")");
        InParentheses(old(os.text), Joined(op, cs));
    }
  }

  lemma InParentheses(start: string, inside: string)
    ensures start + "(" + inside + ")" == start + ("(" + inside + ")")
  {}

  method WriteImplication(os: Stream, l: Constraint, r: Constraint, ghost parent: Constraint)
    requires parent == Implication(l, r)
    modifies os
    ensures os.text == old(os.text) + ("(" + (PrintConstraint(l) + " => " + PrintConstraint(r)) + ")")
    decreases parent, 0
  {
    hide PrintConstraint;
    os.Write("(");
    ghost var start := os.text;
    WriteConstraint(os, l);
    os.Write(" => ");
    WriteConstraint(os, r);
    assert os.text == start + (PrintConstraint(l) + " => " + PrintConstraint(r));
    os.Write(")");
    InParentheses(old(os.text), PrintConstraint(l) + " => " + PrintConstraint(r));
  }

  method WriteProposition(os: Stream, parameter: string, op: RelationalOperator, value: string)
    modifies os
    ensures os.text == old(os.text) + PrintProposition(parameter, op, value)
  {
    os.Write(parameter);
    os.Write(" ");
    os.Write(PrintOperator(op));
    os.Write(" ");
    os.Write(value);
  }

  method WriteOperands(os: Stream, op: NaryOperator, cs: seq<Constraint>, ghost parent: Constraint)
    requires parent == Nary(op, cs)
    modifies os
    ensures os.text == old(os.text) + Joined(op, cs)
    decreases parent, 0
  {
    hide PrintConstraint, Joined;
    var sep := "";
    assert cs[..0] == [] && Joined(op, []) == "" by { NoneJoined(op); }
    for i := 0 to |cs|
      invariant os.text == old(os.text) + Joined(op, cs[..i])
      invariant sep == if i == 0 then "" else Separator(op)
    {
      JoinedLast(op, cs[..i], cs[i]);
      assert cs[..i + 1] == cs[..i] + [cs[i]];
      os.Write(sep);
      WriteConstraint(os, cs[i]);
      sep := Separator(op);
    }
    assert cs[..|cs|] == cs;
  }

  lemma NoneJoined(op: NaryOperator)
    ensures Joined(op, []) == ""
  {}

  lemma {:induction false} LastLine(texts: seq<string>, t: string)
    ensures Lines(texts + [t]) == Lines(texts) + t + "\n"
  {
    if texts == [] {
      assert texts + [t] == [t];
    } else {
      assert (texts + [t])[0] == texts[0] && (texts + [t])[1..] == texts[1..] + [t];
      LastLine(texts[1..], t);
    }
  }

  lemma TakeLine(texts: seq<string>, i: nat)
    requires i < |texts|
    ensures Lines(texts[..i + 1]) == Lines(texts[..i]) + texts[i] + "\n"
  {
    LastLine(texts[..i], texts[i]);
    assert texts[..i + 1] == texts[..i] + [texts[i]];
  }

  method WriteModel(os: Stream, m: Model)
    modifies os
    ensures os.text == old(os.text) + PrintModel(m)
  {
    hide PrintSystemSection, PrintSection, PrintParameters, PrintRelations, PrintConstraints;
    WriteHeader(os, m.name);
    WriteParameters(os, m.parameters);
    if m.relations != [] { WriteRelations(os, m.relations); }
    if m.constraints != [] { WriteConstraints(os, m.constraints); }
  }

  method WriteHeader(os: Stream, name: string)
    modifies os
    ensures os.text == old(os.text) + PrintSystemSection(name)
  {
    os.Write("[System]\n");
    os.Write("Name: ");
    os.Write(name);
    os.Write("\n\n");
  }

  method WriteParameters(os: Stream, ps: seq<Parameter>)
    modifies os
    ensures os.text == old(os.text) + PrintSection("Parameter", PrintParameters(ps), "\n")
  {
    hide PrintParameter;
    ghost var texts := PrintParameters(ps);
    os.Write("[Parameter]\n");
    for i := 0 to |ps|
      invariant os.text == old(os.text) + "[Parameter]\n" + Lines(texts[..i])
    {
      TakeLine(texts, i);
      WriteParameter(os, ps[i]);
      os.Write("\n");
    }
    assert texts[..|ps|] == texts;
    os.Write("\n");
  }

  method WriteRelations(os: Stream, rs: seq<Relation>)
    modifies os
    ensures os.text == old(os.text) + PrintSection("Relation", PrintRelations(rs), "\n")
  {
    hide PrintRelation;
    ghost var texts := PrintRelations(rs);
    os.Write("[Relation]\n");
    for i := 0 to |rs|
      invariant os.text == old(os.text) + "[Relation]\n" + Lines(texts[..i])
    {
      TakeLine(texts, i);
      WriteRelation(os, rs[i]);
      os.Write("\n");
    }
    assert texts[..|rs|] == texts;
    os.Write("\n");
  }

  method WriteConstraints(os: Stream, cs: seq<Constraint>)
    modifies os
    ensures os.text == old(os.text) + PrintSection("Constraint", PrintConstraints(cs), "\n")
  {
    hide PrintConstraint;
    ghost var texts := PrintConstraints(cs);
    os.Write("[Constraint]\n");
    for i := 0 to |cs|
      invariant os.text == old(os.text) + "[Constraint]\n" + Lines(texts[..i])
    {
      TakeLine(texts, i);
      WriteConstraint(os, cs[i]);
      os.Write("\n");
    }
    assert texts[..|cs|] == texts;
    os.Write("\n");
  }

  /** create_copy: the copy of a tree is an equal tree. */
  method CreateCopy(c: Constraint) returns (copy: Constraint)
    ensures copy == c
    decreases c
  {
    match c {
      case Implication(l, r) =>
        var lhs := CreateCopy(l);
        var rhs := CreateCopy(r);
        copy := Implication(lhs, rhs);
      case Nary(op, cs) =>
        var ops: seq<Constraint> := [];
        for i := 0 to |cs|
          invariant ops == cs[..i]
        {
          var operand := CreateCopy(cs[i]);
          ops := ops + [operand];
        }
        copy := Nary(op, ops);
      case _ => copy := c;
    }
  }
}
