/** The PEG of the ACTS format, rule by rule as the parser documents it, and what a PEG means. */
module Grammar {
  import opened Text

  predicate IsAscii(t: string) { forall k | 0 <= k < |t| :: t[k] as int < 0x80 }

  type Ascii = t: string | IsAscii(t) witness ""

  datatype Peg =
    | Any                          // . : one code point
    | End                          // the end of the input, which no PEG has a symbol for
    | Class(cls: CharClass)        // [...] : one character of a class
    | T(text: Ascii)               // '...'
    | TI(text: Ascii)              // '...'i
    | Seq(first: Peg, second: Peg)
    | Alt(first: Peg, second: Peg) // first / second
    | Star(body: Peg)              // body*
    | Opt(body: Peg)               // body?
    | Not(body: Peg)               // !body
    | Ref(rule: Rule)

  // Longer sequences, grouped from the left.

  function Then2(p: Peg, a: Peg, b: Peg): Peg { Seq(Seq(p, a), b) }

  function Then3(p: Peg, a: Peg, b: Peg, c: Peg): Peg { Seq(Then2(p, a, b), c) }

  function Then4(p: Peg, a: Peg, b: Peg, c: Peg, d: Peg): Peg { Then2(Then2(p, a, b), c, d) }

  datatype Rule =
    | Root
    | SystemSection | SystemNameRule | SystemName
    | ParameterSection | ParameterRule | BooleanParam | EnumParam | IntParam | ParamName
    | BooleanType | EnumType | IntType | ParamDelcEnd
    | BooleanValueList | BooleanValue | EnumValueList | EnumValue | IntegerValueList | IntegerValue
    | RelationSection | RelationRule | RelationName | RelParamNameList | RelParamName | RelStrength
    | ConstraintSection | ConstraintRule | ConstraintEnd | Implication | OrExpr | AndExpr | Operand
    | AtomicProp | ConstrParamName | RelOp | ConstrValue | ConstrBoolValue | ConstrIntValue | ConstrEnumValue
    | Identifier | Spacing | Whitespace | Blanks | SpaceChar | Eol | LineEnd | LineComment

  /** '[' ___ name ___ ']' _ LineEnd __ */
  function Header(name: Ascii): Peg {
    Then3(Then4(T("["), Ref(Whitespace), TI(name), Ref(Whitespace), T("]")), Ref(Blanks), Ref(LineEnd), Ref(Spacing))
  }

  /** (___ ',' ___ element)* */
  function Repeated(element: Rule): Peg {
    Star(Then3(Ref(Whitespace), T(","), Ref(Whitespace), Ref(element)))
  }

  /** _ symbol _ operand */
  function Infixed(symbol: Ascii, operand: Rule): Peg { Then3(Ref(Blanks), T(symbol), Ref(Blanks), Ref(operand)) }

  /** '(' ___ word ___ ')' */
  function Tag(word: Peg): Peg { Then4(T("("), Ref(Whitespace), word, Ref(Whitespace), T(")")) }

  /** ParamName ___ type ___ ':' ___ values */
  function Declaration(tag: Rule, values: Rule): Peg {
    Then2(Then4(Ref(ParamName), Ref(Whitespace), Ref(tag), Ref(Whitespace), T(":")), Ref(Whitespace), Ref(values))
  }

  /** [+-]? [0-9]+ */
  function SignedDigits(): Peg { Seq(Opt(Class(CharClass.Sign)), Digits()) }

  function Digits(): Peg { Seq(Class(CharClass.Digit), Star(Class(CharClass.Digit))) }

  /** !stop . */
  function Except(stop: Peg): Peg { Seq(Not(stop), Any) }

  /** The grammar of the comment, and the one that the parser implements: they differ in what follows the last line. The
      comment writes `!.`, no code point follows, the parser tests for the end of the input. */
  datatype Reading = Written | Parsed

  function EndTest(g: Reading): Peg {
    match g
    case Written => Not(Any)
    case Parsed => End
  }

  function Body(g: Reading, r: Rule): Peg {
    match r
    case Root =>
      Then4(Ref(Spacing), Ref(SystemSection), Ref(ParameterSection), Opt(Ref(RelationSection)), Opt(Ref(ConstraintSection)))
    case SystemSection => Seq(Header("System"), Ref(SystemNameRule))
    case SystemNameRule =>
      Seq(Then4(TI("name"), Ref(Whitespace), T(":"), Ref(Blanks), Ref(SystemName)), Ref(Spacing))
    case SystemName => Star(Except(Ref(Eol)))
    case ParameterSection =>
      Then2(Header("Parameter"), Seq(Ref(ParameterRule), Ref(Spacing)), Star(Seq(Ref(ParameterRule), Ref(Spacing))))
    case ParameterRule => Alt(Ref(BooleanParam), Alt(Ref(EnumParam), Ref(IntParam)))
    case BooleanParam => Then2(Declaration(BooleanType, BooleanValueList), Star(Ref(SpaceChar)), Ref(ParamDelcEnd))
    case EnumParam => Seq(Declaration(EnumType, EnumValueList), Ref(ParamDelcEnd))
    case IntParam => Then2(Declaration(IntType, IntegerValueList), Star(Ref(SpaceChar)), Ref(ParamDelcEnd))
    case ParamName => Ref(Identifier)
    case BooleanType => Tag(Alt(TI("boolean"), TI("bool")))
    case EnumType => Tag(TI("enum"))
    case IntType => Tag(Alt(TI("integer"), TI("int")))
    case ParamDelcEnd => Ref(LineEnd)
    case BooleanValueList => Seq(Ref(BooleanValue), Repeated(BooleanValue))
    case BooleanValue => Alt(TI("true"), TI("false"))
    case EnumValueList => Seq(Ref(EnumValue), Repeated(EnumValue))
    case EnumValue =>
      Seq(Except(Alt(T(","), Alt(T(";"), Alt(Ref(SpaceChar), Ref(Eol))))), Star(Except(Alt(T(","), Alt(T(";"), Ref(Eol))))))
    case IntegerValueList => Seq(Ref(IntegerValue), Repeated(IntegerValue))
    case IntegerValue => SignedDigits()
    case RelationSection => Seq(Header("Relation"), Star(Ref(RelationRule)))
    case RelationRule =>
      Then3(Then4(Then4(Then4(Ref(RelationName), Ref(Whitespace), T(":"), Ref(Whitespace), T("(")),
                        Ref(Whitespace), Ref(RelParamNameList), Ref(Whitespace), T(",")),
                  Ref(Whitespace), Ref(RelStrength), Ref(Whitespace), T(")")),
            Ref(Blanks), Ref(LineEnd), Ref(Spacing))
    case RelationName => Ref(Identifier)
    case RelParamNameList => Seq(Ref(RelParamName), Repeated(RelParamName))
    case RelParamName => Ref(Identifier)
    case RelStrength => Digits()
    case ConstraintSection => Seq(Header("Constraint"), Star(Ref(ConstraintRule)))
    case ConstraintRule => Then3(Ref(Implication), Ref(Blanks), Ref(ConstraintEnd), Ref(Spacing))
    case ConstraintEnd => Ref(LineEnd)
    case Implication => Seq(Ref(OrExpr), Opt(Infixed("=>", OrExpr)))
    case OrExpr => Seq(Ref(AndExpr), Star(Infixed("||", AndExpr)))
    case AndExpr => Seq(Ref(Operand), Star(Infixed("&&", Operand)))
    case Operand => Alt(Then4(T("("), Ref(Blanks), Ref(Implication), Ref(Blanks), T(")")), Ref(AtomicProp))
    case AtomicProp => Then4(Ref(ConstrParamName), Ref(Blanks), Ref(RelOp), Ref(Blanks), Ref(ConstrValue))
    case ConstrParamName => Ref(Identifier)
    case RelOp => Alt(T("="), Alt(T("!="), Alt(T(">="), Alt(T("<="), Alt(T(">"), T("<"))))))
    case ConstrValue => Alt(Ref(ConstrBoolValue), Alt(Ref(ConstrIntValue), Ref(ConstrEnumValue)))
    case ConstrBoolValue => Alt(TI("true"), TI("false"))
    case ConstrIntValue => SignedDigits()
    case ConstrEnumValue =>
      Then3(T("\""), Except(Alt(T(","), Alt(T(";"), Alt(T("\""), Alt(Ref(SpaceChar), Ref(Eol)))))),
            Star(Except(Alt(T(","), Alt(T(";"), Alt(T("\""), Ref(Eol)))))), T("\""))
    case Identifier => Seq(Class(CharClass.IdentifierStart), Star(Class(CharClass.IdentifierChar)))
    case Spacing => Star(Alt(Class(CharClass.White), Ref(LineComment)))
    case Whitespace => Star(Class(CharClass.White))
    case Blanks => Star(Class(CharClass.Blank))
    case SpaceChar => Alt(T(" "), T("\t"))
    case Eol => Alt(T("\r\n"), Alt(T("\n"), T("\r")))
    case LineEnd => Alt(Ref(Eol), EndTest(g))
    case LineComment => Then2(T("--"), Star(Except(Ref(Eol))), Not(Not(Ref(LineEnd))))
  }

  /** A rule refers, before consuming anything, only to rules of smaller rank. */
  function Rank(r: Rule): nat {
    match r
    case Root => 12
    case SystemSection | ParameterSection | RelationSection | ConstraintSection => 11
    case ConstraintRule => 10
    case Implication => 9
    case OrExpr => 8
    case AndExpr => 7
    case Operand => 6
    case ParameterRule | AtomicProp | RelationRule => 5
    case BooleanParam | EnumParam | IntParam | ConstrValue | SystemNameRule => 4
    case BooleanValueList | EnumValueList | IntegerValueList | RelParamNameList | Spacing => 3
    case BooleanValue | EnumValue | IntegerValue | RelParamName | ParamDelcEnd | ConstraintEnd | LineComment
    | ConstrEnumValue | SystemName => 2
    case ParamName | RelationName | ConstrParamName | LineEnd => 1
    case _ => 0
  }

  const TOP: nat := 13

  /** `Stuck` is an evaluation that does not end: a left recursion or the repetition of nothing. */
  datatype Result = Ok(pos: nat) | Fail | Stuck

  function After(i: nat, j: nat, rank: nat): nat { if j > i then TOP else rank }

  /** The standard meaning of a PEG at position `i`: ordered choice, greedy repetition, predicates that
      consume nothing. `rank` bounds the rules that can be entered before something is consumed. */
  function Eval(g: Reading, e: Peg, s: string, i: nat, rank: nat): (r: Result)
    requires i <= |s|
    ensures r.Ok? ==> i <= r.pos <= |s|
    decreases |s| - i, rank, e
  {
    match e
    case Any => if CodepointLength(s, i) == 0 then Fail else Ok(i + CodepointLength(s, i))
    case End => if i == |s| then Ok(i) else Fail
    case Class(cls) => if i < |s| && InClass(cls, s[i]) then Ok(i + 1) else Fail
    case T(t) => if At(s, i, t) then Ok(i + |t|) else Fail
    case TI(t) => if AtI(s, i, t) then Ok(i + |t|) else Fail
    case Seq(a, b) => (match Eval(g, a, s, i, rank) case Ok(j) => Eval(g, b, s, j, After(i, j, rank)) case r => r)
    case Alt(a, b) => (match Eval(g, a, s, i, rank) case Fail => Eval(g, b, s, i, rank) case r => r)
    case Star(a) =>
      (match Eval(g, a, s, i, rank)
       case Ok(j) => if j > i then Eval(g, e, s, j, TOP) else Stuck
       case Fail => Ok(i)
       case Stuck => Stuck)
    case Opt(a) => (match Eval(g, a, s, i, rank) case Fail => Ok(i) case r => r)
    case Not(a) => (match Eval(g, a, s, i, rank) case Ok(_) => Fail case Fail => Ok(i) case Stuck => Stuck)
    case Ref(r) => if Rank(r) < rank then Eval(g, Body(g, r), s, i, Rank(r)) else Stuck
  }
}
