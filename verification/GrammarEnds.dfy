/** The grammar is well-formed as a PEG: no rule is left-recursive and nothing is repeated without consuming something, so
    every evaluation ends. */
module GrammarEnds {
  import opened Text
  import opened Grammar

  // ---- What sound expressions are ------------------------------------------------------------

  /** What may match without consuming anything. */
  predicate IsNullableRule(r: Rule) {
    match r
    case SystemName | Spacing | Whitespace | Blanks | LineEnd | ParamDelcEnd | ConstraintEnd => true
    case _ => false
  }

  predicate IsNullable(e: Peg) {
    match e
    case Any => false
    case Class(_) => false
    case T(t) => t == ""
    case TI(t) => t == ""
    case Seq(a, b) => IsNullable(a) && IsNullable(b)
    case Alt(a, b) => IsNullable(a) || IsNullable(b)
    case Ref(r) => IsNullableRule(r)
    case _ => true
  }

  /** No left recursion, because leading rules are of smaller rank, and no repetition of nothing. */
  predicate IsSound(e: Peg, rank: nat) {
    match e
    case Seq(a, b) => IsSound(a, rank) && IsSound(b, if IsNullable(a) then rank else TOP)
    case Alt(a, b) => IsSound(a, rank) && IsSound(b, rank)
    case Star(a) => !IsNullable(a) && IsSound(a, rank)
    case Opt(a) => IsSound(a, rank)
    case Not(a) => IsSound(a, rank)
    case Ref(r) => Rank(r) < rank
    case _ => true
  }

  lemma {:induction false} SoundAbove(e: Peg, rank: nat, more: nat)
    requires IsSound(e, rank) && rank <= more <= TOP
    ensures IsSound(e, more)
  {
    match e
    case Seq(a, b) =>
      SoundAbove(a, rank, more);
      if IsNullable(a) { SoundAbove(b, rank, more); }
    case Alt(a, b) => SoundAbove(a, rank, more); SoundAbove(b, rank, more);
    case Star(a) => SoundAbove(a, rank, more);
    case Opt(a) => SoundAbove(a, rank, more);
    case Not(a) => SoundAbove(a, rank, more);
    case _ =>
  }

  predicate IsSoundRule(g: Reading, r: Rule) {
    IsSound(Body(g, r), Rank(r)) && (IsNullable(Body(g, r)) ==> IsNullableRule(r))
  }

  lemma {:induction false} Ends(g: Reading, e: Peg, s: string, i: nat, rank: nat)
    requires i <= |s| && rank <= TOP && IsSound(e, rank) && forall r :: IsSoundRule(g, r)
    ensures Eval(g, e, s, i, rank) != Stuck
    ensures Eval(g, e, s, i, rank) == Ok(i) ==> IsNullable(e)
    decreases |s| - i, rank, e
  {
    hide Body, Rank, At, AtI, IsNullableRule, IsSoundRule;
    match e
    case Seq(a, b) =>
      Ends(g, a, s, i, rank);
      var o := Eval(g, a, s, i, rank);
      if o.Ok? {
        if o.pos > i && IsNullable(a) { SoundAbove(b, rank, TOP); }
        Ends(g, b, s, o.pos, After(i, o.pos, rank));
      }
    case Alt(a, b) => Ends(g, a, s, i, rank); Ends(g, b, s, i, rank);
    case Star(a) =>
      Ends(g, a, s, i, rank);
      var o := Eval(g, a, s, i, rank);
      if o.Ok? {
        SoundAbove(a, rank, TOP);
        Ends(g, e, s, o.pos, TOP);
      }
    case Opt(a) => Ends(g, a, s, i, rank);
    case Not(a) => Ends(g, a, s, i, rank);
    case Ref(r) =>
      RankBelow(r);
      SoundBody(g, r);
      Ends(g, Body(g, r), s, i, Rank(r));
    case _ =>
  }

  lemma RankBelow(r: Rule)
    ensures Rank(r) < TOP
  {}

  lemma SoundBody(g: Reading, r: Rule)
    requires IsSoundRule(g, r)
    ensures IsSound(Body(g, r), Rank(r)) && (IsNullable(Body(g, r)) ==> IsNullableRule(r))
  {}

  /** Sound, and never without consuming something. */
  predicate IsSolid(e: Peg, rank: nat) { IsSound(e, rank) && !IsNullable(e) }

  lemma SolidThen(a: Peg, b: Peg, q: nat)
    requires IsSolid(a, q) && IsSound(b, TOP)
    ensures IsSolid(Seq(a, b), q)
  {}

  lemma ThenSolid(a: Peg, b: Peg, q: nat)
    requires q <= TOP && IsSound(a, q) && IsSolid(b, q)
    ensures IsSolid(Seq(a, b), q)
  {
    SoundAbove(b, q, TOP);
  }

  lemma SolidThen2(p: Peg, a: Peg, b: Peg, q: nat)
    requires IsSolid(p, q) && IsSound(a, TOP) && IsSound(b, TOP)
    ensures IsSolid(Then2(p, a, b), q)
  {
    hide IsSolid, IsSound;
    SolidThen(p, a, q);
    SolidThen(Seq(p, a), b, q);
  }

  lemma SolidThen3(p: Peg, a: Peg, b: Peg, c: Peg, q: nat)
    requires IsSolid(p, q) && IsSound(a, TOP) && IsSound(b, TOP) && IsSound(c, TOP)
    ensures IsSolid(Then3(p, a, b, c), q)
  {
    hide IsSolid, IsSound, Then2;
    SolidThen2(p, a, b, q);
    SolidThen(Then2(p, a, b), c, q);
  }

  lemma SolidThen4(p: Peg, a: Peg, b: Peg, c: Peg, d: Peg, q: nat)
    requires IsSolid(p, q) && IsSound(a, TOP) && IsSound(b, TOP) && IsSound(c, TOP) && IsSound(d, TOP)
    ensures IsSolid(Then4(p, a, b, c, d), q)
  {
    hide IsSolid, IsSound, Then2;
    SolidThen2(p, a, b, q);
    SolidThen2(Then2(p, a, b), c, d, q);
  }

  /** The second part consumes something in any case. */
  lemma ThenSolid3(p: Peg, a: Peg, b: Peg, c: Peg, q: nat)
    requires q <= TOP && IsSound(p, q) && IsSolid(a, q) && IsSound(b, TOP) && IsSound(c, TOP)
    ensures IsSolid(Then3(p, a, b, c), q)
  {
    hide IsSolid, IsSound;
    ThenSolid(p, a, q);
    SolidThen(Seq(p, a), b, q);
    SolidThen(Seq(Seq(p, a), b), c, q);
  }

  lemma SolidOr(a: Peg, b: Peg, q: nat)
    requires IsSolid(a, q) && IsSolid(b, q)
    ensures IsSolid(Alt(a, b), q)
  {}

  lemma SoundStar(a: Peg, q: nat)
    requires IsSolid(a, q)
    ensures IsSound(Star(a), q)
  {}

  lemma SoundOpt(a: Peg, q: nat)
    requires IsSound(a, q)
    ensures IsSound(Opt(a), q)
  {}

  lemma SolidIsSound(a: Peg, q: nat)
    requires IsSolid(a, q)
    ensures IsSound(a, q)
  {}

  /** Terminals, and the rules that may be entered. */
  lemma Leaves(q: nat)
    ensures forall t: Ascii | t != "" :: IsSolid(T(t), q) && IsSolid(TI(t), q)
    ensures forall c :: IsSolid(Class(c), q)
    ensures forall r | Rank(r) < q :: IsSound(Ref(r), q) && (!IsNullableRule(r) ==> IsSolid(Ref(r), q))
  {}

  lemma LeavesAreSound()
    ensures forall t: Ascii :: IsSound(T(t), TOP) && IsSound(TI(t), TOP)
    ensures forall c :: IsSound(Class(c), TOP)
    ensures forall r :: IsSound(Ref(r), TOP)
  {
    forall r ensures IsSound(Ref(r), TOP) { RankBelow(r); }
  }

  // ---- The forms that several rules share ---------------------------------------------------------

  lemma SolidHeader(name: Ascii)
    requires name != ""
    ensures IsSolid(Header(name), 11)
  {
    Leaves(11);
    LeavesAreSound();
    hide IsSolid, IsSound, Then3, Then4;
    SolidThen4(T("["), Ref(Whitespace), TI(name), Ref(Whitespace), T("]"), 11);
    SolidThen3(Then4(T("["), Ref(Whitespace), TI(name), Ref(Whitespace), T("]")), Ref(Blanks), Ref(LineEnd), Ref(Spacing), 11);
  }

  lemma SoundRepeated(element: Rule)
    ensures IsSound(Repeated(element), TOP)
  {
    Leaves(TOP);
    LeavesAreSound();
    RankBelow(Whitespace);
    hide IsSolid, IsSound, Then3;
    ThenSolid3(Ref(Whitespace), T(","), Ref(Whitespace), Ref(element), TOP);
    SoundStar(Then3(Ref(Whitespace), T(","), Ref(Whitespace), Ref(element)), TOP);
  }

  lemma SolidInfixed(symbol: Ascii, operand: Rule, q: nat)
    requires symbol != "" && 0 < q <= TOP
    ensures IsSolid(Infixed(symbol, operand), q)
  {
    Leaves(q);
    LeavesAreSound();
    assert Rank(Blanks) == 0;
    hide IsSolid, IsSound, Then3;
    ThenSolid3(Ref(Blanks), T(symbol), Ref(Blanks), Ref(operand), q);
  }

  lemma SolidTag(word: Peg, q: nat)
    requires IsSound(word, TOP)
    ensures IsSolid(Tag(word), q)
  {
    Leaves(q);
    LeavesAreSound();
    hide IsSolid, IsSound, Then4;
    SolidThen4(T("("), Ref(Whitespace), word, Ref(Whitespace), T(")"), q);
  }

  lemma SolidDeclaration(tag: Rule, values: Rule, q: nat)
    requires q > 1
    ensures IsSolid(Declaration(tag, values), q)
  {
    Leaves(q);
    LeavesAreSound();
    assert Rank(ParamName) == 1;
    hide IsSolid, IsSound, Then2, Then4;
    SolidThen4(Ref(ParamName), Ref(Whitespace), Ref(tag), Ref(Whitespace), T(":"), q);
    SolidThen2(Then4(Ref(ParamName), Ref(Whitespace), Ref(tag), Ref(Whitespace), T(":")), Ref(Whitespace), Ref(values), q);
  }

  lemma SolidDigits(q: nat)
    ensures IsSolid(Digits(), q)
  {
    Leaves(q);
    Leaves(TOP);
    hide IsSolid, IsSound;
    SoundStar(Class(CharClass.Digit), TOP);
    SolidThen(Class(CharClass.Digit), Star(Class(CharClass.Digit)), q);
  }

  lemma SolidSignedDigits(q: nat)
    requires q <= TOP
    ensures IsSolid(SignedDigits(), q)
  {
    Leaves(q);
    SolidDigits(q);
    hide IsSolid, IsSound, Digits;
    SolidIsSound(Class(CharClass.Sign), q);
    SoundOpt(Class(CharClass.Sign), q);
    ThenSolid(Opt(Class(CharClass.Sign)), Digits(), q);
  }

  lemma SolidExcept(stop: Peg, q: nat)
    requires IsSound(stop, q)
    ensures IsSolid(Except(stop), q)
  {}

  lemma GroupedFour(p: Peg, a: Peg, b: Peg, c: Peg, d: Peg)
    ensures Then4(p, a, b, c, d) == Then3(Seq(p, a), b, c, d)
  {}

  lemma SoundOr(a: Peg, b: Peg, q: nat)
    requires IsSound(a, q) && IsSound(b, q)
    ensures IsSound(Alt(a, b), q)
  {}

  lemma SoundOr3(a: Peg, b: Peg, c: Peg, q: nat)
    requires IsSound(a, q) && IsSound(b, q) && IsSound(c, q)
    ensures IsSound(Alt(a, Alt(b, c)), q)
  {}

  lemma SoundNotNot(a: Peg, q: nat)
    requires IsSound(a, q)
    ensures IsSound(Not(Not(a)), q)
  {}

  lemma SoundEnd(g: Reading, q: nat)
    ensures IsSound(EndTest(g), q)
  {}

  lemma SolidTop(r: Rule)
    requires !IsNullableRule(r)
    ensures IsSolid(Ref(r), TOP)
  {
    RankBelow(r);
  }

  // ---- All rules: each lemma follows the body of its rule ---------------------------------------------------

  lemma OfSolid(g: Reading, r: Rule, q: nat)
    requires Rank(r) == q && IsSolid(Body(g, r), q)
    ensures IsSoundRule(g, r)
  {}

  lemma OfNullable(g: Reading, r: Rule, q: nat)
    requires Rank(r) == q && IsSound(Body(g, r), q) && IsNullableRule(r)
    ensures IsSoundRule(g, r)
  {}

  lemma RootIsSound(g: Reading)
    ensures IsSoundRule(g, Root)
  {
    assert Body(g, Root) == Then4(Ref(Spacing), Ref(SystemSection), Ref(ParameterSection), Opt(Ref(RelationSection)),
      Opt(Ref(ConstraintSection)));
    assert Rank(Root) == 12 && Rank(Spacing) < 12 && Rank(SystemSection) < 12 && !IsNullableRule(SystemSection);
    hide *;
    Leaves(12);
    LeavesAreSound();
    ThenSolid(Ref(Spacing), Ref(SystemSection), 12);
    SoundOpt(Ref(RelationSection), TOP);
    SoundOpt(Ref(ConstraintSection), TOP);
    SolidThen3(Seq(Ref(Spacing), Ref(SystemSection)), Ref(ParameterSection), Opt(Ref(RelationSection)),
               Opt(Ref(ConstraintSection)), 12);
    GroupedFour(Ref(Spacing), Ref(SystemSection), Ref(ParameterSection), Opt(Ref(RelationSection)), Opt(Ref(ConstraintSection)));
    OfSolid(g, Root, 12);
  }

  lemma SystemSectionIsSound(g: Reading)
    ensures IsSoundRule(g, SystemSection)
  {
    assert Body(g, SystemSection) == Seq(Header("System"), Ref(SystemNameRule));
    assert Rank(SystemSection) == 11;
    hide *;
    LeavesAreSound();
    SolidHeader("System");
    SolidThen(Header("System"), Ref(SystemNameRule), 11);
    OfSolid(g, SystemSection, 11);
  }

  lemma SystemNameRuleIsSound(g: Reading)
    ensures IsSoundRule(g, SystemNameRule)
  {
    assert Body(g, SystemNameRule) == Seq(Then4(TI("name"), Ref(Whitespace), T(":"), Ref(Blanks), Ref(SystemName)),
      Ref(Spacing));
    assert Rank(SystemNameRule) == 4;
    hide *;
    Leaves(4);
    LeavesAreSound();
    SolidThen4(TI("name"), Ref(Whitespace), T(":"), Ref(Blanks), Ref(SystemName), 4);
    SolidThen(Then4(TI("name"), Ref(Whitespace), T(":"), Ref(Blanks), Ref(SystemName)), Ref(Spacing), 4);
    OfSolid(g, SystemNameRule, 4);
  }

  lemma SystemNameIsSound(g: Reading)
    ensures IsSoundRule(g, SystemName)
  {
    assert Body(g, SystemName) == Star(Except(Ref(Eol)));
    assert Rank(SystemName) == 2 && IsNullableRule(SystemName) && Rank(Eol) < 2 && !IsNullableRule(Eol);
    hide *;
    Leaves(2);
    SolidExcept(Ref(Eol), 2);
    SoundStar(Except(Ref(Eol)), 2);
    OfNullable(g, SystemName, 2);
  }

  lemma ParameterSectionIsSound(g: Reading)
    ensures IsSoundRule(g, ParameterSection)
  {
    assert Body(g, ParameterSection) == Then2(Header("Parameter"), Seq(Ref(ParameterRule), Ref(Spacing)),
      Star(Seq(Ref(ParameterRule), Ref(Spacing))));
    assert Rank(ParameterSection) == 11;
    assert !IsNullableRule(ParameterRule);
    hide *;
    LeavesAreSound();
    SolidHeader("Parameter");
    SolidTop(ParameterRule);
    SolidThen(Ref(ParameterRule), Ref(Spacing), TOP);
    SolidIsSound(Seq(Ref(ParameterRule), Ref(Spacing)), TOP);
    SoundStar(Seq(Ref(ParameterRule), Ref(Spacing)), TOP);
    SolidThen2(Header("Parameter"), Seq(Ref(ParameterRule), Ref(Spacing)), Star(Seq(Ref(ParameterRule), Ref(Spacing))), 11);
    OfSolid(g, ParameterSection, 11);
  }

  lemma ParameterRuleIsSound(g: Reading)
    ensures IsSoundRule(g, ParameterRule)
  {
    assert Body(g, ParameterRule) == Alt(Ref(BooleanParam), Alt(Ref(EnumParam), Ref(IntParam)));
    assert Rank(ParameterRule) == 5 && Rank(BooleanParam) < 5 && !IsNullableRule(BooleanParam) && Rank(EnumParam) < 5
      && !IsNullableRule(EnumParam) && Rank(IntParam) < 5 && !IsNullableRule(IntParam);
    hide *;
    Leaves(5);
    SolidOr(Ref(EnumParam), Ref(IntParam), 5);
    SolidOr(Ref(BooleanParam), Alt(Ref(EnumParam), Ref(IntParam)), 5);
    OfSolid(g, ParameterRule, 5);
  }

  lemma BooleanParamIsSound(g: Reading)
    ensures IsSoundRule(g, BooleanParam)
  {
    assert Body(g, BooleanParam) == Then2(Declaration(BooleanType, BooleanValueList), Star(Ref(SpaceChar)),
      Ref(ParamDelcEnd));
    assert Rank(BooleanParam) == 4;
    assert !IsNullableRule(SpaceChar);
    hide *;
    LeavesAreSound();
    SolidDeclaration(BooleanType, BooleanValueList, 4);
    SolidTop(SpaceChar);
    SoundStar(Ref(SpaceChar), TOP);
    SolidThen2(Declaration(BooleanType, BooleanValueList), Star(Ref(SpaceChar)), Ref(ParamDelcEnd), 4);
    OfSolid(g, BooleanParam, 4);
  }

  lemma EnumParamIsSound(g: Reading)
    ensures IsSoundRule(g, EnumParam)
  {
    assert Body(g, EnumParam) == Seq(Declaration(EnumType, EnumValueList), Ref(ParamDelcEnd));
    assert Rank(EnumParam) == 4;
    hide *;
    LeavesAreSound();
    SolidDeclaration(EnumType, EnumValueList, 4);
    SolidThen(Declaration(EnumType, EnumValueList), Ref(ParamDelcEnd), 4);
    OfSolid(g, EnumParam, 4);
  }

  lemma IntParamIsSound(g: Reading)
    ensures IsSoundRule(g, IntParam)
  {
    assert Body(g, IntParam) == Then2(Declaration(IntType, IntegerValueList), Star(Ref(SpaceChar)),
      Ref(ParamDelcEnd));
    assert Rank(IntParam) == 4;
    assert !IsNullableRule(SpaceChar);
    hide *;
    LeavesAreSound();
    SolidDeclaration(IntType, IntegerValueList, 4);
    SolidTop(SpaceChar);
    SoundStar(Ref(SpaceChar), TOP);
    SolidThen2(Declaration(IntType, IntegerValueList), Star(Ref(SpaceChar)), Ref(ParamDelcEnd), 4);
    OfSolid(g, IntParam, 4);
  }

  lemma ParamNameIsSound(g: Reading)
    ensures IsSoundRule(g, ParamName)
  {
    assert Body(g, ParamName) == Ref(Identifier);
    assert Rank(ParamName) == 1 && Rank(Identifier) < 1 && !IsNullableRule(Identifier);
    hide *;
    Leaves(1);
    OfSolid(g, ParamName, 1);
  }

  lemma BooleanTypeIsSound(g: Reading)
    ensures IsSoundRule(g, BooleanType)
  {
    assert Body(g, BooleanType) == Tag(Alt(TI("boolean"), TI("bool")));
    assert Rank(BooleanType) == 0;
    hide *;
    Leaves(TOP);
    SolidOr(TI("boolean"), TI("bool"), TOP);
    SolidIsSound(Alt(TI("boolean"), TI("bool")), TOP);
    SolidTag(Alt(TI("boolean"), TI("bool")), 0);
    OfSolid(g, BooleanType, 0);
  }

  lemma IntTypeIsSound(g: Reading)
    ensures IsSoundRule(g, IntType)
  {
    assert Body(g, IntType) == Tag(Alt(TI("integer"), TI("int")));
    assert Rank(IntType) == 0;
    hide *;
    Leaves(TOP);
    SolidOr(TI("integer"), TI("int"), TOP);
    SolidIsSound(Alt(TI("integer"), TI("int")), TOP);
    SolidTag(Alt(TI("integer"), TI("int")), 0);
    OfSolid(g, IntType, 0);
  }

  lemma EnumTypeIsSound(g: Reading)
    ensures IsSoundRule(g, EnumType)
  {
    assert Body(g, EnumType) == Tag(TI("enum"));
    assert Rank(EnumType) == 0;
    hide *;
    LeavesAreSound();
    SolidTag(TI("enum"), 0);
    OfSolid(g, EnumType, 0);
  }

  lemma ParamDelcEndIsSound(g: Reading)
    ensures IsSoundRule(g, ParamDelcEnd)
  {
    assert Body(g, ParamDelcEnd) == Ref(LineEnd);
    assert Rank(ParamDelcEnd) == 2 && IsNullableRule(ParamDelcEnd) && Rank(LineEnd) < 2;
    hide *;
    Leaves(2);
    OfNullable(g, ParamDelcEnd, 2);
  }

  lemma BooleanValueListIsSound(g: Reading)
    ensures IsSoundRule(g, BooleanValueList)
  {
    assert Body(g, BooleanValueList) == Seq(Ref(BooleanValue), Repeated(BooleanValue));
    assert Rank(BooleanValueList) == 3 && Rank(BooleanValue) < 3 && !IsNullableRule(BooleanValue);
    hide *;
    Leaves(3);
    SoundRepeated(BooleanValue);
    SolidThen(Ref(BooleanValue), Repeated(BooleanValue), 3);
    OfSolid(g, BooleanValueList, 3);
  }

  lemma EnumValueListIsSound(g: Reading)
    ensures IsSoundRule(g, EnumValueList)
  {
    assert Body(g, EnumValueList) == Seq(Ref(EnumValue), Repeated(EnumValue));
    assert Rank(EnumValueList) == 3 && Rank(EnumValue) < 3 && !IsNullableRule(EnumValue);
    hide *;
    Leaves(3);
    SoundRepeated(EnumValue);
    SolidThen(Ref(EnumValue), Repeated(EnumValue), 3);
    OfSolid(g, EnumValueList, 3);
  }

  lemma IntegerValueListIsSound(g: Reading)
    ensures IsSoundRule(g, IntegerValueList)
  {
    assert Body(g, IntegerValueList) == Seq(Ref(IntegerValue), Repeated(IntegerValue));
    assert Rank(IntegerValueList) == 3 && Rank(IntegerValue) < 3 && !IsNullableRule(IntegerValue);
    hide *;
    Leaves(3);
    SoundRepeated(IntegerValue);
    SolidThen(Ref(IntegerValue), Repeated(IntegerValue), 3);
    OfSolid(g, IntegerValueList, 3);
  }

  lemma RelParamNameListIsSound(g: Reading)
    ensures IsSoundRule(g, RelParamNameList)
  {
    assert Body(g, RelParamNameList) == Seq(Ref(RelParamName), Repeated(RelParamName));
    assert Rank(RelParamNameList) == 3 && Rank(RelParamName) < 3 && !IsNullableRule(RelParamName);
    hide *;
    Leaves(3);
    SoundRepeated(RelParamName);
    SolidThen(Ref(RelParamName), Repeated(RelParamName), 3);
    OfSolid(g, RelParamNameList, 3);
  }

  lemma BooleanValueIsSound(g: Reading)
    ensures IsSoundRule(g, BooleanValue)
  {
    assert Body(g, BooleanValue) == Alt(TI("true"), TI("false"));
    assert Rank(BooleanValue) == 2;
    hide *;
    Leaves(2);
    SolidOr(TI("true"), TI("false"), 2);
    OfSolid(g, BooleanValue, 2);
  }

  lemma ConstrBoolValueIsSound(g: Reading)
    ensures IsSoundRule(g, ConstrBoolValue)
  {
    assert Body(g, ConstrBoolValue) == Alt(TI("true"), TI("false"));
    assert Rank(ConstrBoolValue) == 0;
    hide *;
    Leaves(0);
    SolidOr(TI("true"), TI("false"), 0);
    OfSolid(g, ConstrBoolValue, 0);
  }

  lemma IntegerValueIsSound(g: Reading)
    ensures IsSoundRule(g, IntegerValue)
  {
    assert Body(g, IntegerValue) == SignedDigits();
    assert Rank(IntegerValue) == 2;
    hide *;
    SolidSignedDigits(2);
    OfSolid(g, IntegerValue, 2);
  }

  lemma ConstrIntValueIsSound(g: Reading)
    ensures IsSoundRule(g, ConstrIntValue)
  {
    assert Body(g, ConstrIntValue) == SignedDigits();
    assert Rank(ConstrIntValue) == 0;
    hide *;
    SolidSignedDigits(0);
    OfSolid(g, ConstrIntValue, 0);
  }

  lemma RelStrengthIsSound(g: Reading)
    ensures IsSoundRule(g, RelStrength)
  {
    assert Body(g, RelStrength) == Digits();
    assert Rank(RelStrength) == 0;
    hide *;
    SolidDigits(0);
    OfSolid(g, RelStrength, 0);
  }

  lemma EnumValueIsSound(g: Reading)
    ensures IsSoundRule(g, EnumValue)
  {
    hide *;
    var space, rest := EnumValueParts(g);
    EnumValueEnds(g, space, rest);
  }

  lemma EnumValueParts(g: Reading) returns (space: Peg, rest: Peg)
    ensures Body(g, EnumValue) == Seq(Except(space), Star(Except(rest))) && Rank(EnumValue) == 2
    ensures IsSolid(Except(space), 2) && IsSound(rest, TOP)
  {
    space, rest := Alt(T(","), Alt(T(";"), Alt(Ref(SpaceChar), Ref(Eol)))), Alt(T(","), Alt(T(";"), Ref(Eol)));
    assert Body(g, EnumValue) == Seq(Except(space), Star(Except(rest)));
    assert Rank(EnumValue) == 2 && Rank(SpaceChar) < 2 && !IsNullableRule(SpaceChar) && Rank(Eol) < 2 &&
      !IsNullableRule(Eol);
    hide *;
    StopsAreSound(space, rest);
    SolidExcept(space, 2);
  }

  lemma StopsAreSound(space: Peg, rest: Peg)
    requires space == Alt(T(","), Alt(T(";"), Alt(Ref(SpaceChar), Ref(Eol)))) && rest == Alt(T(","), Alt(T(";"), Ref(Eol)))
    requires Rank(SpaceChar) < 2 && !IsNullableRule(SpaceChar) && Rank(Eol) < 2 && !IsNullableRule(Eol)
    ensures IsSound(space, 2) && IsSound(rest, TOP)
  {
    hide *;
    Leaves(2);
    LeavesAreSound();
    SolidIsSound(T(","), 2);
    SolidIsSound(T(";"), 2);
    SoundOr3(T(";"), Ref(SpaceChar), Ref(Eol), 2);
    SoundOr(T(","), Alt(T(";"), Alt(Ref(SpaceChar), Ref(Eol))), 2);
    SoundOr3(T(","), T(";"), Ref(Eol), TOP);
  }

  lemma EnumValueEnds(g: Reading, space: Peg, rest: Peg)
    requires Body(g, EnumValue) == Seq(Except(space), Star(Except(rest))) && Rank(EnumValue) == 2
    requires IsSolid(Except(space), 2)
    requires IsSound(rest, TOP)
    ensures IsSoundRule(g, EnumValue)
  {
    hide *;
    SolidExcept(rest, TOP);
    SoundStar(Except(rest), TOP);
    SolidThen(Except(space), Star(Except(rest)), 2);
    OfSolid(g, EnumValue, 2);
  }

  lemma RelationSectionIsSound(g: Reading)
    ensures IsSoundRule(g, RelationSection)
  {
    assert Body(g, RelationSection) == Seq(Header("Relation"), Star(Ref(RelationRule)));
    assert Rank(RelationSection) == 11;
    assert !IsNullableRule(RelationRule);
    hide *;
    LeavesAreSound();
    SolidHeader("Relation");
    SolidTop(RelationRule);
    SoundStar(Ref(RelationRule), TOP);
    SolidThen(Header("Relation"), Star(Ref(RelationRule)), 11);
    OfSolid(g, RelationSection, 11);
  }

  lemma ConstraintSectionIsSound(g: Reading)
    ensures IsSoundRule(g, ConstraintSection)
  {
    assert Body(g, ConstraintSection) == Seq(Header("Constraint"), Star(Ref(ConstraintRule)));
    assert Rank(ConstraintSection) == 11;
    assert !IsNullableRule(ConstraintRule);
    hide *;
    LeavesAreSound();
    SolidHeader("Constraint");
    SolidTop(ConstraintRule);
    SoundStar(Ref(ConstraintRule), TOP);
    SolidThen(Header("Constraint"), Star(Ref(ConstraintRule)), 11);
    OfSolid(g, ConstraintSection, 11);
  }

  lemma RelationRuleIsSound(g: Reading)
    ensures IsSoundRule(g, RelationRule)
  {
    assert Body(g, RelationRule) == Then3(Then4(Then4(Then4(Ref(RelationName), Ref(Whitespace), T(":"),
      Ref(Whitespace), T("(")), Ref(Whitespace), Ref(RelParamNameList), Ref(Whitespace), T(",")), Ref(Whitespace),
      Ref(RelStrength), Ref(Whitespace), T(")")), Ref(Blanks), Ref(LineEnd), Ref(Spacing));
    assert Rank(RelationRule) == 5 && Rank(RelationName) < 5 && !IsNullableRule(RelationName);
    hide *;
    Leaves(5);
    LeavesAreSound();
    var head := Then4(Ref(RelationName), Ref(Whitespace), T(":"), Ref(Whitespace), T("("));
    var names := Then4(head, Ref(Whitespace), Ref(RelParamNameList), Ref(Whitespace), T(","));
    SolidThen4(Ref(RelationName), Ref(Whitespace), T(":"), Ref(Whitespace), T("("), 5);
    SolidThen4(head, Ref(Whitespace), Ref(RelParamNameList), Ref(Whitespace), T(","), 5);
    SolidThen4(names, Ref(Whitespace), Ref(RelStrength), Ref(Whitespace), T(")"), 5);
    SolidThen3(Then4(names, Ref(Whitespace), Ref(RelStrength), Ref(Whitespace), T(")")), Ref(Blanks), Ref(LineEnd), Ref(Spacing), 5);
    OfSolid(g, RelationRule, 5);
  }

  lemma RelationNameIsSound(g: Reading)
    ensures IsSoundRule(g, RelationName)
  {
    assert Body(g, RelationName) == Ref(Identifier);
    assert Rank(RelationName) == 1 && Rank(Identifier) < 1 && !IsNullableRule(Identifier);
    hide *;
    Leaves(1);
    OfSolid(g, RelationName, 1);
  }

  lemma RelParamNameIsSound(g: Reading)
    ensures IsSoundRule(g, RelParamName)
  {
    assert Body(g, RelParamName) == Ref(Identifier);
    assert Rank(RelParamName) == 2 && Rank(Identifier) < 2 && !IsNullableRule(Identifier);
    hide *;
    Leaves(2);
    OfSolid(g, RelParamName, 2);
  }

  lemma ConstrParamNameIsSound(g: Reading)
    ensures IsSoundRule(g, ConstrParamName)
  {
    assert Body(g, ConstrParamName) == Ref(Identifier);
    assert Rank(ConstrParamName) == 1 && Rank(Identifier) < 1 && !IsNullableRule(Identifier);
    hide *;
    Leaves(1);
    OfSolid(g, ConstrParamName, 1);
  }

  lemma ConstraintRuleIsSound(g: Reading)
    ensures IsSoundRule(g, ConstraintRule)
  {
    assert Body(g, ConstraintRule) == Then3(Ref(Implication), Ref(Blanks), Ref(ConstraintEnd), Ref(Spacing));
    assert Rank(ConstraintRule) == 10 && Rank(Implication) < 10 && !IsNullableRule(Implication);
    hide *;
    Leaves(10);
    LeavesAreSound();
    SolidThen3(Ref(Implication), Ref(Blanks), Ref(ConstraintEnd), Ref(Spacing), 10);
    OfSolid(g, ConstraintRule, 10);
  }

  lemma ConstraintEndIsSound(g: Reading)
    ensures IsSoundRule(g, ConstraintEnd)
  {
    assert Body(g, ConstraintEnd) == Ref(LineEnd);
    assert Rank(ConstraintEnd) == 2 && IsNullableRule(ConstraintEnd) && Rank(LineEnd) < 2;
    hide *;
    Leaves(2);
    OfNullable(g, ConstraintEnd, 2);
  }

  lemma ImplicationIsSound(g: Reading)
    ensures IsSoundRule(g, Implication)
  {
    assert Body(g, Implication) == Seq(Ref(OrExpr), Opt(Infixed("=>", OrExpr)));
    assert Rank(Implication) == 9 && Rank(OrExpr) < 9 && !IsNullableRule(OrExpr);
    hide *;
    Leaves(9);
    SolidInfixed("=>", OrExpr, TOP);
    SolidIsSound(Infixed("=>", OrExpr), TOP);
    SoundOpt(Infixed("=>", OrExpr), TOP);
    SolidThen(Ref(OrExpr), Opt(Infixed("=>", OrExpr)), 9);
    OfSolid(g, Implication, 9);
  }

  lemma OrExprIsSound(g: Reading)
    ensures IsSoundRule(g, OrExpr)
  {
    assert Body(g, OrExpr) == Seq(Ref(AndExpr), Star(Infixed("||", AndExpr)));
    assert Rank(OrExpr) == 8 && Rank(AndExpr) < 8 && !IsNullableRule(AndExpr);
    hide *;
    Leaves(8);
    SolidInfixed("||", AndExpr, TOP);
    SoundStar(Infixed("||", AndExpr), TOP);
    SolidThen(Ref(AndExpr), Star(Infixed("||", AndExpr)), 8);
    OfSolid(g, OrExpr, 8);
  }

  lemma AndExprIsSound(g: Reading)
    ensures IsSoundRule(g, AndExpr)
  {
    assert Body(g, AndExpr) == Seq(Ref(Operand), Star(Infixed("&&", Operand)));
    assert Rank(AndExpr) == 7 && Rank(Operand) < 7 && !IsNullableRule(Operand);
    hide *;
    Leaves(7);
    SolidInfixed("&&", Operand, TOP);
    SoundStar(Infixed("&&", Operand), TOP);
    SolidThen(Ref(Operand), Star(Infixed("&&", Operand)), 7);
    OfSolid(g, AndExpr, 7);
  }

  lemma OperandIsSound(g: Reading)
    ensures IsSoundRule(g, Operand)
  {
    assert Body(g, Operand) == Alt(Then4(T("("), Ref(Blanks), Ref(Implication), Ref(Blanks), T(")")),
      Ref(AtomicProp));
    assert Rank(Operand) == 6 && Rank(AtomicProp) < 6 && !IsNullableRule(AtomicProp);
    hide *;
    Leaves(6);
    LeavesAreSound();
    SolidThen4(T("("), Ref(Blanks), Ref(Implication), Ref(Blanks), T(")"), 6);
    SolidOr(Then4(T("("), Ref(Blanks), Ref(Implication), Ref(Blanks), T(")")), Ref(AtomicProp), 6);
    OfSolid(g, Operand, 6);
  }

  lemma AtomicPropIsSound(g: Reading)
    ensures IsSoundRule(g, AtomicProp)
  {
    assert Body(g, AtomicProp) == Then4(Ref(ConstrParamName), Ref(Blanks), Ref(RelOp), Ref(Blanks), Ref(ConstrValue));
    assert Rank(AtomicProp) == 5 && Rank(ConstrParamName) < 5 && !IsNullableRule(ConstrParamName);
    hide *;
    Leaves(5);
    LeavesAreSound();
    SolidThen4(Ref(ConstrParamName), Ref(Blanks), Ref(RelOp), Ref(Blanks), Ref(ConstrValue), 5);
    OfSolid(g, AtomicProp, 5);
  }

  lemma RelOpIsSound(g: Reading)
    ensures IsSoundRule(g, RelOp)
  {
    assert Body(g, RelOp) == Alt(T("="), Alt(T("!="), Alt(T(">="), Alt(T("<="), Alt(T(">"), T("<"))))));
    assert Rank(RelOp) == 0;
    hide *;
    Leaves(0);
    SolidOr(T(">"), T("<"), 0);
    SolidOr(T("<="), Alt(T(">"), T("<")), 0);
    SolidOr(T(">="), Alt(T("<="), Alt(T(">"), T("<"))), 0);
    SolidOr(T("!="), Alt(T(">="), Alt(T("<="), Alt(T(">"), T("<")))), 0);
    SolidOr(T("="), Alt(T("!="), Alt(T(">="), Alt(T("<="), Alt(T(">"), T("<"))))), 0);
    OfSolid(g, RelOp, 0);
  }

  lemma ConstrValueIsSound(g: Reading)
    ensures IsSoundRule(g, ConstrValue)
  {
    assert Body(g, ConstrValue) == Alt(Ref(ConstrBoolValue), Alt(Ref(ConstrIntValue), Ref(ConstrEnumValue)));
    assert Rank(ConstrValue) == 4 && Rank(ConstrBoolValue) < 4 && !IsNullableRule(ConstrBoolValue) &&
      Rank(ConstrIntValue) < 4 && !IsNullableRule(ConstrIntValue) && Rank(ConstrEnumValue) < 4 &&
      !IsNullableRule(ConstrEnumValue);
    hide *;
    Leaves(4);
    SolidOr(Ref(ConstrIntValue), Ref(ConstrEnumValue), 4);
    SolidOr(Ref(ConstrBoolValue), Alt(Ref(ConstrIntValue), Ref(ConstrEnumValue)), 4);
    OfSolid(g, ConstrValue, 4);
  }

  lemma QuotedStopsAreSound()
    ensures IsSound(Alt(T(","), Alt(T(";"), Alt(T("\""), Alt(Ref(SpaceChar), Ref(Eol))))), TOP)
    ensures IsSound(Alt(T(","), Alt(T(";"), Alt(T("\""), Ref(Eol)))), TOP)
  {
    hide IsSound, IsNullable, Rank;
    LeavesAreSound();
    SoundOr3(T("\""), Ref(SpaceChar), Ref(Eol), TOP);
    SoundOr3(T(","), T(";"), Alt(T("\""), Alt(Ref(SpaceChar), Ref(Eol))), TOP);
    SoundOr3(T(";"), T("\""), Ref(Eol), TOP);
    SoundOr(T(","), Alt(T(";"), Alt(T("\""), Ref(Eol))), TOP);
  }

  lemma ConstrEnumValueIsSound(g: Reading)
    ensures IsSoundRule(g, ConstrEnumValue)
  {
    assert Body(g, ConstrEnumValue) == Then3(T("\""), Except(Alt(T(","), Alt(T(";"), Alt(T("\""), Alt(Ref(SpaceChar),
      Ref(Eol)))))), Star(Except(Alt(T(","), Alt(T(";"), Alt(T("\""), Ref(Eol)))))), T("\""));
    assert Rank(ConstrEnumValue) == 2;
    hide *;
    Leaves(2);
    LeavesAreSound();
    var first := Alt(T(","), Alt(T(";"), Alt(T("\""), Alt(Ref(SpaceChar), Ref(Eol)))));
    var rest := Alt(T(","), Alt(T(";"), Alt(T("\""), Ref(Eol))));
    QuotedStopsAreSound();
    SolidExcept(first, TOP);
    SolidIsSound(Except(first), TOP);
    SolidExcept(rest, TOP);
    SoundStar(Except(rest), TOP);
    SolidThen3(T("\""), Except(first), Star(Except(rest)), T("\""), 2);
    OfSolid(g, ConstrEnumValue, 2);
  }

  lemma IdentifierIsSound(g: Reading)
    ensures IsSoundRule(g, Identifier)
  {
    assert Body(g, Identifier) == Seq(Class(CharClass.IdentifierStart), Star(Class(CharClass.IdentifierChar)));
    assert Rank(Identifier) == 0;
    hide *;
    Leaves(0);
    Leaves(TOP);
    SoundStar(Class(CharClass.IdentifierChar), TOP);
    SolidThen(Class(CharClass.IdentifierStart), Star(Class(CharClass.IdentifierChar)), 0);
    OfSolid(g, Identifier, 0);
  }

  lemma SpacingIsSound(g: Reading)
    ensures IsSoundRule(g, Spacing)
  {
    assert Body(g, Spacing) == Star(Alt(Class(CharClass.White), Ref(LineComment)));
    assert Rank(Spacing) == 3 && IsNullableRule(Spacing) && Rank(LineComment) < 3 && !IsNullableRule(LineComment);
    hide *;
    Leaves(3);
    SolidOr(Class(CharClass.White), Ref(LineComment), 3);
    SoundStar(Alt(Class(CharClass.White), Ref(LineComment)), 3);
    OfNullable(g, Spacing, 3);
  }

  lemma WhitespaceIsSound(g: Reading)
    ensures IsSoundRule(g, Whitespace)
  {
    assert Body(g, Whitespace) == Star(Class(CharClass.White));
    assert Rank(Whitespace) == 0 && IsNullableRule(Whitespace);
    hide *;
    Leaves(0);
    SoundStar(Class(CharClass.White), 0);
    OfNullable(g, Whitespace, 0);
  }

  lemma BlanksIsSound(g: Reading)
    ensures IsSoundRule(g, Blanks)
  {
    assert Body(g, Blanks) == Star(Class(CharClass.Blank));
    assert Rank(Blanks) == 0 && IsNullableRule(Blanks);
    hide *;
    Leaves(0);
    SoundStar(Class(CharClass.Blank), 0);
    OfNullable(g, Blanks, 0);
  }

  lemma SpaceCharIsSound(g: Reading)
    ensures IsSoundRule(g, SpaceChar)
  {
    assert Body(g, SpaceChar) == Alt(T(" "), T("\t"));
    assert Rank(SpaceChar) == 0;
    hide *;
    Leaves(0);
    SolidOr(T(" "), T("\t"), 0);
    OfSolid(g, SpaceChar, 0);
  }

  lemma EolIsSound(g: Reading)
    ensures IsSoundRule(g, Eol)
  {
    assert Body(g, Eol) == Alt(T("\r\n"), Alt(T("\n"), T("\r")));
    assert Rank(Eol) == 0;
    hide *;
    Leaves(0);
    SolidOr(T("\n"), T("\r"), 0);
    SolidOr(T("\r\n"), Alt(T("\n"), T("\r")), 0);
    OfSolid(g, Eol, 0);
  }

  lemma LineEndIsSound(g: Reading)
    ensures IsSoundRule(g, LineEnd)
  {
    assert Body(g, LineEnd) == Alt(Ref(Eol), EndTest(g));
    assert Rank(LineEnd) == 1 && IsNullableRule(LineEnd) && Rank(Eol) < 1 && !IsNullableRule(Eol);
    hide *;
    Leaves(1);
    SolidIsSound(Ref(Eol), 1);
    SoundEnd(g, 1);
    SoundOr(Ref(Eol), EndTest(g), 1);
    OfNullable(g, LineEnd, 1);
  }

  lemma LineCommentIsSound(g: Reading)
    ensures IsSoundRule(g, LineComment)
  {
    assert Body(g, LineComment) == Then2(T("--"), Star(Except(Ref(Eol))), Not(Not(Ref(LineEnd))));
    assert Rank(LineComment) == 2;
    hide *;
    Leaves(2);
    LeavesAreSound();
    SolidExcept(Ref(Eol), TOP);
    SoundStar(Except(Ref(Eol)), TOP);
    SoundNotNot(Ref(LineEnd), TOP);
    SolidThen2(T("--"), Star(Except(Ref(Eol))), Not(Not(Ref(LineEnd))), 2);
    OfSolid(g, LineComment, 2);
  }

  lemma EveryRuleIsSound(g: Reading, r: Rule)
    ensures IsSoundRule(g, r)
  {
    hide *;
    match r
    case Root => RootIsSound(g);
    case SystemSection => SystemSectionIsSound(g);
    case SystemNameRule => SystemNameRuleIsSound(g);
    case SystemName => SystemNameIsSound(g);
    case ParameterSection => ParameterSectionIsSound(g);
    case ParameterRule => ParameterRuleIsSound(g);
    case BooleanParam => BooleanParamIsSound(g);
    case EnumParam => EnumParamIsSound(g);
    case IntParam => IntParamIsSound(g);
    case ParamName => ParamNameIsSound(g);
    case BooleanType => BooleanTypeIsSound(g);
    case IntType => IntTypeIsSound(g);
    case EnumType => EnumTypeIsSound(g);
    case ParamDelcEnd => ParamDelcEndIsSound(g);
    case BooleanValueList => BooleanValueListIsSound(g);
    case EnumValueList => EnumValueListIsSound(g);
    case IntegerValueList => IntegerValueListIsSound(g);
    case RelParamNameList => RelParamNameListIsSound(g);
    case BooleanValue => BooleanValueIsSound(g);
    case ConstrBoolValue => ConstrBoolValueIsSound(g);
    case IntegerValue => IntegerValueIsSound(g);
    case ConstrIntValue => ConstrIntValueIsSound(g);
    case RelStrength => RelStrengthIsSound(g);
    case EnumValue => EnumValueIsSound(g);
    case RelationSection => RelationSectionIsSound(g);
    case ConstraintSection => ConstraintSectionIsSound(g);
    case RelationRule => RelationRuleIsSound(g);
    case RelationName => RelationNameIsSound(g);
    case RelParamName => RelParamNameIsSound(g);
    case ConstrParamName => ConstrParamNameIsSound(g);
    case ConstraintRule => ConstraintRuleIsSound(g);
    case ConstraintEnd => ConstraintEndIsSound(g);
    case Implication => ImplicationIsSound(g);
    case OrExpr => OrExprIsSound(g);
    case AndExpr => AndExprIsSound(g);
    case Operand => OperandIsSound(g);
    case AtomicProp => AtomicPropIsSound(g);
    case RelOp => RelOpIsSound(g);
    case ConstrValue => ConstrValueIsSound(g);
    case ConstrEnumValue => ConstrEnumValueIsSound(g);
    case Identifier => IdentifierIsSound(g);
    case Spacing => SpacingIsSound(g);
    case Whitespace => WhitespaceIsSound(g);
    case Blanks => BlanksIsSound(g);
    case SpaceChar => SpaceCharIsSound(g);
    case Eol => EolIsSound(g);
    case LineEnd => LineEndIsSound(g);
    case LineComment => LineCommentIsSound(g);
  }

  /** In both readings, every rule comes to an end at every position of every text. */
  lemma GrammarEnds(g: Reading, r: Rule, s: string, i: nat)
    requires i <= |s|
    ensures Eval(g, Ref(r), s, i, TOP) != Stuck
  {
    hide *;
    forall q ensures IsSoundRule(g, q) { EveryRuleIsSound(g, q); }
    LeavesAreSound();
    Ends(g, Ref(r), s, i, TOP);
  }
}
