/** The rules recognise exactly what the PEG describes. */
module GrammarProof {
  import opened Text
  import opened Acts
  import opened Grammar
  import R = Rules

  /** What a rule's outcome is for a recogniser. */
  function Recognised<A>(o: R.Outcome<A>): Result
    requires !o.Abort?
  {
    if o.Match? then Ok(o.pos) else Fail
  }

  function Located(o: Option<nat>): Result {
    match o case Some(j) => Ok(j) case None => Fail
  }

  /** Continue with `e` where the evaluation so far, started at `i`, has ended. */
  function Continue(so: Result, e: Peg, s: string, i: nat, rank: nat): (r: Result)
    requires so.Ok? ==> i <= so.pos <= |s|
    ensures r.Ok? ==> i <= r.pos <= |s|
  {
    match so case Ok(j) => Eval(Parsed, e, s, j, After(i, j, rank)) case _ => so
  }

  lemma Enter(rule: Rule, s: string, i: nat, r: nat)
    requires i <= |s| && Rank(rule) < r
    ensures Eval(Parsed, Ref(rule), s, i, r) == Eval(Parsed, Body(Parsed, rule), s, i, Rank(rule))
  {
    hide Body;
  }

  lemma Choice(a: Peg, b: Peg, s: string, i: nat, r: nat)
    requires i <= |s|
    ensures Eval(Parsed, Alt(a, b), s, i, r) == match Eval(Parsed, a, s, i, r) case Fail => Eval(Parsed, b, s, i, r) case res => res
  {}

  lemma Maybe(a: Peg, s: string, i: nat, r: nat)
    requires i <= |s|
    ensures Eval(Parsed, Opt(a), s, i, r) == match Eval(Parsed, a, s, i, r) case Fail => Ok(i) case res => res
  {}

  lemma Sequence(p: Peg, a: Peg, s: string, i: nat, r: nat)
    requires i <= |s|
    ensures Eval(Parsed, Seq(p, a), s, i, r) == Continue(Eval(Parsed, p, s, i, r), a, s, i, r)
  {}

  lemma Sequence2(p: Peg, a: Peg, b: Peg, s: string, i: nat, r: nat)
    requires i <= |s|
    ensures Eval(Parsed, Then2(p, a, b), s, i, r) == Continue(Continue(Eval(Parsed, p, s, i, r), a, s, i, r), b, s, i, r)
  {
    Sequence(p, a, s, i, r);
    Sequence(Seq(p, a), b, s, i, r);
  }

  lemma Sequence3(p: Peg, a: Peg, b: Peg, c: Peg, s: string, i: nat, r: nat)
    requires i <= |s|
    ensures Eval(Parsed, Then3(p, a, b, c), s, i, r) ==
            Continue(Continue(Continue(Eval(Parsed, p, s, i, r), a, s, i, r), b, s, i, r), c, s, i, r)
  {
    Sequence2(p, a, b, s, i, r);
    Sequence(Then2(p, a, b), c, s, i, r);
  }

  lemma Sequence4(p: Peg, a: Peg, b: Peg, c: Peg, d: Peg, s: string, i: nat, r: nat)
    requires i <= |s|
    ensures Eval(Parsed, Then4(p, a, b, c, d), s, i, r) ==
            Continue(Continue(Continue(Continue(Eval(Parsed, p, s, i, r), a, s, i, r), b, s, i, r), c, s, i, r), d, s, i, r)
  {
    Sequence2(p, a, b, s, i, r);
    Sequence2(Then2(p, a, b), c, d, s, i, r);
  }

  // ---- Lexical rules ------------------------------------------------------------------

  lemma {:induction false} RunStar(cls: CharClass, s: string, i: nat, r: nat)
    requires i <= |s|
    ensures Eval(Parsed, Star(Class(cls)), s, i, r) == Ok(R.SkipRun(cls, s, i))
    decreases |s| - i
  {
    assert Eval(Parsed, Class(cls), s, i, r) == if i < |s| && InClass(cls, s[i]) then Ok(i + 1) else Fail;
    if i < |s| && InClass(cls, s[i]) { RunStar(cls, s, i + 1, TOP); }
  }

  lemma EolRule(s: string, i: nat, r: nat)
    requires i <= |s| && r > 0
    ensures Eval(Parsed, Ref(Eol), s, i, r) == Located(R.Eol(s, i))
    ensures Eval(Parsed, Ref(Eol), s, i, r).Ok? <==> i < |s| && (s[i] == '\n' || s[i] == '\r')
  {
    Enter(Eol, s, i, r);
    AtChar(s, i, "\n");
    AtChar(s, i, "\r");
    AtPair(s, i, "\r\n");
    hide At;
    Choice(T("\r\n"), Alt(T("\n"), T("\r")), s, i, 0);
    Choice(T("\n"), T("\r"), s, i, 0);
  }

  lemma AtChar(s: string, i: nat, t: string)
    requires |t| == 1
    ensures At(s, i, t) <==> i < |s| && s[i] == t[0]
  {
    assert At(s, i, t) ==> s[i + 0] == t[0];
  }

  lemma AtPair(s: string, i: nat, t: string)
    requires |t| == 2
    ensures At(s, i, t) <==> i + 1 < |s| && s[i] == t[0] && s[i + 1] == t[1]
  {
    assert At(s, i, t) ==> s[i + 0] == t[0] && s[i + 1] == t[1];
  }

  lemma LineEndRule(s: string, i: nat, r: nat)
    requires i <= |s| && r > 1
    ensures Eval(Parsed, Ref(LineEnd), s, i, r) == Recognised(R.LineEnd(s, i))
  {
    EolRule(s, i, Rank(LineEnd));
    hide R.Eol;
    assert Eval(Parsed, End, s, i, Rank(LineEnd)) == if i == |s| then Ok(i) else Fail;
    assert Body(Parsed, LineEnd) == Alt(Ref(Eol), End);
  }

  /** `e` matches exactly one code point that starts with no character of `stop`. */
  ghost predicate SkipsOne(e: Peg, stop: string, s: string) {
    forall i: nat, r: nat | i <= |s| && r > 0 :: Eval(Parsed, e, s, i, r) == Located(R.AnyExcept(stop, s, i))
  }

  ghost predicate Stops(e: Peg, stop: string, s: string) {
    forall i: nat, r: nat | i <= |s| && r > 0 ::
      Eval(Parsed, e, s, i, r) != Stuck && (Eval(Parsed, e, s, i, r).Ok? <==> i < |s| && s[i] in stop)
  }

  lemma ExceptSkips(e: Peg, stop: string, s: string)
    requires Stops(e, stop, s)
    ensures SkipsOne(Except(e), stop, s)
  {
    forall i: nat, r: nat | i <= |s| && r > 0
      ensures Eval(Parsed, Except(e), s, i, r) == Located(R.AnyExcept(stop, s, i))
    {
      Sequence(Not(e), Any, s, i, r);
      assert Eval(Parsed, Not(e), s, i, r) == if Eval(Parsed, e, s, i, r).Ok? then Fail else Ok(i);
    }
  }

  lemma {:induction false} TextStar(e: Peg, stop: string, s: string, i: nat, r: nat)
    requires SkipsOne(e, stop, s) && i <= |s| && r > 0
    ensures Eval(Parsed, Star(e), s, i, r) == Ok(SkipText(stop, s, i))
    decreases |s| - i
  {
    var one := R.AnyExcept(stop, s, i);
    assert Eval(Parsed, e, s, i, r) == Located(one);
    if one.Some? { TextStar(e, stop, s, one.value, TOP); }
  }

  lemma EolStops(s: string)
    ensures Stops(Ref(Eol), "\n\r", s)
  {
    forall i: nat, r: nat | i <= |s| && r > 0
      ensures Eval(Parsed, Ref(Eol), s, i, r) != Stuck && (Eval(Parsed, Ref(Eol), s, i, r).Ok? <==> i < |s| && s[i] in "\n\r")
    {
      EolRule(s, i, r);
    }
  }

  lemma SpaceStops(s: string)
    ensures Stops(Ref(SpaceChar), " \t", s)
  {
    forall i: nat, r: nat | i <= |s| && r > 0
      ensures Eval(Parsed, Ref(SpaceChar), s, i, r) != Stuck && (Eval(Parsed, Ref(SpaceChar), s, i, r).Ok? <==> i < |s| && s[i] in " \t")
    {
      Enter(SpaceChar, s, i, r);
      AtChar(s, i, " ");
      AtChar(s, i, "\t");
      hide At;
      Choice(T(" "), T("\t"), s, i, 0);
    }
  }

  lemma CharStops(t: Ascii, s: string)
    requires |t| == 1
    ensures Stops(T(t), t, s)
  {
    forall i: nat, r: nat | i <= |s| && r > 0
      ensures Eval(Parsed, T(t), s, i, r) != Stuck && (Eval(Parsed, T(t), s, i, r).Ok? <==> i < |s| && s[i] in t)
    {
      AtChar(s, i, t);
    }
  }

  lemma OrStops(e: Peg, f: Peg, stop: string, more: string, s: string)
    requires Stops(e, stop, s) && Stops(f, more, s)
    ensures Stops(Alt(e, f), stop + more, s)
  {
    forall i: nat, r: nat | i <= |s| && r > 0
      ensures Eval(Parsed, Alt(e, f), s, i, r) != Stuck && (Eval(Parsed, Alt(e, f), s, i, r).Ok? <==> i < |s| && s[i] in stop + more)
    {
      assert Eval(Parsed, e, s, i, r) != Stuck && Eval(Parsed, f, s, i, r) != Stuck;
    }
  }

  lemma WhitespaceRule(s: string, i: nat, r: nat)
    requires i <= |s| && r > 0
    ensures Eval(Parsed, Ref(Whitespace), s, i, r) == Ok(R.Whitespace(s, i))
  {
    Enter(Whitespace, s, i, r);
    RunStar(CharClass.White, s, i, 0);
  }

  lemma BlanksRule(s: string, i: nat, r: nat)
    requires i <= |s| && r > 0
    ensures Eval(Parsed, Ref(Blanks), s, i, r) == Ok(R.Spaces(s, i))
  {
    Enter(Blanks, s, i, r);
    RunStar(CharClass.Blank, s, i, 0);
  }

  lemma CommentRule(s: string, i: nat, r: nat)
    requires i <= |s| && r > 2
    ensures Eval(Parsed, Ref(LineComment), s, i, r) == Located(R.LineComment(s, i))
  {
    Enter(LineComment, s, i, r);
    Sequence2(T("--"), Star(Except(Ref(Eol))), Not(Not(Ref(LineEnd))), s, i, 2);
    assert Eval(Parsed, T("--"), s, i, 2) == Recognised(R.Lit(s, i, "--"));
    if At(s, i, "--") { CommentTail(s, i + 2); }
    hide Eval, At, SkipText;
  }

  lemma CommentTail(s: string, i: nat)
    requires i <= |s|
    ensures Eval(Parsed, Star(Except(Ref(Eol))), s, i, TOP) == Ok(SkipText("\n\r", s, i))
    ensures var j := SkipText("\n\r", s, i);
            Eval(Parsed, Not(Not(Ref(LineEnd))), s, j, TOP) == if j < |s| && s[j] !in "\n\r" then Fail else Ok(j)
  {
    EolStops(s);
    ExceptSkips(Ref(Eol), "\n\r", s);
    TextStar(Except(Ref(Eol)), "\n\r", s, i, TOP);
    var j := SkipText("\n\r", s, i);
    LineEndRule(s, j, TOP);
    LineEndAt(s, j);
    hide SkipText, Stops, SkipsOne, R.LineEnd;
    assert Eval(Parsed, Not(Ref(LineEnd)), s, j, TOP) == if R.LineEnd(s, j).Match? then Fail else Ok(j);
  }

  lemma LineEndAt(s: string, j: nat)
    requires j <= |s|
    ensures R.LineEnd(s, j).Match? <==> j == |s| || s[j] in "\n\r"
  {}

  lemma {:induction false} SpacingRule(s: string, i: nat, r: nat)
    requires i <= |s| && r > 3
    ensures Eval(Parsed, Ref(Spacing), s, i, r) == Ok(R.Spacing(s, i))
  {
    Enter(Spacing, s, i, r);
    SpacingStar(s, i, 3);
  }

  lemma {:induction false} SpacingStar(s: string, i: nat, r: nat)
    requires i <= |s| && r >= 3
    ensures Eval(Parsed, Star(Alt(Class(CharClass.White), Ref(LineComment))), s, i, r) == Ok(R.Spacing(s, i))
    decreases |s| - i
  {
    Choice(Class(CharClass.White), Ref(LineComment), s, i, r);
    CommentRule(s, i, r);
    hide R.LineComment;
    if i < |s| && InClass(CharClass.White, s[i]) {
      SpacingStar(s, i + 1, TOP);
    } else if i < |s| && R.LineComment(s, i).Some? {
      SpacingStar(s, R.LineComment(s, i).value, TOP);
    } else if i == |s| {
      assert R.LineComment(s, i) == None by { NoCommentAtEnd(s); }
    }
  }

  lemma NoCommentAtEnd(s: string)
    ensures R.LineComment(s, |s|) == None
  {}

  lemma IdentifierRule(s: string, i: nat, r: nat)
    requires i <= |s| && r > 0
    ensures Eval(Parsed, Ref(Identifier), s, i, r) == Recognised(R.Identifier(s, i))
  {
    Enter(Identifier, s, i, r);
    Sequence(Class(CharClass.IdentifierStart), Star(Class(CharClass.IdentifierChar)), s, i, 0);
    if i < |s| { RunStar(CharClass.IdentifierChar, s, i + 1, TOP); }
  }

  /** A rule that only names another one. */
  lemma AliasRule(alias: Rule, rule: Rule, s: string, i: nat, r: nat)
    requires i <= |s| && Body(Parsed, alias) == Ref(rule) && Rank(rule) < Rank(alias) < r
    ensures Eval(Parsed, Ref(alias), s, i, r) == Eval(Parsed, Ref(rule), s, i, Rank(alias))
  {
    Enter(alias, s, i, r);
  }

  lemma DigitsPeg(s: string, i: nat, r: nat)
    requires i <= |s|
    ensures Eval(Parsed, Digits(), s, i, r) == if R.SkipRun(CharClass.Digit, s, i) == i then Fail else Ok(R.SkipRun(CharClass.Digit, s, i))
  {
    Sequence(Class(CharClass.Digit), Star(Class(CharClass.Digit)), s, i, r);
    if i < |s| { RunStar(CharClass.Digit, s, i + 1, TOP); }
  }

  lemma SignedDigitsPeg(s: string, i: nat, r: nat)
    requires i <= |s| && !R.Integer(s, i).Abort?
    ensures Eval(Parsed, SignedDigits(), s, i, r) == Recognised(R.Integer(s, i))
  {
    Sequence(Opt(Class(CharClass.Sign)), Digits(), s, i, r);
    Maybe(Class(CharClass.Sign), s, i, r);
    var j := if i < |s| && InClass(CharClass.Sign, s[i]) then i + 1 else i;
    DigitsPeg(s, j, After(i, j, r));
  }

  // ---- What follows once the lexical rules are known -------------------------------------

  ghost predicate Lexical(s: string) {
    && (forall i: nat, r: nat | i <= |s| && r > 0 :: Eval(Parsed, Ref(Whitespace), s, i, r) == Ok(R.Whitespace(s, i)))
    && (forall i: nat, r: nat | i <= |s| && r > 0 :: Eval(Parsed, Ref(Blanks), s, i, r) == Ok(R.Spaces(s, i)))
    && (forall i: nat, r: nat | i <= |s| && r > 1 :: Eval(Parsed, Ref(LineEnd), s, i, r) == Recognised(R.LineEnd(s, i)))
    && (forall i: nat, r: nat | i <= |s| && r > 3 :: Eval(Parsed, Ref(Spacing), s, i, r) == Ok(R.Spacing(s, i)))
    && (forall i: nat, r: nat | i <= |s| && r > 0 :: Eval(Parsed, Ref(Identifier), s, i, r) == Recognised(R.Identifier(s, i)))
    && (forall i: nat, r: nat, t: Ascii | i <= |s| :: Eval(Parsed, T(t), s, i, r) == Recognised(R.Lit(s, i, t)))
    && (forall i: nat, r: nat, t: Ascii | i <= |s| :: Eval(Parsed, TI(t), s, i, r) == Recognised(R.LitI(s, i, t)))
  }

  lemma LexicalRules(s: string)
    ensures Lexical(s)
  {
    forall i: nat, r: nat | i <= |s| && r > 0 ensures Eval(Parsed, Ref(Whitespace), s, i, r) == Ok(R.Whitespace(s, i)) {
      WhitespaceRule(s, i, r);
    }
    forall i: nat, r: nat | i <= |s| && r > 0 ensures Eval(Parsed, Ref(Blanks), s, i, r) == Ok(R.Spaces(s, i)) {
      BlanksRule(s, i, r);
    }
    forall i: nat, r: nat | i <= |s| && r > 1 ensures Eval(Parsed, Ref(LineEnd), s, i, r) == Recognised(R.LineEnd(s, i)) {
      LineEndRule(s, i, r);
    }
    forall i: nat, r: nat | i <= |s| && r > 3 ensures Eval(Parsed, Ref(Spacing), s, i, r) == Ok(R.Spacing(s, i)) {
      SpacingRule(s, i, r);
    }
    forall i: nat, r: nat | i <= |s| && r > 0 ensures Eval(Parsed, Ref(Identifier), s, i, r) == Recognised(R.Identifier(s, i)) {
      IdentifierRule(s, i, r);
    }
  }

  lemma HeaderPeg(s: string, i: nat, r: nat, name: Ascii)
    requires i <= |s| && TOP >= r > 3
    ensures Eval(Parsed, Header(name), s, i, r) == Recognised(R.SectionHeader(s, i, name))
  {
    BracketedPeg(s, i, r, name);
    LexicalRules(s);
    Sequence3(Then4(T("["), Ref(Whitespace), TI(name), Ref(Whitespace), T("]")), Ref(Blanks), Ref(LineEnd), Ref(Spacing), s, i, r);
    hide Eval, R.Bracketed, R.Spaces, R.LineEnd, R.Spacing;
  }

  lemma BracketedPeg(s: string, i: nat, r: nat, name: Ascii)
    requires i <= |s| && TOP >= r > 3
    ensures Eval(Parsed, Then4(T("["), Ref(Whitespace), TI(name), Ref(Whitespace), T("]")), s, i, r) ==
            Recognised(R.Bracketed(s, i, name))
  {
    LexicalRules(s);
    Sequence4(T("["), Ref(Whitespace), TI(name), Ref(Whitespace), T("]"), s, i, r);
    hide Eval, R.Lit, R.LitI, R.Whitespace;
  }

  lemma TagPeg(t: ParameterType, word: Peg, s: string, i: nat, r: nat)
    requires i <= |s|
    requires forall j: nat, q: nat | j <= |s| :: Eval(Parsed, word, s, j, q) == Recognised(R.ParameterTypeName(t, s, j))
    ensures Eval(Parsed, Tag(word), s, i, r) == Recognised(R.TypeTag(t, s, i))
  {
    LexicalRules(s);
    Sequence4(T("("), Ref(Whitespace), word, Ref(Whitespace), T(")"), s, i, r);
    hide Eval, R.Lit, R.ParameterTypeName, R.Whitespace;
  }

  // ---- Lists of values -------------------------------------------------------------------

  function ElementRule(kind: R.ElementKind): Rule {
    match kind
    case BooleanElement => BooleanValue
    case EnumElement => Rule.EnumValue
    case IntegerElement => IntegerValue
    case NameElement => RelParamName
  }

  function ListRule(kind: R.ElementKind): Rule {
    match kind
    case BooleanElement => BooleanValueList
    case EnumElement => EnumValueList
    case IntegerElement => IntegerValueList
    case NameElement => RelParamNameList
  }

  lemma BooleanPeg(s: string, i: nat, r: nat)
    requires i <= |s|
    ensures Eval(Parsed, Alt(TI("true"), TI("false")), s, i, r) == Recognised(R.EitherI(s, i, "true", "false"))
    ensures Recognised(R.EitherI(s, i, "true", "false")) == Recognised(R.Element(R.BooleanElement, s, i, {}))
  {
    Choice(TI("true"), TI("false"), s, i, r);
    hide AtI;
  }

  /** The stop characters of an enum value in a declaration. */
  lemma EnumValueStops(s: string)
    ensures Stops(Alt(T(","), Alt(T(";"), Alt(Ref(SpaceChar), Ref(Eol)))), ",; \t\n\r", s)
    ensures Stops(Alt(T(","), Alt(T(";"), Ref(Eol))), ",;\n\r", s)
  {
    CharStops(",", s);
    CharStops(";", s);
    SpaceStops(s);
    EolStops(s);
    hide Stops;
    OrStops(T(";"), Ref(Eol), ";", "\n\r", s);
    OrStops(T(","), Alt(T(";"), Ref(Eol)), ",", ";" + "\n\r", s);
    assert "," + (";" + "\n\r") == ",;\n\r";
    OrStops(Ref(SpaceChar), Ref(Eol), " \t", "\n\r", s);
    OrStops(T(";"), Alt(Ref(SpaceChar), Ref(Eol)), ";", " \t" + "\n\r", s);
    OrStops(T(","), Alt(T(";"), Alt(Ref(SpaceChar), Ref(Eol))), ",", ";" + (" \t" + "\n\r"), s);
    assert "," + (";" + (" \t" + "\n\r")) == ",; \t\n\r";
  }

  lemma EnumValuePeg(s: string, i: nat, r: nat, ds: set<string>)
    requires i <= |s| && r > 2
    ensures Eval(Parsed, Ref(Rule.EnumValue), s, i, r) == Recognised(R.Element(R.EnumElement, s, i, ds))
  {
    var first := Except(Alt(T(","), Alt(T(";"), Alt(Ref(SpaceChar), Ref(Eol)))));
    var rest := Except(Alt(T(","), Alt(T(";"), Ref(Eol))));
    Enter(Rule.EnumValue, s, i, r);
    EnumValueStops(s);
    hide Eval, Stops, SkipsOne, Trimmed, R.AnyExcept, SkipText;
    ExceptSkips(Alt(T(","), Alt(T(";"), Alt(Ref(SpaceChar), Ref(Eol)))), ",; \t\n\r", s);
    ExceptSkips(Alt(T(","), Alt(T(";"), Ref(Eol))), ",;\n\r", s);
    Sequence(first, Star(rest), s, i, 2);
    Skipped(first, ",; \t\n\r", s, i, 2);
    var o := R.AnyExcept(",; \t\n\r", s, i);
    if o.Some? { TextStar(rest, ",;\n\r", s, o.value, TOP); }
  }

  lemma Skipped(e: Peg, stop: string, s: string, i: nat, r: nat)
    requires SkipsOne(e, stop, s) && i <= |s| && r > 0
    ensures Eval(Parsed, e, s, i, r) == Located(R.AnyExcept(stop, s, i))
  {}

  lemma ElementPeg(kind: R.ElementKind, s: string, i: nat, r: nat, ds: set<string>)
    requires i <= |s| && r > 2 && !R.Element(kind, s, i, ds).Abort?
    ensures Eval(Parsed, Ref(ElementRule(kind)), s, i, r) == Recognised(R.Element(kind, s, i, ds))
  {
    hide Eval, R.EitherI, R.Integer, R.Identifier, SkipText, R.AnyExcept, Trimmed;
    match kind {
      case BooleanElement => Enter(BooleanValue, s, i, r); BooleanPeg(s, i, 2);
      case EnumElement => EnumValuePeg(s, i, r, ds);
      case IntegerElement => Enter(IntegerValue, s, i, r); SignedDigitsPeg(s, i, 2);
      case NameElement => AliasRule(RelParamName, Rule.Identifier, s, i, r); IdentifierRule(s, i, 2);
    }
  }

  lemma NextElementPeg(kind: R.ElementKind, s: string, i: nat, r: nat, ds: set<string>)
    requires i <= |s| && r > 2 && !R.NextElement(kind, s, i, ds).Abort?
    ensures Eval(Parsed, Then3(Ref(Whitespace), T(","), Ref(Whitespace), Ref(ElementRule(kind))), s, i, r) ==
            Recognised(R.NextElement(kind, s, i, ds))
  {
    Sequence3(Ref(Whitespace), T(","), Ref(Whitespace), Ref(ElementRule(kind)), s, i, r);
    LexicalRules(s);
    hide Eval, R.Lit, R.Element, R.Whitespace;
    var o := R.Lit(s, R.Whitespace(s, i), ",");
    if o.Match? { ElementPeg(kind, s, R.Whitespace(s, o.pos), TOP, ds); }
  }

  lemma {:induction false} MoreElementsPeg(kind: R.ElementKind, s: string, i: nat, r: nat, ds: set<string>)
    requires i <= |s| && r > 2 && !R.MoreElements(kind, s, i, ds).Abort?
    ensures Eval(Parsed, Repeated(ElementRule(kind)), s, i, r) == Recognised(R.MoreElements(kind, s, i, ds))
    decreases |s| - i
  {
    hide R.NextElement;
    NextElementPeg(kind, s, i, r, ds);
    var o := R.NextElement(kind, s, i, ds);
    if o.Match? { MoreElementsPeg(kind, s, o.pos, TOP, ds); }
  }

  lemma ListPeg(kind: R.ElementKind, s: string, i: nat, r: nat, ds: set<string>)
    requires i <= |s| && r > 3 && !R.List(kind, s, i, ds).Abort?
    ensures Eval(Parsed, Ref(ListRule(kind)), s, i, r) == Recognised(R.List(kind, s, i, ds))
  {
    hide Eval, R.Element, R.MoreElements;
    Enter(ListRule(kind), s, i, r);
    Sequence(Ref(ElementRule(kind)), Repeated(ElementRule(kind)), s, i, 3);
    ElementPeg(kind, s, i, 3, ds);
    var o := R.Element(kind, s, i, ds);
    if o.Match? { MoreElementsPeg(kind, s, o.pos, TOP, ds); }
  }

  // ---- Parameters -------------------------------------------------------------------------

  function TagRule(t: ParameterType): Rule {
    match t
    case BOOLEAN => BooleanType
    case ENUM => EnumType
    case INTEGER => IntType
  }

  function Word(t: ParameterType): Peg {
    match t
    case BOOLEAN => Alt(TI("boolean"), TI("bool"))
    case ENUM => TI("enum")
    case INTEGER => Alt(TI("integer"), TI("int"))
  }

  lemma WordPeg(t: ParameterType, s: string, i: nat, r: nat)
    requires i <= |s|
    ensures Eval(Parsed, Word(t), s, i, r) == Recognised(R.ParameterTypeName(t, s, i))
  {
    Choice(TI("boolean"), TI("bool"), s, i, r);
    Choice(TI("integer"), TI("int"), s, i, r);
    hide AtI;
  }

  lemma TagRulePeg(t: ParameterType, s: string, i: nat, r: nat)
    requires i <= |s| && r > 0
    ensures Eval(Parsed, Ref(TagRule(t)), s, i, r) == Recognised(R.TypeTag(t, s, i))
  {
    Enter(TagRule(t), s, i, r);
    hide Eval, R.ParameterTypeName, R.TypeTag;
    forall j: nat, q: nat | j <= |s| ensures Eval(Parsed, Word(t), s, j, q) == Recognised(R.ParameterTypeName(t, s, j)) {
      WordPeg(t, s, j, q);
    }
    TagPeg(t, Word(t), s, i, 0);
  }

  function HeadPeg(tag: Rule): Peg { Then4(Ref(ParamName), Ref(Whitespace), Ref(tag), Ref(Whitespace), T(":")) }

  lemma ParameterHeadPeg(t: ParameterType, s: string, i: nat, r: nat)
    requires i <= |s| && r > 1
    ensures Eval(Parsed, HeadPeg(TagRule(t)), s, i, r) == Recognised(R.ParameterHead(t, s, i))
  {
    hide Eval, At, R.Identifier, R.Whitespace, R.TypeTag, TagRule, Body, Rank;
    Sequence4(Ref(ParamName), Ref(Whitespace), Ref(TagRule(t)), Ref(Whitespace), T(":"), s, i, r);
    NamePeg(s, i, r);
    var o := R.Identifier(s, i);
    if o.Match? {
      WhitespaceRule(s, o.pos, TOP);
      TagRulePeg(t, s, R.Whitespace(s, o.pos), TOP);
      var tag := R.TypeTag(t, s, R.Whitespace(s, o.pos));
      if tag.Match? { ThenLiteral(s, tag.pos, TOP, ":"); }
    }
  }

  lemma NamePeg(s: string, i: nat, r: nat)
    requires i <= |s| && r > 1
    ensures Eval(Parsed, Ref(ParamName), s, i, r) == Recognised(R.Identifier(s, i))
    ensures Eval(Parsed, Ref(RelationName), s, i, r) == Recognised(R.Identifier(s, i))
    ensures Eval(Parsed, Ref(ConstrParamName), s, i, r) == Recognised(R.Identifier(s, i))
  {
    hide Eval, R.Identifier;
    AliasRule(ParamName, Rule.Identifier, s, i, r);
    AliasRule(RelationName, Rule.Identifier, s, i, r);
    AliasRule(ConstrParamName, Rule.Identifier, s, i, r);
    IdentifierRule(s, i, 1);
  }

  /** White space and a literal. */
  lemma ThenLiteral(s: string, i: nat, r: nat, t: Ascii)
    requires i <= |s| && r > 0
    ensures var j := R.Whitespace(s, i);
            && Eval(Parsed, Ref(Whitespace), s, i, r) == Ok(j)
            && Eval(Parsed, T(t), s, j, After(i, j, r)) == Recognised(R.Lit(s, j, t))
  {
    WhitespaceRule(s, i, r);
  }

  lemma DeclarationPeg(t: ParameterType, s: string, i: nat, r: nat)
    requires i <= |s| && r > 1 && !R.ParameterOf(t, s, i).Abort?
    ensures var head := R.ParameterHead(t, s, i);
            Eval(Parsed, Declaration(TagRule(t), ListRule(R.KindOf(t))), s, i, r) ==
            if head.NoMatch? then Fail else Recognised(R.List(R.KindOf(t), s, R.Whitespace(s, head.pos), {}))
  {
    Sequence2(HeadPeg(TagRule(t)), Ref(Whitespace), Ref(ListRule(R.KindOf(t))), s, i, r);
    ParameterHeadPeg(t, s, i, r);
    LexicalRules(s);
    hide Eval, R.ParameterHead, R.List, R.Whitespace, TagRule, ListRule, R.LineEnd;
    var o := R.ParameterHead(t, s, i);
    if o.Match? { ListPeg(R.KindOf(t), s, R.Whitespace(s, o.pos), TOP, {}); }
  }

  lemma {:induction false} SpaceStar(s: string, i: nat, r: nat)
    requires i <= |s| && r > 0
    ensures Eval(Parsed, Star(Ref(SpaceChar)), s, i, r) == Ok(R.Spaces(s, i))
    decreases |s| - i
  {
    SpacePeg(s, i, r);
    if i < |s| && InClass(CharClass.Blank, s[i]) { SpaceStar(s, i + 1, TOP); }
  }

  lemma SpacePeg(s: string, i: nat, r: nat)
    requires i <= |s| && r > 0
    ensures Eval(Parsed, Ref(SpaceChar), s, i, r) == if i < |s| && InClass(CharClass.Blank, s[i]) then Ok(i + 1) else Fail
  {
    Enter(SpaceChar, s, i, r);
    AtChar(s, i, " ");
    AtChar(s, i, "\t");
    hide At;
    Choice(T(" "), T("\t"), s, i, 0);
  }

  function ParameterForm(t: ParameterType): Rule {
    match t
    case BOOLEAN => BooleanParam
    case ENUM => EnumParam
    case INTEGER => IntParam
  }

  lemma ParameterFormBody(t: ParameterType)
    ensures var d := Declaration(TagRule(t), ListRule(R.KindOf(t)));
            Body(Parsed, ParameterForm(t)) ==
            if t.ENUM? then Seq(d, Ref(ParamDelcEnd)) else Then2(d, Star(Ref(SpaceChar)), Ref(ParamDelcEnd))
    ensures Rank(ParameterForm(t)) == 4
  {}

  lemma ParameterFormPeg(t: ParameterType, s: string, i: nat, r: nat)
    requires i <= |s| && r > 4 && !R.ParameterOf(t, s, i).Abort?
    ensures Eval(Parsed, Ref(ParameterForm(t)), s, i, r) == Recognised(R.ParameterOf(t, s, i))
  {
    hide Eval, R.ParameterHead, R.List, R.Whitespace, R.Spaces, R.LineEnd, TagRule, ListRule, ParameterForm, Body, Rank, Declaration;
    var d := Declaration(TagRule(t), ListRule(R.KindOf(t)));
    ParameterFormBody(t);
    Enter(ParameterForm(t), s, i, r);
    DeclarationPeg(t, s, i, 4);
    Sequence(d, Ref(ParamDelcEnd), s, i, 4);
    Sequence2(d, Star(Ref(SpaceChar)), Ref(ParamDelcEnd), s, i, 4);
    var o := R.ParameterHead(t, s, i);
    if o.Match? {
      var l := R.List(R.KindOf(t), s, R.Whitespace(s, o.pos), {});
      if l.Match? {
        SpaceStar(s, l.pos, TOP);
        ParameterEnd(s, if t.ENUM? then l.pos else R.Spaces(s, l.pos), TOP);
      }
    }
  }

  lemma ParameterEnd(s: string, i: nat, r: nat)
    requires i <= |s| && r > 2
    ensures Eval(Parsed, Ref(ParamDelcEnd), s, i, r) == Recognised(R.LineEnd(s, i))
    ensures Eval(Parsed, Ref(ConstraintEnd), s, i, r) == Recognised(R.LineEnd(s, i))
  {
    AliasRule(ParamDelcEnd, Rule.LineEnd, s, i, r);
    AliasRule(ConstraintEnd, Rule.LineEnd, s, i, r);
    hide Eval, R.LineEnd;
    LineEndRule(s, i, 2);
  }

  lemma ParameterPeg(s: string, i: nat, r: nat)
    requires i <= |s| && r > 5 && !R.ParameterRule(s, i).Abort?
    ensures Eval(Parsed, Ref(Rule.ParameterRule), s, i, r) == Recognised(R.ParameterRule(s, i))
  {
    hide Eval, R.ParameterOf;
    Enter(Rule.ParameterRule, s, i, r);
    Choice(Ref(BooleanParam), Alt(Ref(EnumParam), Ref(IntParam)), s, i, 5);
    Choice(Ref(EnumParam), Ref(IntParam), s, i, 5);
    ParameterFormPeg(BOOLEAN, s, i, 5);
    if R.ParameterOf(BOOLEAN, s, i).NoMatch? {
      ParameterFormPeg(ENUM, s, i, 5);
      if R.ParameterOf(ENUM, s, i).NoMatch? { ParameterFormPeg(INTEGER, s, i, 5); }
    }
  }

  function ParameterLine(): Peg { Seq(Ref(Rule.ParameterRule), Ref(Rule.Spacing)) }

  lemma ParameterLinePeg(s: string, i: nat, r: nat)
    requires i <= |s| && r > 5 && !R.ParameterRule(s, i).Abort?
    ensures var o := R.ParameterRule(s, i);
            Eval(Parsed, ParameterLine(), s, i, r) == if o.Match? then Ok(R.Spacing(s, o.pos)) else Fail
  {
    hide Eval, R.ParameterRule, R.Spacing;
    Sequence(Ref(Rule.ParameterRule), Ref(Rule.Spacing), s, i, r);
    ParameterPeg(s, i, r);
    var o := R.ParameterRule(s, i);
    if o.Match? { SpacingRule(s, o.pos, TOP); }
  }

  lemma {:induction false} MoreParametersPeg(s: string, i: nat, r: nat)
    requires i <= |s| && r > 5 && !R.MoreParameters(s, i).Abort?
    ensures Eval(Parsed, Star(ParameterLine()), s, i, r) == Recognised(R.MoreParameters(s, i))
    decreases |s| - i
  {
    hide R.ParameterRule, R.Spacing, ParameterLine;
    ParameterLinePeg(s, i, r);
    var o := R.ParameterRule(s, i);
    if o.Match? { MoreParametersPeg(s, R.Spacing(s, o.pos), TOP); }
  }

  lemma ParameterSectionPeg(s: string, i: nat, r: nat)
    requires i <= |s| && r > 11 && !R.ParameterSection(s, i).Abort?
    ensures Eval(Parsed, Ref(Rule.ParameterSection), s, i, r) == Recognised(R.ParameterSection(s, i))
  {
    Enter(Rule.ParameterSection, s, i, r);
    assert Body(Parsed, Rule.ParameterSection) == Then2(Header("Parameter"), ParameterLine(), Star(ParameterLine()));
    hide Eval, R.ParameterRule, R.Spacing, R.MoreParameters, R.SectionHeader, ParameterLine, Header;
    Sequence2(Header("Parameter"), ParameterLine(), Star(ParameterLine()), s, i, 11);
    HeaderPeg(s, i, 11, "Parameter");
    var h := R.SectionHeader(s, i, "Parameter");
    if h.Match? {
      ParameterLinePeg(s, h.pos, TOP);
      var o := R.ParameterRule(s, h.pos);
      if o.Match? { MoreParametersPeg(s, R.Spacing(s, o.pos), TOP); }
    }
  }

  // ---- Relations --------------------------------------------------------------------------

  function RelationHeadForm(): Peg { Then4(Ref(RelationName), Ref(Whitespace), T(":"), Ref(Whitespace), T("(")) }

  lemma RelationHeadPeg(s: string, i: nat, r: nat)
    requires i <= |s| && r > 1
    ensures Eval(Parsed, RelationHeadForm(), s, i, r) == Recognised(R.RelationHead(s, i))
  {
    hide Eval, R.Lit, R.Identifier, R.Whitespace, Body, Rank;
    Sequence4(Ref(RelationName), Ref(Whitespace), T(":"), Ref(Whitespace), T("("), s, i, r);
    NamePeg(s, i, r);
    var o := R.Identifier(s, i);
    if o.Match? {
      ThenLiteral(s, o.pos, TOP, ":");
      var q := R.Lit(s, R.Whitespace(s, o.pos), ":");
      if q.Match? { ThenLiteral(s, q.pos, TOP, "("); }
    }
  }

  lemma RelationNamesPeg(p: Peg, s: string, i: nat, j: nat, r: nat, ds: set<string>)
    requires i <= j <= |s| && Eval(Parsed, p, s, i, r) == Ok(j) && i < j && !R.RelationNames(s, j, ds).Abort?
    ensures Eval(Parsed, Then4(p, Ref(Whitespace), Ref(RelParamNameList), Ref(Whitespace), T(",")), s, i, r) ==
            Recognised(R.RelationNames(s, j, ds))
  {
    Sequence4(p, Ref(Whitespace), Ref(RelParamNameList), Ref(Whitespace), T(","), s, i, r);
    LexicalRules(s);
    hide Eval, R.Lit, R.List, R.Whitespace;
    ListPeg(R.NameElement, s, R.Whitespace(s, j), TOP, ds);
  }

  lemma RelationStrengthPeg(p: Peg, s: string, i: nat, j: nat, r: nat)
    requires i <= j <= |s| && Eval(Parsed, p, s, i, r) == Ok(j) && i < j && !R.RelationStrength(s, j).Abort?
    ensures Eval(Parsed, Then4(p, Ref(Whitespace), Ref(RelStrength), Ref(Whitespace), T(")")), s, i, r) ==
            Recognised(R.RelationStrength(s, j))
  {
    Sequence4(p, Ref(Whitespace), Ref(RelStrength), Ref(Whitespace), T(")"), s, i, r);
    LexicalRules(s);
    hide Eval, R.Lit, R.Strength, R.Whitespace;
    StrengthPeg(s, R.Whitespace(s, j), TOP);
  }

  lemma StrengthPeg(s: string, i: nat, r: nat)
    requires i <= |s| && r > 0 && !R.Strength(s, i).Abort?
    ensures Eval(Parsed, Ref(RelStrength), s, i, r) == Recognised(R.Strength(s, i))
  {
    Enter(RelStrength, s, i, r);
    hide Eval;
    DigitsPeg(s, i, 0);
  }

  function RelationNamesForm(): Peg {
    Then4(RelationHeadForm(), Ref(Whitespace), Ref(RelParamNameList), Ref(Whitespace), T(","))
  }

  function RelationForm(): Peg { Then4(RelationNamesForm(), Ref(Whitespace), Ref(RelStrength), Ref(Whitespace), T(")")) }

  /** The part of a relation up to its closing parenthesis. */
  function RelationUpTo(s: string, i: nat, ds: set<string>): (r: R.Outcome<()>)
    requires i <= |s|
    ensures r.Match? ==> i < r.pos <= |s|
    ensures r.Abort? ==> R.RelationRule(s, i, ds).Abort?
    ensures r.NoMatch? ==> R.RelationRule(s, i, ds).NoMatch?
    ensures r.Match? ==>
              var end := R.LineEnd(s, R.Spaces(s, r.pos));
              if end.Match? then R.RelationRule(s, i, ds).Match? && R.RelationRule(s, i, ds).pos == R.Spacing(s, end.pos)
              else R.RelationRule(s, i, ds).NoMatch?
  {
    hide R.RelationHead, R.RelationNames, R.RelationStrength, R.LineEnd, R.Spaces, R.Spacing;
    var (i1, _) :- R.RelationHead(s, i);
    var (i2, _) :- R.RelationNames(s, i1, ds);
    var (i3, _) :- R.RelationStrength(s, i2);
    R.Match(i3, ())
  }

  lemma RelationFormPeg(s: string, i: nat, r: nat, ds: set<string>)
    requires i <= |s| && r > 1 && !RelationUpTo(s, i, ds).Abort?
    ensures Eval(Parsed, RelationForm(), s, i, r) == Recognised(RelationUpTo(s, i, ds))
  {
    hide Eval, R.RelationHead, R.RelationNames, R.RelationStrength, R.RelationRule, RelationHeadForm;
    RelationHeadPeg(s, i, r);
    Sequence4(RelationHeadForm(), Ref(Whitespace), Ref(RelParamNameList), Ref(Whitespace), T(","), s, i, r);
    Sequence4(RelationNamesForm(), Ref(Whitespace), Ref(RelStrength), Ref(Whitespace), T(")"), s, i, r);
    var o := R.RelationHead(s, i);
    if o.Match? {
      RelationNamesPeg(RelationHeadForm(), s, i, o.pos, r, ds);
      var q := R.RelationNames(s, o.pos, ds);
      if q.Match? { RelationStrengthPeg(RelationNamesForm(), s, i, q.pos, r); }
    }
  }

  lemma RelationPeg(s: string, i: nat, r: nat, ds: set<string>)
    requires i <= |s| && r > 5 && !R.RelationRule(s, i, ds).Abort?
    ensures Eval(Parsed, Ref(Rule.RelationRule), s, i, r) == Recognised(R.RelationRule(s, i, ds))
  {
    hide Eval, RelationUpTo, RelationForm, R.RelationRule, R.LineEnd, R.Spaces, R.Spacing, Body, Rank, Then3, Lexical;
    RelationRuleBody();
    Enter(Rule.RelationRule, s, i, r);
    Sequence3(RelationForm(), Ref(Blanks), Ref(Rule.LineEnd), Ref(Rule.Spacing), s, i, 5);
    RelationFormPeg(s, i, 5, ds);
    var o := RelationUpTo(s, i, ds);
    if o.Match? {
      BlanksRule(s, o.pos, TOP);
      var end := R.LineEnd(s, R.Spaces(s, o.pos));
      LineEndRule(s, R.Spaces(s, o.pos), TOP);
      if end.Match? { SpacingRule(s, end.pos, TOP); }
    }
  }

  lemma RelationRuleBody()
    ensures Body(Parsed, Rule.RelationRule) == Then3(RelationForm(), Ref(Blanks), Ref(Rule.LineEnd), Ref(Rule.Spacing))
    ensures Rank(Rule.RelationRule) == 5
  {}

  lemma {:induction false} RelationsPeg(s: string, i: nat, r: nat, ds: set<string>)
    requires i <= |s| && r > 5 && !R.Relations(s, i, ds).Abort?
    ensures Eval(Parsed, Star(Ref(Rule.RelationRule)), s, i, r) == Recognised(R.Relations(s, i, ds))
    decreases |s| - i
  {
    hide R.RelationRule, Body;
    RelationPeg(s, i, r, ds);
    var o := R.RelationRule(s, i, ds);
    if o.Match? { RelationsPeg(s, o.pos, TOP, ds); }
  }

  lemma RelationSectionPeg(s: string, i: nat, r: nat, ds: set<string>)
    requires i <= |s| && r > 11 && !R.RelationSection(s, i, ds).Abort?
    ensures Eval(Parsed, Ref(Rule.RelationSection), s, i, r) == Recognised(R.RelationSection(s, i, ds))
  {
    hide Eval, R.Relations, R.SectionHeader, Header;
    Enter(Rule.RelationSection, s, i, r);
    Sequence(Header("Relation"), Star(Ref(Rule.RelationRule)), s, i, 11);
    HeaderPeg(s, i, 11, "Relation");
    var h := R.SectionHeader(s, i, "Relation");
    if h.Match? { RelationsPeg(s, h.pos, TOP, ds); }
  }

  // ---- Constraints ------------------------------------------------------------------------

  /** Blanks and a literal. */
  lemma BlanksThenLiteral(s: string, i: nat, r: nat, t: Ascii)
    requires i <= |s| && r > 0
    ensures var j := R.Spaces(s, i);
            && Eval(Parsed, Ref(Blanks), s, i, r) == Ok(j)
            && Eval(Parsed, T(t), s, j, After(i, j, r)) == Recognised(R.Lit(s, j, t))
  {
    BlanksRule(s, i, r);
  }

  /** An operator symbol or parenthesis and the blanks after it. */
  lemma LiteralThenBlanks(s: string, i: nat, r: nat, t: Ascii)
    requires i <= |s| && t != ""
    ensures Eval(Parsed, T(t), s, i, r) == Recognised(R.Lit(s, i, t))
    ensures var o := R.Lit(s, i, t);
            o.Match? ==> i < o.pos && Eval(Parsed, Ref(Blanks), s, o.pos, TOP) == Ok(R.Spaces(s, o.pos))
  {
    hide At;
    var o := R.Lit(s, i, t);
    if o.Match? { BlanksRule(s, o.pos, TOP); }
  }

  lemma RelOpPeg(s: string, i: nat, r: nat)
    requires i <= |s| && r > 0
    ensures Eval(Parsed, Ref(Rule.RelOp), s, i, r) == Recognised(R.RelOp(s, i))
  {
    hide At;
    Enter(Rule.RelOp, s, i, r);
    Choice(T("="), Alt(T("!="), Alt(T(">="), Alt(T("<="), Alt(T(">"), T("<"))))), s, i, 0);
    Choice(T("!="), Alt(T(">="), Alt(T("<="), Alt(T(">"), T("<")))), s, i, 0);
    Choice(T(">="), Alt(T("<="), Alt(T(">"), T("<"))), s, i, 0);
    Choice(T("<="), Alt(T(">"), T("<")), s, i, 0);
    Choice(T(">"), T("<"), s, i, 0);
  }

  function QuotedFirst(): Peg { Alt(T(","), Alt(T(";"), Alt(T("\""), Alt(Ref(SpaceChar), Ref(Eol))))) }

  function QuotedRest(): Peg { Alt(T(","), Alt(T(";"), Alt(T("\""), Ref(Eol)))) }

  lemma QuotedStops(s: string)
    ensures Stops(QuotedFirst(), ",;\" \t\n\r", s)
    ensures Stops(QuotedRest(), ",;\"\n\r", s)
  {
    hide Stops;
    CharStops(",", s);
    CharStops(";", s);
    CharStops("\"", s);
    SpaceStops(s);
    EolStops(s);
    OrStops(T("\""), Ref(Eol), "\"", "\n\r", s);
    OrStops(T(";"), Alt(T("\""), Ref(Eol)), ";", "\"" + "\n\r", s);
    OrStops(T(","), Alt(T(";"), Alt(T("\""), Ref(Eol))), ",", ";" + ("\"" + "\n\r"), s);
    assert "," + (";" + ("\"" + "\n\r")) == ",;\"\n\r";
    OrStops(Ref(SpaceChar), Ref(Eol), " \t", "\n\r", s);
    OrStops(T("\""), Alt(Ref(SpaceChar), Ref(Eol)), "\"", " \t" + "\n\r", s);
    OrStops(T(";"), Alt(T("\""), Alt(Ref(SpaceChar), Ref(Eol))), ";", "\"" + (" \t" + "\n\r"), s);
    OrStops(T(","), Alt(T(";"), Alt(T("\""), Alt(Ref(SpaceChar), Ref(Eol)))), ",", ";" + ("\"" + (" \t" + "\n\r")), s);
    assert "," + (";" + ("\"" + (" \t" + "\n\r"))) == ",;\" \t\n\r";
  }

  lemma QuotedBody()
    ensures Rank(Rule.ConstrEnumValue) == 2
    ensures Body(Parsed, Rule.ConstrEnumValue) == Then3(T("\""), Except(QuotedFirst()), Star(Except(QuotedRest())), T("\""))
  {}

  lemma ConstrEnumValuePeg(s: string, i: nat, r: nat)
    requires i <= |s| && r > 2
    ensures Eval(Parsed, Ref(Rule.ConstrEnumValue), s, i, r) == Recognised(R.ConstrEnumValue(s, i))
  {
    hide Eval, Stops, SkipsOne, R.AnyExcept, SkipText, At, QuotedFirst, QuotedRest, Except, Body, Rank;
    QuotedBody();
    Enter(Rule.ConstrEnumValue, s, i, r);
    Sequence3(T("\""), Except(QuotedFirst()), Star(Except(QuotedRest())), T("\""), s, i, 2);
    QuotedStops(s);
    ExceptSkips(QuotedFirst(), ",;\" \t\n\r", s);
    ExceptSkips(QuotedRest(), ",;\"\n\r", s);
    LiteralPeg(s, i, 2, "\"");
    var o := R.Lit(s, i, "\"");
    if o.Match? {
      Skipped(Except(QuotedFirst()), ",;\" \t\n\r", s, o.pos, TOP);
      var q := R.AnyExcept(",;\" \t\n\r", s, o.pos);
      if q.Some? {
        TextStar(Except(QuotedRest()), ",;\"\n\r", s, q.value, TOP);
        LiteralPeg(s, SkipText(",;\"\n\r", s, q.value), TOP, "\"");
      }
    }
  }

  lemma LiteralPeg(s: string, i: nat, r: nat, t: Ascii)
    requires i <= |s|
    ensures Eval(Parsed, T(t), s, i, r) == Recognised(R.Lit(s, i, t))
  {}

  lemma ConstrValuePeg(s: string, i: nat, r: nat, name: string, op: RelationalOperator, start: nat)
    requires i <= |s| && r > 4 && !R.ConstrValue(s, i, name, op, start).Abort?
    ensures Eval(Parsed, Ref(Rule.ConstrValue), s, i, r) == Recognised(R.ConstrValue(s, i, name, op, start))
  {
    hide Eval, R.EitherI, R.Integer, R.ConstrEnumValue, R.LitI, Body, Rank, SignedDigits;
    ConstrValueBody();
    Enter(Rule.ConstrValue, s, i, r);
    Choice(Ref(ConstrBoolValue), Alt(Ref(ConstrIntValue), Ref(Rule.ConstrEnumValue)), s, i, 4);
    Choice(Ref(ConstrIntValue), Ref(Rule.ConstrEnumValue), s, i, 4);
    Enter(ConstrBoolValue, s, i, 4);
    BooleanPeg(s, i, 0);
    if R.EitherI(s, i, "true", "false").NoMatch? {
      Enter(ConstrIntValue, s, i, 4);
      SignedDigitsPeg(s, i, 0);
      ConstrEnumValuePeg(s, i, 4);
    }
  }

  lemma ConstrValueBody()
    ensures Rank(Rule.ConstrValue) == 4 && Rank(ConstrBoolValue) == 0 && Rank(ConstrIntValue) == 0
    ensures Body(Parsed, Rule.ConstrValue) == Alt(Ref(ConstrBoolValue), Alt(Ref(ConstrIntValue), Ref(Rule.ConstrEnumValue)))
    ensures Body(Parsed, ConstrBoolValue) == Alt(TI("true"), TI("false")) && Body(Parsed, ConstrIntValue) == SignedDigits()
  {}

  lemma AtomicPropBody()
    ensures Rank(Rule.AtomicProp) == 5
    ensures Body(Parsed, Rule.AtomicProp) ==
            Then4(Ref(ConstrParamName), Ref(Blanks), Ref(Rule.RelOp), Ref(Blanks), Ref(Rule.ConstrValue))
  {}

  lemma AtomicPropPeg(s: string, i: nat, r: nat, ds: set<string>)
    requires i <= |s| && r > 5 && !R.AtomicProp(s, i, ds).Abort?
    ensures Eval(Parsed, Ref(Rule.AtomicProp), s, i, r) == Recognised(R.AtomicProp(s, i, ds))
  {
    hide Eval, R.Identifier, R.RelOp, R.ConstrValue, R.Spaces, Body, Rank;
    AtomicPropBody();
    Enter(Rule.AtomicProp, s, i, r);
    Sequence4(Ref(ConstrParamName), Ref(Blanks), Ref(Rule.RelOp), Ref(Blanks), Ref(Rule.ConstrValue), s, i, 5);
    NamePeg(s, i, 5);
    var o := R.Identifier(s, i);
    if o.Match? {
      BlanksRule(s, o.pos, TOP);
      RelOpPeg(s, R.Spaces(s, o.pos), TOP);
      var q := R.RelOp(s, R.Spaces(s, o.pos));
      if q.Match? {
        BlanksRule(s, q.pos, TOP);
        ConstrValuePeg(s, R.Spaces(s, q.pos), TOP, o.value, q.value, i);
      }
    }
  }

  function OperandRule(op: NaryOperator): Rule { if op.OR? then AndExpr else Rule.Operand }

  function OperandsRule(op: NaryOperator): Rule { if op.OR? then OrExpr else AndExpr }

  lemma OperandsBody(op: NaryOperator)
    ensures Rank(OperandsRule(op)) == (if op.OR? then 8 else 7)
    ensures Body(Parsed, OperandsRule(op)) == Seq(Ref(OperandRule(op)), Star(Infixed(Symbol(op), OperandRule(op))))
  {}

  function ParenthesizedForm(): Peg { Then4(T("("), Ref(Blanks), Ref(Rule.Implication), Ref(Blanks), T(")")) }

  lemma OperandBody()
    ensures Rank(Rule.Operand) == 6 && Body(Parsed, Rule.Operand) == Alt(ParenthesizedForm(), Ref(Rule.AtomicProp))
    ensures Rank(Rule.Implication) == 9
    ensures Body(Parsed, Rule.Implication) == Seq(Ref(OrExpr), Opt(Infixed("=>", OrExpr)))
  {}

  lemma {:induction false} ParenthesizedPeg(s: string, i: nat, r: nat, ds: set<string>)
    requires i <= |s| && !R.Parenthesized(s, i, ds).Abort?
    ensures Eval(Parsed, ParenthesizedForm(), s, i, r) == Recognised(R.Parenthesized(s, i, ds))
    decreases |s| - i, 0
  {
    hide Eval, At, R.ImplicationRule, R.Spaces, Rank;
    Sequence4(T("("), Ref(Blanks), Ref(Rule.Implication), Ref(Blanks), T(")"), s, i, r);
    LiteralThenBlanks(s, i, r, "(");
    var o := R.Lit(s, i, "(");
    if o.Match? {
      ImplicationPeg(s, R.Spaces(s, o.pos), TOP, ds);
      var c := R.ImplicationRule(s, R.Spaces(s, o.pos), ds);
      if c.Match? { BlanksThenLiteral(s, c.pos, TOP, ")"); }
    }
  }

  lemma {:induction false} OperandPeg(s: string, i: nat, r: nat, ds: set<string>)
    requires i <= |s| && r > 6 && !R.Operand(s, i, ds).Abort?
    ensures Eval(Parsed, Ref(Rule.Operand), s, i, r) == Recognised(R.Operand(s, i, ds))
    decreases |s| - i, 1
  {
    hide Eval, R.Parenthesized, R.AtomicProp, ParenthesizedForm, Body, Rank;
    OperandBody();
    Enter(Rule.Operand, s, i, r);
    Choice(ParenthesizedForm(), Ref(Rule.AtomicProp), s, i, 6);
    ParenthesizedPeg(s, i, 6, ds);
    if R.Parenthesized(s, i, ds).NoMatch? { AtomicPropPeg(s, i, 6, ds); }
  }

  lemma {:induction false} OperandOfPeg(op: NaryOperator, s: string, i: nat, r: nat, ds: set<string>)
    requires i <= |s| && r > (if op.OR? then 7 else 6) && !R.OperandOf(op, s, i, ds).Abort?
    ensures Eval(Parsed, Ref(OperandRule(op)), s, i, r) == Recognised(R.OperandOf(op, s, i, ds))
    decreases |s| - i, if op.OR? then 4 else 2
  {
    hide Eval, R.Operand, R.Operands;
    if op.OR? { OperandsPeg(AND, s, i, r, ds); } else { OperandPeg(s, i, r, ds); }
  }

  /** _ symbol _ operand */
  lemma InfixedPeg(symbol: Ascii, rule: Rule, s: string, i: nat, r: nat)
    requires i <= |s| && r > 0 && symbol != ""
    ensures var o := R.Lit(s, R.Spaces(s, i), symbol);
            Eval(Parsed, Infixed(symbol, rule), s, i, r) ==
            if o.Match? then Eval(Parsed, Ref(rule), s, R.Spaces(s, o.pos), TOP) else Fail
  {
    hide Eval, At, R.Spaces;
    Sequence3(Ref(Blanks), T(symbol), Ref(Blanks), Ref(rule), s, i, r);
    BlanksRule(s, i, r);
    LiteralThenBlanks(s, R.Spaces(s, i), After(i, R.Spaces(s, i), r), symbol);
  }

  lemma {:induction false} NextOperandPeg(op: NaryOperator, s: string, i: nat, r: nat, ds: set<string>)
    requires i <= |s| && r > 0 && !R.NextOperand(op, s, i, ds).Abort?
    ensures Eval(Parsed, Infixed(Symbol(op), OperandRule(op)), s, i, r) == Recognised(R.NextOperand(op, s, i, ds))
    decreases |s| - i, 0
  {
    hide Eval, At, R.OperandOf, R.Spaces, Infixed, OperandRule;
    InfixedPeg(Symbol(op), OperandRule(op), s, i, r);
    var o := R.Lit(s, R.Spaces(s, i), Symbol(op));
    if o.Match? { OperandOfPeg(op, s, R.Spaces(s, o.pos), TOP, ds); }
  }

  lemma {:induction false} MoreOperandsPeg(op: NaryOperator, s: string, i: nat, r: nat, ds: set<string>)
    requires i <= |s| && r > 0 && !R.MoreOperands(op, s, i, ds).Abort?
    ensures Eval(Parsed, Star(Infixed(Symbol(op), OperandRule(op))), s, i, r) == Recognised(R.MoreOperands(op, s, i, ds))
    decreases |s| - i, 1
  {
    hide R.NextOperand, Infixed, OperandRule, Body, Rank, Symbol;
    NextOperandPeg(op, s, i, r, ds);
    var o := R.NextOperand(op, s, i, ds);
    if o.Match? { MoreOperandsPeg(op, s, o.pos, TOP, ds); }
  }

  lemma {:induction false} OperandsPeg(op: NaryOperator, s: string, i: nat, r: nat, ds: set<string>)
    requires i <= |s| && r > (if op.OR? then 8 else 7) && !R.Operands(op, s, i, ds).Abort?
    ensures Eval(Parsed, Ref(OperandsRule(op)), s, i, r) == Recognised(R.Operands(op, s, i, ds))
    decreases |s| - i, if op.OR? then 5 else 3
  {
    assert IsAscii(Symbol(op));
    hide Eval, R.OperandOf, R.MoreOperands, OperandRule, OperandsRule, Infixed, Body, Rank, Symbol;
    OperandsBody(op);
    var q := if op.OR? then 8 else 7;
    Enter(OperandsRule(op), s, i, r);
    Sequence(Ref(OperandRule(op)), Star(Infixed(Symbol(op), OperandRule(op))), s, i, q);
    OperandOfPeg(op, s, i, q, ds);
    var o := R.OperandOf(op, s, i, ds);
    if o.Match? { MoreOperandsPeg(op, s, o.pos, TOP, ds); }
  }

  lemma {:induction false} ConclusionPeg(s: string, i: nat, r: nat, ds: set<string>)
    requires i <= |s| && r > 0 && !R.Conclusion(s, i, ds).Abort?
    ensures Eval(Parsed, Infixed("=>", OrExpr), s, i, r) == Recognised(R.Conclusion(s, i, ds))
    decreases |s| - i, 0
  {
    hide Eval, At, R.Operands, R.Spaces, Infixed, Body, Rank;
    InfixedPeg("=>", OrExpr, s, i, r);
    var o := R.Lit(s, R.Spaces(s, i), "=>");
    if o.Match? { OperandsPeg(OR, s, R.Spaces(s, o.pos), TOP, ds); }
  }

  lemma {:induction false} ImplicationPeg(s: string, i: nat, r: nat, ds: set<string>)
    requires i <= |s| && r > 9 && !R.ImplicationRule(s, i, ds).Abort?
    ensures Eval(Parsed, Ref(Rule.Implication), s, i, r) == Recognised(R.ImplicationRule(s, i, ds))
    decreases |s| - i, 6
  {
    hide Eval, R.Operands, R.Conclusion, Infixed, Body, Rank;
    OperandBody();
    Enter(Rule.Implication, s, i, r);
    Sequence(Ref(OrExpr), Opt(Infixed("=>", OrExpr)), s, i, 9);
    OperandsPeg(OR, s, i, 9, ds);
    var o := R.Operands(OR, s, i, ds);
    if o.Match? {
      Maybe(Infixed("=>", OrExpr), s, o.pos, TOP);
      ConclusionPeg(s, o.pos, TOP, ds);
    }
  }

  lemma ConstraintBody()
    ensures Rank(Rule.ConstraintRule) == 10
    ensures Body(Parsed, Rule.ConstraintRule) == Then3(Ref(Rule.Implication), Ref(Blanks), Ref(ConstraintEnd), Ref(Rule.Spacing))
  {}

  lemma ConstraintPeg(s: string, i: nat, r: nat, ds: set<string>)
    requires i <= |s| && r > 10 && !R.ConstraintRule(s, i, ds).Abort?
    ensures Eval(Parsed, Ref(Rule.ConstraintRule), s, i, r) == Recognised(R.ConstraintRule(s, i, ds))
  {
    hide Eval, R.ImplicationRule, R.LineEnd, R.Spaces, R.Spacing, Body, Rank;
    ConstraintBody();
    Enter(Rule.ConstraintRule, s, i, r);
    Sequence3(Ref(Rule.Implication), Ref(Blanks), Ref(ConstraintEnd), Ref(Rule.Spacing), s, i, 10);
    ImplicationPeg(s, i, 10, ds);
    var o := R.ImplicationRule(s, i, ds);
    if o.Match? {
      BlanksRule(s, o.pos, TOP);
      ParameterEnd(s, R.Spaces(s, o.pos), TOP);
      var end := R.LineEnd(s, R.Spaces(s, o.pos));
      if end.Match? { SpacingRule(s, end.pos, TOP); }
    }
  }

  lemma {:induction false} ConstraintsPeg(s: string, i: nat, r: nat, ds: set<string>)
    requires i <= |s| && r > 10 && !R.Constraints(s, i, ds).Abort?
    ensures Eval(Parsed, Star(Ref(Rule.ConstraintRule)), s, i, r) == Recognised(R.Constraints(s, i, ds))
    decreases |s| - i
  {
    hide R.ConstraintRule, Body;
    ConstraintPeg(s, i, r, ds);
    var o := R.ConstraintRule(s, i, ds);
    if o.Match? { ConstraintsPeg(s, o.pos, TOP, ds); }
  }

  lemma ConstraintSectionPeg(s: string, i: nat, r: nat, ds: set<string>)
    requires i <= |s| && r > 11 && !R.ConstraintSection(s, i, ds).Abort?
    ensures Eval(Parsed, Ref(Rule.ConstraintSection), s, i, r) == Recognised(R.ConstraintSection(s, i, ds))
  {
    hide Eval, R.Constraints, R.SectionHeader, Header;
    Enter(Rule.ConstraintSection, s, i, r);
    Sequence(Header("Constraint"), Star(Ref(Rule.ConstraintRule)), s, i, 11);
    HeaderPeg(s, i, 11, "Constraint");
    var h := R.SectionHeader(s, i, "Constraint");
    if h.Match? { ConstraintsPeg(s, h.pos, TOP, ds); }
  }

  // ---- The whole input --------------------------------------------------------------------

  lemma SystemNamePeg(s: string, i: nat, r: nat)
    requires i <= |s| && r > 2
    ensures Eval(Parsed, Ref(SystemName), s, i, r) == Ok(SkipText("\n\r", s, i))
  {
    Enter(SystemName, s, i, r);
    EolStops(s);
    ExceptSkips(Ref(Eol), "\n\r", s);
    TextStar(Except(Ref(Eol)), "\n\r", s, i, 2);
  }

  function NameForm(): Peg { Then4(TI("name"), Ref(Whitespace), T(":"), Ref(Blanks), Ref(SystemName)) }

  /** Where the system name ends. */
  function NameEnd(s: string, i: nat): (r: R.Outcome<()>)
    requires i <= |s|
    ensures r.Match? ==> i < r.pos <= |s|
    ensures !r.Abort?
  {
    var (i2, _) :- R.LitI(s, i, "name");
    var (i3, _) :- R.Lit(s, R.Whitespace(s, i2), ":");
    R.Match(SkipText("\n\r", s, R.Spaces(s, i3)), ())
  }

  lemma NameFormPeg(s: string, i: nat, r: nat)
    requires i <= |s|
    ensures Eval(Parsed, NameForm(), s, i, r) == Recognised(NameEnd(s, i))
  {
    hide Eval, At, AtI, R.Whitespace, R.Spaces, SkipText, Body, Rank;
    Sequence4(TI("name"), Ref(Whitespace), T(":"), Ref(Blanks), Ref(SystemName), s, i, r);
    LiteralIPeg(s, i, r, "name");
    var o := R.LitI(s, i, "name");
    if o.Match? {
      ThenLiteral(s, o.pos, TOP, ":");
      var q := R.Lit(s, R.Whitespace(s, o.pos), ":");
      if q.Match? {
        BlanksRule(s, q.pos, TOP);
        SystemNamePeg(s, R.Spaces(s, q.pos), TOP);
      }
    }
  }

  lemma LiteralIPeg(s: string, i: nat, r: nat, t: Ascii)
    requires i <= |s|
    ensures Eval(Parsed, TI(t), s, i, r) == Recognised(R.LitI(s, i, t))
  {}

  lemma SystemNameRulePeg(s: string, i: nat, r: nat)
    requires i <= |s| && r > 4
    ensures var o := NameEnd(s, i);
            Eval(Parsed, Ref(SystemNameRule), s, i, r) == if o.Match? then Ok(R.Spacing(s, o.pos)) else Fail
  {
    hide Eval, NameEnd, NameForm, R.Spacing;
    assert Body(Parsed, SystemNameRule) == Seq(NameForm(), Ref(Rule.Spacing)) by { NameBody(); }
    Enter(SystemNameRule, s, i, r);
    Sequence(NameForm(), Ref(Rule.Spacing), s, i, 4);
    NameFormPeg(s, i, 4);
    var o := NameEnd(s, i);
    if o.Match? { SpacingRule(s, o.pos, TOP); }
  }

  lemma NameBody()
    ensures Body(Parsed, SystemNameRule) == Seq(NameForm(), Ref(Rule.Spacing))
  {}

  lemma SystemOutcome(s: string, i: nat)
    requires i <= |s|
    ensures var h := R.SectionHeader(s, i, "System");
            Recognised(R.SystemSection(s, i)) ==
            if h.NoMatch? then Fail
            else var o := NameEnd(s, h.pos); if o.Match? then Ok(R.Spacing(s, o.pos)) else Fail
  {
    hide R.SectionHeader, At, AtI, R.Whitespace, R.Spaces, SkipText, R.Spacing, Trimmed;
  }

  lemma SystemSectionPeg(s: string, i: nat, r: nat)
    requires i <= |s| && r > 11
    ensures Eval(Parsed, Ref(Rule.SystemSection), s, i, r) == Recognised(R.SystemSection(s, i))
  {
    hide Eval, R.SectionHeader, Header, NameEnd, R.Spacing, R.SystemSection;
    Enter(Rule.SystemSection, s, i, r);
    Sequence(Header("System"), Ref(SystemNameRule), s, i, 11);
    HeaderPeg(s, i, 11, "System");
    SystemOutcome(s, i);
    var h := R.SectionHeader(s, i, "System");
    if h.Match? { SystemNameRulePeg(s, h.pos, TOP); }
  }

  lemma RootBody()
    ensures Rank(Root) == 12
    ensures Body(Parsed, Root) == Then4(Ref(Rule.Spacing), Ref(Rule.SystemSection), Ref(Rule.ParameterSection),
                                Opt(Ref(Rule.RelationSection)), Opt(Ref(Rule.ConstraintSection)))
  {}

  lemma OptionPeg<A>(rule: Rule, o: R.Outcome<seq<A>>, s: string, i: nat, r: nat)
    requires i <= |s| && !o.Abort? && (o.Match? ==> i <= o.pos <= |s|) && Eval(Parsed, Ref(rule), s, i, r) == Recognised(o)
    ensures Eval(Parsed, Opt(Ref(rule)), s, i, r) == Recognised(R.Optional(o, i))
  {
    hide Body, Rank;
    Maybe(Ref(rule), s, i, r);
  }

  /** Without a semantic error, an input is accepted exactly when the parser's grammar matches all of it. */
  lemma ParsedDecides(s: string, m: Model)
    requires !R.ParseInto(s, m).Abort?
    ensures var res := Eval(Parsed, Ref(Root), s, 0, TOP);
            res != Stuck && (res == Ok(|s|) <==> R.ParseInto(s, m).Match?)
  {
    hide Eval, R.SystemSection, R.ParameterSection, R.RelationSection, R.ConstraintSection, R.Spacing, Body, Rank, Declared;
    RootBody();
    Enter(Root, s, 0, TOP);
    Sequence4(Ref(Rule.Spacing), Ref(Rule.SystemSection), Ref(Rule.ParameterSection),
              Opt(Ref(Rule.RelationSection)), Opt(Ref(Rule.ConstraintSection)), s, 0, 12);
    SpacingRule(s, 0, 12);
    var i0 := R.Spacing(s, 0);
    SystemSectionPeg(s, i0, After(0, i0, 12));
    var o1 := R.SystemSection(s, i0);
    if o1.Match? {
      ParameterSectionPeg(s, o1.pos, TOP);
      var o2 := R.ParameterSection(s, o1.pos);
      if o2.Match? { OptionalSections(s, m, o2.pos, o2.value); }
    }
  }

  lemma OptionalSections(s: string, m: Model, i: nat, ps: seq<Parameter>)
    requires i <= |s|
    requires var ds := Declared(m.parameters + ps);
             var rs := R.Optional(R.RelationSection(s, i, ds), i);
             !rs.Abort? && (rs.Match? && rs.pos <= |s| ==> !R.ConstraintSection(s, rs.pos, ds).Abort?)
    ensures var ds := Declared(m.parameters + ps);
            var rs := R.Optional(R.RelationSection(s, i, ds), i);
            && rs.Match? && rs.pos <= |s| && Eval(Parsed, Opt(Ref(Rule.RelationSection)), s, i, TOP) == Ok(rs.pos)
            && R.Optional(R.ConstraintSection(s, rs.pos, ds), rs.pos).Match?
            && Eval(Parsed, Opt(Ref(Rule.ConstraintSection)), s, rs.pos, TOP) ==
               Ok(R.Optional(R.ConstraintSection(s, rs.pos, ds), rs.pos).pos)
  {
    hide Eval, R.RelationSection, R.ConstraintSection, Body, Rank, Declared;
    var ds := Declared(m.parameters + ps);
    var o := R.RelationSection(s, i, ds);
    RelationSectionPeg(s, i, TOP, ds);
    OptionPeg(Rule.RelationSection, o, s, i, TOP);
    var j := R.Optional(o, i).pos;
    ConstraintSectionPeg(s, j, TOP, ds);
    OptionPeg(Rule.ConstraintSection, R.ConstraintSection(s, j, ds), s, j, TOP);
  }
}
