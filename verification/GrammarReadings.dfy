/** The grammar as its comment writes it. It decides the same inputs as the parser, although the two differ in what may
    follow the last line. */
module GrammarReadings {
  import opened Text
  import opened Acts
  import opened Grammar
  import R = Rules
  import Proof = GrammarProof
  import Termination = GrammarEnds

  // ---- The code points of a text ---------------------------------------------------------------

  /** Where the code points of a text end: at its end, or in front of bytes that start no complete one. */
  function DecodableEnd(s: string): nat { SkipText("", s, 0) }

  predicate IsDecodable(s: string) { DecodableEnd(s) == |s| }

  /** Whether the code points from here on are those of the text. */
  predicate OnChain(s: string, i: nat) { i <= |s| && SkipText("", s, i) == DecodableEnd(s) }

  lemma {:induction false} NextOnChain(s: string, i: nat)
    requires OnChain(s, i)
    ensures i <= DecodableEnd(s) <= |s|
    ensures CodepointLength(s, i) > 0 <==> i < DecodableEnd(s)
    ensures CodepointLength(s, i) > 0 ==> OnChain(s, i + CodepointLength(s, i))
  {}

  /** ASCII characters are code points. */
  lemma {:induction false} AsciiOnChain(s: string, i: nat, j: nat)
    requires OnChain(s, i) && i <= j <= |s| && forall k | i <= k < j :: s[k] as int < 0x80
    ensures OnChain(s, j)
    decreases j - i
  {
    if i < j {
      NextOnChain(s, i);
      assert CodepointLength(s, i) == 1;
      AsciiOnChain(s, i + 1, j);
    }
  }

  lemma LiteralOnChain(s: string, i: nat, t: Ascii)
    requires OnChain(s, i) && (At(s, i, t) || AtI(s, i, t))
    ensures OnChain(s, i + |t|)
  {
    hide OnChain;
    forall k | i <= k < i + |t| ensures s[k] as int < 0x80 {
      if At(s, i, t) { assert s[i + (k - i)] == t[k - i]; } else { assert ToLower(s[i + (k - i)]) == ToLower(t[k - i]); }
    }
    AsciiOnChain(s, i, i + |t|);
  }

  lemma ClassOnChain(s: string, i: nat, cls: CharClass)
    requires OnChain(s, i) && i < |s| && InClass(cls, s[i])
    ensures OnChain(s, i + 1)
  {
    AsciiOnChain(s, i, i + 1);
  }

  /** Whatever matches, matches whole code points. */
  lemma {:induction false} StaysOnChain(g: Reading, e: Peg, s: string, i: nat, rank: nat)
    requires OnChain(s, i)
    ensures Eval(g, e, s, i, rank).Ok? ==> OnChain(s, Eval(g, e, s, i, rank).pos)
    decreases |s| - i, rank, e
  {
    hide OnChain, Body, Rank, At, AtI;
    assert i <= |s| by { NextOnChain(s, i); }
    match e
    case Any => NextOnChain(s, i);
    case Class(cls) => if i < |s| && InClass(cls, s[i]) { ClassOnChain(s, i, cls); }
    case T(t) => if At(s, i, t) { LiteralOnChain(s, i, t); }
    case TI(t) => if AtI(s, i, t) { LiteralOnChain(s, i, t); }
    case Seq(a, b) =>
      StaysOnChain(g, a, s, i, rank);
      var o := Eval(g, a, s, i, rank);
      if o.Ok? { StaysOnChain(g, b, s, o.pos, After(i, o.pos, rank)); }
    case Alt(a, b) => StaysOnChain(g, a, s, i, rank); StaysOnChain(g, b, s, i, rank);
    case Star(a) =>
      StaysOnChain(g, a, s, i, rank);
      var o := Eval(g, a, s, i, rank);
      if o.Ok? && o.pos > i { StaysOnChain(g, e, s, o.pos, TOP); }
    case Opt(a) => StaysOnChain(g, a, s, i, rank);
    case Ref(r) => if Rank(r) < rank { StaysOnChain(g, Body(g, r), s, i, Rank(r)); }
    case _ =>
  }

  // ---- The two readings --------------------------------------------------------------------------

  /** The end of the input and `!.` differ in front of bytes that start no complete code point, and only there. */
  lemma EndTestsAgree(s: string, i: nat, q: nat)
    requires i <= |s|
    ensures Eval(Written, EndTest(Written), s, i, q) == Eval(Parsed, EndTest(Parsed), s, i, q) <==>
            i == |s| || CodepointLength(s, i) > 0
  {
    assert Eval(Written, Not(Any), s, i, q) == if CodepointLength(s, i) == 0 then Ok(i) else Fail;
  }

  lemma SameBodies(r: Rule)
    ensures r != LineEnd ==> Body(Written, r) == Body(Parsed, r)
    ensures r == LineEnd ==> Rank(r) == 1 && forall g :: Body(g, r) == Alt(Ref(Eol), EndTest(g))
  {}

  /** In a decodable text every expression matches the same in both. */
  lemma {:induction false} Agree(e: Peg, s: string, i: nat, rank: nat)
    requires OnChain(s, i) && IsDecodable(s)
    ensures Eval(Written, e, s, i, rank) == Eval(Parsed, e, s, i, rank)
    decreases |s| - i, rank, e
  {
    hide OnChain, Body, Rank, At, AtI, EndTest;
    NextOnChain(s, i);
    StaysOnChain(Parsed, e, s, i, rank);
    match e
    case Seq(a, b) =>
      Agree(a, s, i, rank);
      StaysOnChain(Parsed, a, s, i, rank);
      var o := Eval(Parsed, a, s, i, rank);
      if o.Ok? { Agree(b, s, o.pos, After(i, o.pos, rank)); }
    case Alt(a, b) => Agree(a, s, i, rank); Agree(b, s, i, rank);
    case Star(a) =>
      Agree(a, s, i, rank);
      StaysOnChain(Parsed, a, s, i, rank);
      var o := Eval(Parsed, a, s, i, rank);
      if o.Ok? && o.pos > i { Agree(e, s, o.pos, TOP); }
    case Opt(a) => Agree(a, s, i, rank);
    case Not(a) => Agree(a, s, i, rank);
    case Ref(r) =>
      if Rank(r) < rank {
        SameBodies(r);
        if r == LineEnd {
          Agree(Ref(Eol), s, i, Rank(r));
          EndTestsAgree(s, i, Rank(r));
          EitherEnd(s, i, Rank(r));
        } else {
          Agree(Body(Parsed, r), s, i, Rank(r));
        }
      }
    case _ =>
  }

  lemma EitherEnd(s: string, i: nat, q: nat)
    requires i <= |s| && Eval(Written, Ref(Eol), s, i, q) == Eval(Parsed, Ref(Eol), s, i, q)
    requires Eval(Written, EndTest(Written), s, i, q) == Eval(Parsed, EndTest(Parsed), s, i, q)
    ensures Eval(Written, Alt(Ref(Eol), EndTest(Written)), s, i, q) == Eval(Parsed, Alt(Ref(Eol), EndTest(Parsed)), s, i, q)
  {
    hide Body, Rank, EndTest;
  }

  lemma {:induction false} EndOnChain(s: string, i: nat)
    requires OnChain(s, i)
    ensures OnChain(s, DecodableEnd(s))
    decreases |s| - i
  {
    NextOnChain(s, i);
    if i < DecodableEnd(s) { EndOnChain(s, i + CodepointLength(s, i)); }
  }

  lemma StartOnChain(s: string)
    ensures OnChain(s, 0)
  {}

  /** Where the text is not decodable any more, the comment's grammar sees the end of a line and the parser does not. */
  lemma LineEndsDiffer(s: string, i: nat)
    requires i < |s| && CodepointLength(s, i) == 0
    ensures Eval(Written, Ref(LineEnd), s, i, TOP) == Ok(i) && Eval(Parsed, Ref(LineEnd), s, i, TOP) == Fail
  {
    NoEol(Written, s, i);
    NoEol(Parsed, s, i);
    EnterLineEnd(Written, s, i);
    EnterLineEnd(Parsed, s, i);
    hide Body, Rank, At;
  }

  lemma EnterLineEnd(g: Reading, s: string, i: nat)
    requires i <= |s|
    ensures Eval(g, Ref(LineEnd), s, i, TOP) ==
            match Eval(g, Ref(Eol), s, i, 1) case Fail => Eval(g, EndTest(g), s, i, 1) case r => r
  {
    SameBodies(LineEnd);
    hide Body, EndTest, At;
    assert Eval(g, Ref(LineEnd), s, i, TOP) == Eval(g, Alt(Ref(Eol), EndTest(g)), s, i, 1);
  }

  lemma NoEol(g: Reading, s: string, i: nat)
    requires i < |s| && s[i] as int >= 0x80
    ensures Eval(g, Ref(Eol), s, i, 1) == Fail
  {
    EolBody(g);
    Proof.AtPair(s, i, "\r\n");
    Proof.AtChar(s, i, "\n");
    Proof.AtChar(s, i, "\r");
    hide Body, At;
    assert Eval(g, Alt(T("\n"), T("\r")), s, i, 0) == Fail;
    assert Eval(g, Body(g, Eol), s, i, 0) == Fail;
  }

  lemma EolBody(g: Reading)
    ensures Body(g, Eol) == Alt(T("\r\n"), Alt(T("\n"), T("\r"))) && Rank(Eol) == 0
  {}

  /** Rule by rule, the two agree on all code points of a text exactly when it is decodable to its end. */
  lemma RulesAgreeExactly(s: string)
    ensures IsDecodable(s) <==>
            forall r: Rule, i: nat | i <= |s| && OnChain(s, i) ::
              Eval(Written, Ref(r), s, i, TOP) == Eval(Parsed, Ref(r), s, i, TOP)
  {
    hide *;
    var e := DecodableEnd(s);
    StartOnChain(s);
    EndOnChain(s, 0);
    NextOnChain(s, e);
    if e < |s| {
      LineEndsDiffer(s, e);
      NotDecodable(s);
    } else {
      Decodable(s);
      forall r: Rule, i: nat | i <= |s| && OnChain(s, i)
        ensures Eval(Written, Ref(r), s, i, TOP) == Eval(Parsed, Ref(r), s, i, TOP)
      {
        Agree(Ref(r), s, i, TOP);
      }
    }
  }

  lemma NotDecodable(s: string)
    requires DecodableEnd(s) < |s|
    ensures !IsDecodable(s)
  {}

  lemma Decodable(s: string)
    requires DecodableEnd(s) == |s|
    ensures IsDecodable(s)
  {}

  /** A comment that ends at such bytes is one for the comment's grammar, not for the parser. */
  lemma CommentsDiffer(s: string)
    requires |s| == 3 && s[0] == '-' && s[1] == '-' && CodepointLength(s, 2) == 0
    ensures Eval(Written, Ref(LineComment), s, 0, TOP) == Ok(2) && Eval(Parsed, Ref(LineComment), s, 0, TOP) == Fail
  {
    Proof.CommentRule(s, 0, TOP);
    Proof.AtPair(s, 0, "--");
    CommentBody();
    LineEndsDiffer(s, 2);
    NoEolAnyRank(s, 2);
    hide Body, At, Rank;
    var rest := Star(Except(Ref(Eol)));
    assert Eval(Written, Except(Ref(Eol)), s, 2, TOP) == Fail;
    assert Eval(Written, rest, s, 2, TOP) == Ok(2);
    assert Eval(Written, Not(Ref(LineEnd)), s, 2, TOP) == Fail;
    assert Eval(Written, Seq(T("--"), rest), s, 0, 2) == Ok(2);
    assert Eval(Written, Then2(T("--"), rest, Not(Not(Ref(LineEnd)))), s, 0, 2) == Ok(2);
  }

  lemma CommentBody()
    ensures Body(Written, LineComment) == Then2(T("--"), Star(Except(Ref(Eol))), Not(Not(Ref(LineEnd))))
    ensures Rank(LineComment) == 2
  {}

  lemma NoEolAnyRank(s: string, i: nat)
    requires i < |s| && s[i] as int >= 0x80
    ensures Eval(Written, Ref(Eol), s, i, TOP) == Fail
  {
    NoEol(Written, s, i);
    EolBody(Written);
    hide Body;
  }

  // ---- What the grammar decides --------------------------------------------------------------------

  /** Both readings match the whole of the same texts. */
  lemma SameInputs(s: string)
    ensures Eval(Written, Ref(Root), s, 0, TOP) == Ok(|s|) <==> Eval(Parsed, Ref(Root), s, 0, TOP) == Ok(|s|)
  {
    hide *;
    StartOnChain(s);
    if DecodableEnd(s) == |s| {
      Decodable(s);
      Agree(Ref(Root), s, 0, TOP);
    } else {
      EndNotReached(Written, s);
      EndNotReached(Parsed, s);
    }
  }

  /** The rest of a text that is not decodable can never be consumed. */
  lemma EndNotReached(g: Reading, s: string)
    requires DecodableEnd(s) != |s|
    ensures Eval(g, Ref(Root), s, 0, TOP) != Ok(|s|)
  {
    hide *;
    StartOnChain(s);
    StaysOnChain(g, Ref(Root), s, 0, TOP);
    if Eval(g, Ref(Root), s, 0, TOP) == Ok(|s|) { NextOnChain(s, |s|); }
  }

  /** Without a semantic error, an input is accepted exactly when the grammar of the comment matches all of it; and whatever
      the input is, the matching ends. */
  lemma GrammarDecides(s: string, m: Model)
    ensures Eval(Written, Ref(Root), s, 0, TOP) != Stuck
    ensures !R.ParseInto(s, m).Abort? ==>
              (Eval(Written, Ref(Root), s, 0, TOP) == Ok(|s|) <==> R.ParseInto(s, m).Match?)
  {
    hide *;
    Termination.GrammarEnds(Written, Root, s, 0);
    if !R.ParseInto(s, m).Abort? {
      Proof.ParsedDecides(s, m);
      SameInputs(s);
    }
  }
}
