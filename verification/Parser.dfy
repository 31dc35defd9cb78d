/** The recursive-descent parser as a machine: a cursor, the model under construction, the index of declared
    names, and the report of the farthest failure. Each method is one rule of the original and is proved to
    do what Rules.dfy says; the failures seen so far are logged in a ghost field to specify the report. */
module Parser {
  import opened Text
  import opened Acts
  import R = Rules

  // ---- Failures and their report -----------------------------------------------------------

  /** What was expected somewhere: a literal, or something the message describes. */
  datatype Expectation = Literal(text: string) | AnIdentifier | AnInteger | AStrength | AnEnumValue | EndOfLine | EndOfInput

  /** A failed match: where, and what would have matched. */
  datatype Failure = Failure(at: nat, entry: Expectation, ignoreCase: bool)

  /** The farthest position of a failure. */
  function Farthest(log: seq<Failure>): nat {
    if log == [] then 0
    else
      var rest, last := Farthest(log[..|log| - 1]), log[|log| - 1].at;
      if last > rest then last else rest
  }

  /** The distinct expectations at position `p`, in the order in which they were first seen. */
  function ExpectedAtPosition(log: seq<Failure>, p: nat): seq<Expectation> {
    if log == [] then []
    else
      var rest, last := ExpectedAtPosition(log[..|log| - 1], p), log[|log| - 1];
      if last.at == p && last.entry !in rest then rest + [last.entry] else rest
  }

  lemma {:induction false} FarthestIsMaximum(log: seq<Failure>)
    ensures forall k | 0 <= k < |log| :: log[k].at <= Farthest(log)
    ensures log != [] ==> exists k | 0 <= k < |log| :: log[k].at == Farthest(log)
  {
    if log != [] {
      var n := |log| - 1;
      var rest := log[..n];
      FarthestIsMaximum(rest);
      if log[n].at != Farthest(log) {
        assert Farthest(rest) > log[n].at;
        assert rest != [];
        var k :| 0 <= k < |rest| && rest[k].at == Farthest(rest);
        assert log[k] == rest[k];
      } else {
        assert log[n].at == Farthest(log);
      }
    }
  }

  lemma {:induction false} FailureIsReported(log: seq<Failure>, k: nat)
    requires k < |log|
    ensures log[k].entry in ExpectedAtPosition(log, log[k].at)
  {
    var n := |log| - 1;
    var rest := log[..n];
    if k < n {
      assert rest[k] == log[k];
      FailureIsReported(rest, k);
    }
  }

  lemma {:induction false} ReportedIsFailure(log: seq<Failure>, p: nat, e: Expectation) returns (k: nat)
    requires e in ExpectedAtPosition(log, p)
    ensures k < |log| && log[k].at == p && log[k].entry == e
  {
    var n := |log| - 1;
    var rest := log[..n];
    if e in ExpectedAtPosition(rest, p) {
      k := ReportedIsFailure(rest, p, e);
      assert rest[k] == log[k];
    } else {
      k := n;
    }
  }

  lemma {:induction false} ReportedOnce(log: seq<Failure>, p: nat, a: nat, b: nat)
    requires a < b < |ExpectedAtPosition(log, p)|
    ensures ExpectedAtPosition(log, p)[a] != ExpectedAtPosition(log, p)[b]
  {
    var rest := log[..|log| - 1];
    if b < |ExpectedAtPosition(rest, p)| { ReportedOnce(rest, p, a, b); }
  }

  /** Entries come in the order in which they were first seen: later failures only append. */
  lemma {:induction false} FirstSeenFirst(log: seq<Failure>, p: nat, n: nat)
    requires n <= |log|
    ensures ExpectedAtPosition(log[..n], p) <= ExpectedAtPosition(log, p)
  {
    if n == |log| {
      assert log[..n] == log;
    } else {
      var rest := log[..|log| - 1];
      FirstSeenFirst(rest, p, n);
      assert rest[..n] == log[..n];
    }
  }

  /** The report holds exactly what was expected at `p`, each entry once. */
  lemma ExpectedExactly(log: seq<Failure>, p: nat)
    ensures var es := ExpectedAtPosition(log, p);
            && (forall e :: e in es <==> exists k | 0 <= k < |log| :: log[k].at == p && log[k].entry == e)
            && (forall a, b | 0 <= a < b < |es| :: es[a] != es[b])
  {
    var es := ExpectedAtPosition(log, p);
    forall e ensures e in es <==> exists k | 0 <= k < |log| :: log[k].at == p && log[k].entry == e {
      if e in es { var k := ReportedIsFailure(log, p, e); }
      if k :| 0 <= k < |log| && log[k].at == p && log[k].entry == e { FailureIsReported(log, k); }
    }
    forall a, b | 0 <= a < b < |es| ensures es[a] != es[b] { ReportedOnce(log, p, a, b); }
  }

  /** Nothing beyond the farthest position was expected, something at it was. */
  lemma ReportIsNotEmpty(log: seq<Failure>)
    requires log != []
    ensures ExpectedAtPosition(log, Farthest(log)) != []
  {
    FarthestIsMaximum(log);
    var k :| 0 <= k < |log| && log[k].at == Farthest(log);
    FailureIsReported(log, k);
  }

  lemma {:induction false} NothingBeyond(log: seq<Failure>, p: nat)
    requires p > Farthest(log)
    ensures ExpectedAtPosition(log, p) == []
  {
    if log != [] { NothingBeyond(log[..|log| - 1], p); }
  }

  /** What a logged failure says about the input: the expected thing does not stand there. */
  predicate Refuted(s: string, f: Failure) {
    && f.at <= |s|
    && match f.entry
       case Literal(t) => if f.ignoreCase then !AtI(s, f.at, t) else !At(s, f.at, t)
       case AnIdentifier => R.Identifier(s, f.at).NoMatch?
       case AnInteger => R.SkipRun(Digit, s, f.at) == f.at
       case AStrength => R.SkipRun(Digit, s, f.at) == f.at
       case AnEnumValue => R.AnyExcept(",; \t\n\r", s, f.at).None? || R.AnyExcept(",;\" \t\n\r", s, f.at).None?
       case EndOfLine => R.LineEnd(s, f.at).NoMatch?
       case EndOfInput => f.at < |s|
  }

  predicate AllRefuted(s: string, log: seq<Failure>) { forall k | 0 <= k < |log| :: Refuted(s, log[k]) }

  /** What one more failure changes in the report. */
  lemma ReportGrows(s: string, log: seq<Failure>, f: Failure)
    requires AllRefuted(s, log) && Refuted(s, f)
    ensures AllRefuted(s, log + [f]) && f.at <= |s|
    ensures Farthest(log + [f]) == if f.at > Farthest(log) then f.at else Farthest(log)
    ensures forall p: nat :: ExpectedAtPosition(log + [f], p) ==
              var es := ExpectedAtPosition(log, p); if f.at == p && f.entry !in es then es + [f.entry] else es
    ensures f.at > Farthest(log) ==> ExpectedAtPosition(log, f.at) == []
  {
    assert f.at <= |s|;
    hide Refuted;
    var more := log + [f];
    assert more[..|more| - 1] == log;
    if f.at > Farthest(log) { NothingBeyond(log, f.at); }
  }

  // ---- The model under construction -----------------------------------------------------------

  class ModelObject {
    var name: string
    var parameters: seq<Parameter>
    var relations: seq<Relation>
    var constraints: seq<Constraint>

    constructor ()
      ensures Contents() == EmptyModel()
    {
      name, parameters, relations, constraints := "", [], [], [];
    }

    function Contents(): Model
      reads this
    {
      Model(name, parameters, relations, constraints)
    }

    method SetName(n: string)
      modifies `name
      ensures name == n
    {
      name := n;
    }

    method AddParameter(p: Parameter)
      modifies `parameters
      ensures parameters == old(parameters) + [p]
    {
      parameters := parameters + [p];
    }

    method AddRelation(r: Relation)
      modifies `relations
      ensures relations == old(relations) + [r]
    {
      relations := relations + [r];
    }

    method AddConstraint(c: Constraint)
      modifies `constraints
      ensures constraints == old(constraints) + [c]
    {
      constraints := constraints + [c];
    }
  }

  /** How a rule's method ends: it matched, it did not, or it threw a semantic error. */
  datatype Flow = Done | Failed | Thrown

  // ---- Places in the input ----------------------------------------------------------------------

  /** A line ends with '\r\n', '\n' or '\r': this is the last character of such an end. */
  predicate IsBreak(s: string, i: nat)
    requires i < |s|
  {
    s[i] == '\n' || (s[i] == '\r' && (i + 1 == |s| || s[i + 1] != '\n'))
  }

  function LineOf(s: string, p: nat): nat
    requires p <= |s|
  {
    if p == 0 then 1 else LineOf(s, p - 1) + if IsBreak(s, p - 1) then 1 else 0
  }

  function LineStart(s: string, p: nat): (start: nat)
    requires p <= |s|
    ensures start <= p
  {
    if p == 0 then 0 else if IsBreak(s, p - 1) then p else LineStart(s, p - 1)
  }

  /** Code points, where each byte that starts no complete one counts. */
  function CountCodepoints(s: string, i: nat): nat
    requires i <= |s|
    decreases |s| - i
  {
    if i == |s| then 0
    else 1 + CountCodepoints(s, i + if CodepointLength(s, i) == 0 then 1 else CodepointLength(s, i))
  }

  datatype Place = Place(line: nat, column: nat)

  function PlaceOf(s: string, p: nat): Place
    requires p <= |s|
  {
    Place(LineOf(s, p), 1 + CountCodepoints(s[LineStart(s, p)..p], 0))
  }

  /** The ends of lines before a position. */
  function Breaks(s: string, p: nat): set<nat>
    requires p <= |s|
  {
    set i: nat | i < p && IsBreak(s, i)
  }

  /** The number of a line is one more than the number of ends of lines before. */
  lemma {:induction false} LineCounts(s: string, p: nat)
    requires p <= |s|
    ensures LineOf(s, p) == 1 + |Breaks(s, p)|
    decreases p
  {
    if p == 0 {
      assert Breaks(s, 0) == {};
    } else {
      LineCounts(s, p - 1);
      if IsBreak(s, p - 1) {
        assert Breaks(s, p) == Breaks(s, p - 1) + {p - 1};
      } else {
        assert Breaks(s, p) == Breaks(s, p - 1);
      }
    }
  }

  /** A line starts at the beginning or after the last break before. */
  lemma {:induction false} LineStarts(s: string, p: nat)
    requires p <= |s|
    ensures LineStart(s, p) == 0 || LineStart(s, p) - 1 in Breaks(s, p)
    ensures forall i | i in Breaks(s, p) :: i < LineStart(s, p)
    decreases p
  {
    if p > 0 {
      LineStarts(s, p - 1);
      forall i | i in Breaks(s, p) ensures i < LineStart(s, p) {
        if i < p - 1 { assert i in Breaks(s, p - 1); }
      }
    }
  }

  /** A text that is made of complete code points counts as many more as it has: one for each of them. */
  lemma {:induction false} CodepointsAdd(a: string, b: string, i: nat)
    requires i <= |a| && SkipText("", a, i) == |a|
    ensures CountCodepoints(a + b, i) == CountCodepoints(a, i) + CountCodepoints(b, 0)
    decreases |a| - i
  {
    if i == |a| {
      CountFrom(a, b, 0);
    } else {
      SameCodepoint(a, b, i);
      CodepointsAdd(a, b, i + CodepointLength(a, i));
    }
  }

  lemma SameCodepoint(a: string, b: string, i: nat)
    requires i < |a| && CodepointLength(a, i) > 0
    ensures CodepointLength(a + b, i) == CodepointLength(a, i)
  {
    assert (a + b)[i] == a[i];
  }

  lemma {:induction false} CountFrom(a: string, b: string, i: nat)
    requires i <= |b|
    ensures CountCodepoints(a + b, |a| + i) == CountCodepoints(b, i)
    decreases |b| - i
  {
    if i < |b| {
      assert (a + b)[|a| + i] == b[i];
      assert CodepointLength(a + b, |a| + i) == CodepointLength(b, i);
      CountFrom(a, b, i + if CodepointLength(b, i) == 0 then 1 else CodepointLength(b, i));
    }
  }

  /** A single code point counts as one, and so does a byte that starts none. */
  lemma OneCodepoint(c: string)
    requires c != "" && (CodepointLength(c, 0) == |c| || (CodepointLength(c, 0) == 0 && |c| == 1))
    ensures CountCodepoints(c, 0) == 1
  {}

  /** Columns start with 1 in every line and grow by one for each code point. */
  lemma ColumnCounts(s: string, p: nat, q: nat)
    requires p <= q <= |s| && LineStart(s, p) == LineStart(s, q)
    requires Covers("", s[LineStart(s, p)..p])
    ensures PlaceOf(s, p).line == PlaceOf(s, q).line
    ensures PlaceOf(s, q).column == PlaceOf(s, p).column + CountCodepoints(s[p..q], 0)
    ensures PlaceOf(s, LineStart(s, p)).column == 1
  {
    var start := LineStart(s, p);
    CodepointsAdd(s[start..p], s[p..q], 0);
    assert s[start..p] + s[p..q] == s[start..q];
    SameLine(s, p, q);
    StartOfStart(s, p);
    assert s[start..start] == "";
    hide LineOf, LineStart, Covers;
  }

  lemma {:induction false} SameLine(s: string, p: nat, q: nat)
    requires p <= q <= |s| && LineStart(s, p) == LineStart(s, q)
    ensures LineOf(s, p) == LineOf(s, q)
    decreases q
  {
    if p < q {
      StartGrows(s, p, q - 1);
      SameLine(s, p, q - 1);
    }
  }

  lemma {:induction false} StartGrows(s: string, p: nat, q: nat)
    requires p <= q <= |s|
    ensures LineStart(s, p) <= LineStart(s, q)
    decreases q
  {
    if p < q { StartGrows(s, p, q - 1); }
  }

  lemma {:induction false} StartOfStart(s: string, p: nat)
    requires p <= |s|
    ensures LineStart(s, LineStart(s, p)) == LineStart(s, p)
    decreases p
  {
    if p > 0 && !IsBreak(s, p - 1) { StartOfStart(s, p - 1); }
  }

  /** Lines are those of the grammar: what Eol recognises leads to the first column of the next line, and nothing
      else changes the line. */
  lemma EolStartsLine(s: string, i: nat)
    requires i < |s| && (s[i] == '\n' && i > 0 ==> s[i - 1] != '\r')
    ensures match R.Eol(s, i)
            case Some(j) => PlaceOf(s, j) == Place(LineOf(s, i) + 1, 1)
            case None => LineOf(s, i + 1) == LineOf(s, i) && LineStart(s, i + 1) == LineStart(s, i)
  {
    var eol := R.Eol(s, i);
    if eol.Some? {
      var j := eol.value;
      assert IsBreak(s, j - 1) && (j == i + 2 ==> !IsBreak(s, i));
      assert LineOf(s, j - 1) == LineOf(s, i);
      assert s[j..j] == "";
    }
  }

  /** The message of the last error: what it reports, apart from its wording. */
  datatype Message =
    | NoMessage
    | SemanticMessage(place: Place, error: R.SemanticError)
    | SyntaxMessage(place: Place, expected: seq<Expectation>)

  /** The message of a semantic error. */
  function MessageOf(s: string, e: R.SemanticError): Message
    requires e.at <= |s|
  {
    SemanticMessage(PlaceOf(s, e.at), e)
  }

  /** A method's end agrees with the outcome of its rule. */
  ghost predicate Agrees<T>(o: R.Outcome<T>, flow: Flow, pos: nat, v: T, s: string, message: Message) {
    match flow
    case Done => o == R.Match(pos, v)
    case Failed => o.NoMatch?
    case Thrown => o.Abort? && o.error.at <= |s| && message == MessageOf(s, o.error)
  }

  // ---- Repetitions ------------------------------------------------------------------------------

  /** The elements collected so far, and then those of the rest. */
  function Appended<T>(collected: seq<T>, rest: R.Outcome<seq<T>>): R.Outcome<seq<T>> {
    match rest
    case Match(k, vs) => R.Match(k, collected + vs)
    case NoMatch => R.NoMatch
    case Abort(e) => R.Abort(e)
  }

  /** One round of a repetition: another element, or its end. */
  ghost predicate Round<T>(one: R.Outcome<T>, i: nat, here: R.Outcome<seq<T>>, after: R.Outcome<seq<T>>) {
    match one
    case Match(j, v) => here == Appended([v], after)
    case NoMatch => here == R.Match(i, [])
    case Abort(e) => here == R.Abort(e)
  }

  /** The loop invariant of every repetition is kept by a round. */
  lemma NextRound<T>(collected: seq<T>, one: R.Outcome<T>, i: nat, here: R.Outcome<seq<T>>, after: R.Outcome<seq<T>>)
    requires Round(one, i, here, after)
    ensures match one
            case Match(j, v) => Appended(collected, here) == Appended(collected + [v], after)
            case NoMatch => Appended(collected, here) == R.Match(i, collected)
            case Abort(e) => Appended(collected, here) == R.Abort(e)
  {
    if one.Match? && after.Match? {
      assert collected + ([one.value] + after.value) == collected + [one.value] + after.value;
    } else if one.NoMatch? {
      assert collected + [] == collected;
    }
  }

  lemma ElementRound(kind: R.ElementKind, s: string, i: nat, j: nat, ds: set<string>)
    requires i <= |s| && j <= |s| && (R.NextElement(kind, s, i, ds).Match? ==> j == R.NextElement(kind, s, i, ds).pos)
    ensures Round(R.NextElement(kind, s, i, ds), i, R.MoreElements(kind, s, i, ds), R.MoreElements(kind, s, j, ds))
  {
    hide R.NextElement;
  }

  lemma ParameterRound(s: string, i: nat, j: nat)
    requires i <= |s| && j <= |s|
    requires R.ParameterRule(s, i).Match? ==> j == R.Spacing(s, R.ParameterRule(s, i).pos)
    ensures Round(R.ParameterRule(s, i), i, R.MoreParameters(s, i), R.MoreParameters(s, j))
  {
    hide R.ParameterRule, R.Spacing;
  }

  lemma RelationRound(s: string, i: nat, j: nat, ds: set<string>)
    requires i <= |s| && j <= |s| && (R.RelationRule(s, i, ds).Match? ==> j == R.RelationRule(s, i, ds).pos)
    ensures Round(R.RelationRule(s, i, ds), i, R.Relations(s, i, ds), R.Relations(s, j, ds))
  {
    hide R.RelationRule;
  }

  /** The same, for a method that leaves the value in the model. */
  ghost predicate Ends<T>(o: R.Outcome<T>, flow: Flow, pos: nat, s: string, message: Message) {
    match flow
    case Done => o.Match? && o.pos == pos
    case Failed => o.NoMatch?
    case Thrown => o.Abort? && o.error.at <= |s| && message == MessageOf(s, o.error)
  }

  /** The same, for a method that fills a pointer to a constraint: a match leaves no null pointer. */
  ghost predicate Yields(o: R.Outcome<Constraint>, flow: Flow, pos: nat, c: Option<Constraint>, s: string, message: Message) {
    match flow
    case Done => c.Some? && o == R.Match(pos, c.value)
    case Failed => o.NoMatch?
    case Thrown => o.Abort? && o.error.at <= |s| && message == MessageOf(s, o.error)
  }

  lemma OperandRound(op: NaryOperator, s: string, i: nat, j: nat, ds: set<string>)
    requires i <= |s| && j <= |s| && (R.NextOperand(op, s, i, ds).Match? ==> j == R.NextOperand(op, s, i, ds).pos)
    ensures Round(R.NextOperand(op, s, i, ds), i, R.MoreOperands(op, s, i, ds), R.MoreOperands(op, s, j, ds))
  {
    hide R.NextOperand;
  }

  lemma ConstraintRound(s: string, i: nat, j: nat, ds: set<string>)
    requires i <= |s| && j <= |s| && (R.ConstraintRule(s, i, ds).Match? ==> j == R.ConstraintRule(s, i, ds).pos)
    ensures Round(R.ConstraintRule(s, i, ds), i, R.Constraints(s, i, ds), R.Constraints(s, j, ds))
  {
    hide R.ConstraintRule;
  }

  /** One operand stays alone, several become an expression. */
  function Combined(op: NaryOperator, first: Constraint, rest: R.Outcome<seq<Constraint>>): R.Outcome<Constraint> {
    match rest
    case Match(k, cs) => R.Match(k, if cs == [] then first else Nary(op, [first] + cs))
    case NoMatch => R.NoMatch
    case Abort(e) => R.Abort(e)
  }

  lemma OperandsJoin(op: NaryOperator, s: string, i: nat, j: nat, first: Constraint, ds: set<string>)
    requires i <= |s| && j <= |s| && R.OperandOf(op, s, i, ds) == R.Match(j, first)
    ensures R.Operands(op, s, i, ds) == Combined(op, first, R.MoreOperands(op, s, j, ds))
    ensures R.MoreOperands(op, s, j, ds) == Appended([], R.MoreOperands(op, s, j, ds))
  {
    hide R.OperandOf, R.MoreOperands;
    var o := R.MoreOperands(op, s, j, ds);
    if o.Match? { assert [] + o.value == o.value; }
  }

  lemma IndexKeys(index: map<string, nat>, ps: seq<Parameter>)
    requires IsIndex(index, ps)
    ensures index.Keys == Declared(ps)
  {}

  ghost function AfterSign(s: string, i: nat): nat { if i < |s| && InClass(Sign, s[i]) then i + 1 else i }

  /** What a single match leaves in the log: its failure, if it fails. */
  ghost function LogAfter(log: seq<Failure>, flow: Flow, f: Failure): (after: seq<Failure>)
    ensures log <= after && (flow.Failed? ==> log < after)
  {
    if flow.Failed? then log + [f] else log
  }

  class ActsParser {
    var input: string
    var pos: nat
    var farthest: nat
    var expected: seq<Expectation>
    var message: Message
    var model: ModelObject
    var paramIndices: map<string, nat>
    ghost var log: seq<Failure>

    constructor ()
      ensures Valid() && Indexed()
    {
      input, pos, farthest, expected, message, paramIndices, log := "", 0, 0, [], NoMessage, map[], [];
      model := new ModelObject();
    }

    /** The cursor is in the input and the report is that of the logged failures, which are all real. */
    ghost predicate Valid()
      reads `input, `pos, `farthest, `expected, `log
    {
      pos <= |input| && Reported()
    }

    ghost predicate Reported()
      reads `input, `farthest, `expected, `log
    {
      && farthest == Farthest(log) && farthest <= |input|
      && expected == ExpectedAtPosition(log, farthest)
      && AllRefuted(input, log)
    }

    // ---- Failures ---------------------------------------------------------------------------

    /** Records a failure at position `at`. */
    method ExpectedAt(at: nat, entry: Expectation, ghost ignoreCase: bool)
      requires Valid() && Refuted(input, Failure(at, entry, ignoreCase))
      modifies `farthest, `expected, `log
      ensures Valid() && log == old(log) + [Failure(at, entry, ignoreCase)]
    {
      hide Refuted, AllRefuted, Farthest, ExpectedAtPosition;
      ReportGrows(input, log, Failure(at, entry, ignoreCase));
      log := log + [Failure(at, entry, ignoreCase)];
      if at > farthest {
        farthest := at;
        expected := [];
      }
      if at == farthest {
        var known := false;
        var k := 0;
        while k < |expected|
          invariant k <= |expected|
          invariant known <==> entry in expected[..k]
        {
          known := known || expected[k] == entry;
          k := k + 1;
        }
        assert expected[..|expected|] == expected;
        if !known { expected := expected + [entry]; }
      }
    }

    method Expected(entry: Expectation)
      requires Valid() && Refuted(input, Failure(pos, entry, false))
      modifies `farthest, `expected, `log
      ensures Valid() && log == old(log) + [Failure(pos, entry, false)]
    {
      ExpectedAt(pos, entry, false);
    }

    // ---- Lexical rules ------------------------------------------------------------------------

    method SkipWhitespace()
      requires Valid()
      modifies `pos
      ensures Valid() && pos == R.Whitespace(input, old(pos))
    {
      hide Reported;
      while pos < |input| && (input[pos] == ' ' || input[pos] == '\t' || input[pos] == '\r' || input[pos] == '\n')
        invariant pos <= |input| && Reported()
        invariant R.Whitespace(input, pos) == R.Whitespace(input, old(pos))
      {
        pos := pos + 1;
      }
    }

    method SkipSpaces()
      requires Valid()
      modifies `pos
      ensures Valid() && pos == R.Spaces(input, old(pos))
    {
      hide Reported;
      while pos < |input| && (input[pos] == ' ' || input[pos] == '\t')
        invariant pos <= |input| && Reported()
        invariant R.Spaces(input, pos) == R.Spaces(input, old(pos))
      {
        pos := pos + 1;
      }
    }

    method AnyCharExcept(stop: string) returns (ok: bool)
      requires Valid()
      modifies `pos
      ensures Valid() && ok == R.AnyExcept(stop, input, old(pos)).Some?
      ensures pos == if ok then R.AnyExcept(stop, input, old(pos)).value else old(pos)
    {
      hide Reported;
      if pos == |input| || input[pos] in stop { return false; }
      var len := CodepointLength(input, pos);
      if len == 0 { return false; }
      pos := pos + len;
      return true;
    }

    /** while (any_char_except(stop)) {} */
    method SkipTextExcept(stop: string)
      requires Valid()
      modifies `pos
      ensures Valid() && pos == SkipText(stop, input, old(pos))
    {
      hide Reported;
      var more := true;
      while more
        invariant pos <= |input| && Reported()
        invariant SkipText(stop, input, pos) == SkipText(stop, input, old(pos))
        invariant !more ==> SkipText(stop, input, pos) == pos
        decreases |input| - pos, more
      {
        more := AnyCharExcept(stop);
      }
    }

    method SkipLineComment() returns (ok: bool)
      requires Valid()
      modifies `pos
      ensures Valid() && ok == R.LineComment(input, old(pos)).Some?
      ensures pos == if ok then R.LineComment(input, old(pos)).value else old(pos)
    {
      hide Reported, SkipText;
      if !At(input, pos, "--") { return false; }
      var start := pos;
      pos := pos + 2;
      SkipTextExcept("\n\r");
      if pos < |input| && input[pos] != '\n' && input[pos] != '\r' {
        pos := start;
        return false;
      }
      return true;
    }

    method SkipSpacing()
      requires Valid()
      modifies `pos
      ensures Valid() && pos == R.Spacing(input, old(pos))
    {
      hide Reported, R.LineComment;
      while pos < |input|
        invariant pos <= |input| && Reported()
        invariant R.Spacing(input, pos) == R.Spacing(input, old(pos))
      {
        var c := input[pos];
        if c == ' ' || c == '\t' || c == '\r' || c == '\n' {
          pos := pos + 1;
        } else {
          var comment := SkipLineComment();
          if !comment { return; }
        }
      }
    }

    method TakeEol() returns (ok: bool)
      requires Valid()
      modifies `pos
      ensures Valid() && ok == R.Eol(input, old(pos)).Some?
      ensures pos == if ok then R.Eol(input, old(pos)).value else old(pos)
    {
      hide Reported;
      if pos < |input| && input[pos] == '\r' {
        pos := pos + 1;
        if pos < |input| && input[pos] == '\n' { pos := pos + 1; }
        return true;
      }
      if pos < |input| && input[pos] == '\n' {
        pos := pos + 1;
        return true;
      }
      return false;
    }

    method TakeLineEnd() returns (flow: Flow)
      requires Valid()
      modifies `pos, `farthest, `expected, `log
      ensures Valid() && log == LogAfter(old(log), flow, Failure(old(pos), EndOfLine, false))
      ensures Agrees(R.LineEnd(input, old(pos)), flow, pos, (), input, message)
    {
      hide Reported, R.Eol;
      var ok := TakeEol();
      if ok || pos == |input| { return Done; }
      Expected(EndOfLine);
      return Failed;
    }

    method TakeLiteral(t: string) returns (flow: Flow)
      requires Valid()
      modifies `pos, `farthest, `expected, `log
      ensures Valid() && log == LogAfter(old(log), flow, Failure(old(pos), Expectation.Literal(t), false))
      ensures Agrees(R.Lit(input, old(pos), t), flow, pos, (), input, message)
      ensures flow.Failed? ==> pos == old(pos)
    {
      hide Reported;
      var end := if pos + |t| <= |input| then pos + |t| else |input|;
      AtSlice(input, pos, t);
      hide At;
      if input[pos..end] != t {
        ExpectedAt(pos, Expectation.Literal(t), false);
        return Failed;
      }
      pos := pos + |t|;
      return Done;
    }

    static method EqualsIgnoringCase(a: string, b: string) returns (same: bool)
      ensures same == IEquals(a, b)
    {
      if |a| != |b| { return false; }
      var i := 0;
      while i < |a|
        invariant i <= |a|
        invariant forall k | 0 <= k < i :: ToLower(a[k]) == ToLower(b[k])
      {
        if ToLower(a[i]) != ToLower(b[i]) { return false; }
        i := i + 1;
      }
      return true;
    }

    method TakeLiteralI(t: string) returns (flow: Flow)
      requires Valid()
      modifies `pos, `farthest, `expected, `log
      ensures Valid() && log == LogAfter(old(log), flow, Failure(old(pos), Expectation.Literal(t), true))
      ensures Agrees(R.LitI(input, old(pos), t), flow, pos, (), input, message)
      ensures flow.Failed? ==> pos == old(pos)
    {
      hide Reported;
      var end := if pos + |t| <= |input| then pos + |t| else |input|;
      AtSlice(input, pos, t);
      hide At, AtI, IEquals;
      if end < pos + |t| { SameLength(input[pos..end], t); }
      var same := EqualsIgnoringCase(input[pos..end], t);
      if !same {
        ExpectedAt(pos, Expectation.Literal(t), true);
        return Failed;
      }
      pos := pos + |t|;
      return Done;
    }

    static lemma SameLength(a: string, b: string)
      requires |a| != |b|
      ensures !IEquals(a, b)
    {}

    method ParseIdentifier() returns (flow: Flow, name: string)
      requires Valid()
      modifies `pos, `farthest, `expected, `log
      ensures Valid() && log == LogAfter(old(log), flow, Failure(old(pos), AnIdentifier, false))
      ensures Agrees(R.Identifier(input, old(pos)), flow, pos, name, input, message)
    {
      hide Reported;
      name := "";
      if pos == |input| || !IsIdentifierStart(input[pos]) {
        Expected(AnIdentifier);
        return Failed, name;
      }
      var start := pos;
      pos := pos + 1;
      while pos < |input| && Text.IsIdentifierChar(input[pos])
        invariant start < pos <= |input| && Reported() && log == old(log)
        invariant R.SkipRun(IdentifierChar, input, pos) == R.SkipRun(IdentifierChar, input, start + 1)
      {
        pos := pos + 1;
      }
      name := input[start..pos];
      return Done, name;
    }

    method SkipDigits()
      requires Valid()
      modifies `pos
      ensures Valid() && pos == R.SkipRun(Digit, input, old(pos))
    {
      hide Reported;
      while pos < |input| && IsDigit(input[pos])
        invariant pos <= |input| && Reported()
        invariant R.SkipRun(Digit, input, pos) == R.SkipRun(Digit, input, old(pos))
      {
        pos := pos + 1;
      }
    }

    // ---- Errors ---------------------------------------------------------------------------------

    static method CountCodepointsOf(s: string) returns (count: nat)
      ensures count == CountCodepoints(s, 0)
    {
      count := 0;
      var i := 0;
      while i < |s|
        invariant i <= |s| && count + CountCodepoints(s, i) == CountCodepoints(s, 0)
      {
        var len := CodepointLength(s, i);
        i := i + if len == 0 then 1 else len;
        count := count + 1;
      }
    }

    method Position(p: nat) returns (place: Place)
      requires p <= |input|
      ensures place == PlaceOf(input, p)
      ensures place.line == 1 + |Breaks(input, p)|
    {
      LineCounts(input, p);
      var line, lineStart := 1, 0;
      for i := 0 to p
        invariant line == LineOf(input, i) && lineStart == LineStart(input, i)
      {
        if input[i] == '\n' || (input[i] == '\r' && (i + 1 == |input| || input[i + 1] != '\n')) {
          line := line + 1;
          lineStart := i + 1;
        }
      }
      var count := CountCodepointsOf(input[lineStart..p]);
      return Place(line, 1 + count);
    }

    method SemanticErrorAt(error: R.SemanticError)
      requires error.at <= |input|
      modifies `message
      ensures message == MessageOf(input, error)
    {
      var place := Position(error.at);
      message := SemanticMessage(place, error);
    }

    method ReportSyntaxError()
      requires Valid()
      modifies `message
      ensures message == SyntaxMessage(PlaceOf(input, farthest), expected)
    {
      var place := Position(farthest);
      message := SyntaxMessage(place, expected);
    }

    // ---- Numbers and headers ----------------------------------------------------------------------

    method ToInt(start: nat) returns (flow: Flow, n: int)
      requires start <= pos <= |input|
      modifies `message
      ensures !flow.Failed? && Agrees(R.ToInt(input, start, pos), flow, pos, n, input, message)
    {
      hide ParseInt, MessageOf;
      n := 0;
      match ParseInt(input[start..pos]) {
        case Some(value) => return Done, value;
        case None =>
          SemanticErrorAt(R.IntegerOutOfRange(start));
          return Thrown, n;
      }
    }

    method ParseInteger() returns (flow: Flow, n: int)
      requires Valid()
      modifies `pos, `farthest, `expected, `log, `message
      ensures Valid() && (flow.Failed? ==> pos == old(pos))
      ensures log == LogAfter(old(log), flow, Failure(AfterSign(input, old(pos)), AnInteger, false))
      ensures Agrees(R.Integer(input, old(pos)), flow, pos, n, input, message)
    {
      hide Reported, R.ToInt, R.SkipRun, MessageOf, ParseInt, PlaceOf;
      var start := pos;
      if pos < |input| && (input[pos] == '+' || input[pos] == '-') { pos := pos + 1; }
      if pos == |input| || !IsDigit(input[pos]) {
        NoDigits(input, pos);
        Expected(AnInteger);
        pos := start;
        return Failed, 0;
      }
      SkipDigits();
      flow, n := ToInt(start);
    }

    method ParseSectionHeader(name: string) returns (flow: Flow)
      requires Valid()
      modifies `pos, `farthest, `expected, `log
      ensures Valid() && old(log) <= log && (flow.Failed? ==> old(log) < log)
      ensures Agrees(R.SectionHeader(input, old(pos), name), flow, pos, (), input, message)
    {
      hide Valid, Reported, R.Lit, R.LitI, R.Whitespace, R.Spaces, R.LineEnd, R.Spacing;
      flow := TakeLiteral("[");
      if !flow.Done? { return; }
      SkipWhitespace();
      flow := TakeLiteralI(name);
      if !flow.Done? { return; }
      SkipWhitespace();
      flow := TakeLiteral("]");
      if !flow.Done? { return; }
      SkipSpaces();
      flow := TakeLineEnd();
      if !flow.Done? { return; }
      SkipSpacing();
    }

    // ---- Lists --------------------------------------------------------------------------------------

    /** The index leads from every declared name to a parameter of that name. */
    ghost predicate Knows(ds: set<string>)
      reads `model, `paramIndices, model`parameters
    {
      && paramIndices.Keys == ds
      && forall n | n in ds :: paramIndices[n] < |model.parameters| && model.parameters[paramIndices[n]].name == n
    }

    method ParseBooleanValue() returns (flow: Flow, v: Value)
      requires Valid()
      modifies `pos, `farthest, `expected, `log
      ensures Valid() && old(log) <= log && (flow.Failed? ==> old(log) < log)
      ensures Agrees(R.Element(R.BooleanElement, input, old(pos), {}), flow, pos, v, input, message)
    {
      hide Valid, AtI;
      v := BoolValue(true);
      flow := TakeLiteralI("true");
      if flow.Done? { return; }
      v := BoolValue(false);
      flow := TakeLiteralI("false");
    }

    method ParseEnumValue() returns (flow: Flow, v: Value)
      requires Valid()
      modifies `pos, `farthest, `expected, `log
      ensures Valid() && old(log) <= log && (flow.Failed? ==> old(log) < log)
      ensures Agrees(R.Element(R.EnumElement, input, old(pos), {}), flow, pos, v, input, message)
    {
      hide Reported, R.AnyExcept, SkipText, Trimmed;
      var start := pos;
      v := EnumValue("");
      var ok := AnyCharExcept(",; \t\n\r");
      if !ok {
        Expected(AnEnumValue);
        return Failed, v;
      }
      SkipTextExcept(",;\n\r");
      return Done, EnumValue(Trimmed(input[start..pos]));
    }

    method ParseIntegerValue() returns (flow: Flow, v: Value)
      requires Valid()
      modifies `pos, `farthest, `expected, `log, `message
      ensures Valid() && old(log) <= log && (flow.Failed? ==> old(log) < log)
      ensures Agrees(R.Element(R.IntegerElement, input, old(pos), {}), flow, pos, v, input, message)
    {
      hide Valid, R.Integer;
      var n;
      flow, n := ParseInteger();
      v := IntValue(n);
    }

    method ParseRelationParameter(ghost ds: set<string>) returns (flow: Flow, v: Value)
      requires Valid() && Knows(ds)
      modifies `pos, `farthest, `expected, `log, `message
      ensures Valid() && old(log) <= log && (flow.Failed? ==> old(log) < log)
      ensures Agrees(R.Element(R.NameElement, input, old(pos), ds), flow, pos, v, input, message)
    {
      hide Reported, R.Identifier, MessageOf;
      var start := pos;
      var name;
      flow, name := ParseIdentifier();
      v := EnumValue(name);
      if !flow.Done? { return; }
      if name !in paramIndices {
        SemanticErrorAt(R.UndeclaredInRelation(start, name));
        return Thrown, v;
      }
      v := EnumValue(model.parameters[paramIndices[name]].name);
    }

    method ParseElement(kind: R.ElementKind, ghost ds: set<string>) returns (flow: Flow, v: Value)
      requires Valid() && (kind.NameElement? ==> Knows(ds))
      modifies `pos, `farthest, `expected, `log, `message
      ensures Valid() && old(log) <= log && (flow.Failed? ==> old(log) < log)
      ensures Agrees(R.Element(kind, input, old(pos), ds), flow, pos, v, input, message)
    {
      hide Valid, Knows, R.Identifier, R.Integer, R.LitI, R.AnyExcept, SkipText, Trimmed;
      match kind {
        case BooleanElement => flow, v := ParseBooleanValue();
        case EnumElement => flow, v := ParseEnumValue();
        case IntegerElement => flow, v := ParseIntegerValue();
        case NameElement => flow, v := ParseRelationParameter(ds);
      }
    }

    /** What the loop of a list attempts. */
    method ParseNextElement(kind: R.ElementKind, ghost ds: set<string>) returns (flow: Flow, v: Value)
      requires Valid() && (kind.NameElement? ==> Knows(ds))
      modifies `pos, `farthest, `expected, `log, `message
      ensures Valid() && old(log) <= log && (flow.Failed? ==> old(log) < log)
      ensures Agrees(R.NextElement(kind, input, old(pos), ds), flow, pos, v, input, message)
    {
      hide Valid, Knows, R.Lit, R.Whitespace, R.Element;
      v := BoolValue(false);
      SkipWhitespace();
      flow := TakeLiteral(",");
      if !flow.Done? { return; }
      SkipWhitespace();
      flow, v := ParseElement(kind, ds);
    }

    method ParseList(kind: R.ElementKind, ghost ds: set<string>) returns (flow: Flow, values: seq<Value>)
      requires Valid() && (kind.NameElement? ==> Knows(ds))
      modifies `pos, `farthest, `expected, `log, `message
      ensures Valid() && old(log) <= log && (flow.Failed? ==> old(log) < log)
      ensures Agrees(R.List(kind, input, old(pos), ds), flow, pos, values, input, message)
    {
      hide Reported, Knows, R.Element, R.NextElement, R.MoreElements, Round;
      values := [];
      var v;
      flow, v := ParseElement(kind, ds);
      if !flow.Done? { return; }
      values := [v];
      var more := true;
      while more
        invariant Valid() && (kind.NameElement? ==> Knows(ds)) && old(log) <= log && pos <= |input| && flow.Done?
        invariant R.List(kind, input, old(pos), ds) ==
                  if more then Appended(values, R.MoreElements(kind, input, pos, ds)) else R.Match(pos, values)
        decreases |input| - pos, more
      {
        var start := pos;
        flow, v := ParseNextElement(kind, ds);
        ElementRound(kind, input, start, pos, ds);
        NextRound(values, R.NextElement(kind, input, start, ds), start,
                  R.MoreElements(kind, input, start, ds), R.MoreElements(kind, input, pos, ds));
        if flow.Thrown? { return; }
        if flow.Failed? {
          pos := start;
          more := false;
          flow := Done;
        } else {
          values := values + [v];
        }
      }
    }

    // ---- Parameters -----------------------------------------------------------------------------------

    /** The index is that of the declared parameters. */
    ghost predicate Indexed()
      reads `model, `paramIndices, model`parameters
    {
      IsIndex(paramIndices, model.parameters)
    }

    method ParseTypeName(t: ParameterType) returns (flow: Flow)
      requires Valid()
      modifies `pos, `farthest, `expected, `log
      ensures Valid() && old(log) <= log && (flow.Failed? ==> old(log) < log)
      ensures Agrees(R.ParameterTypeName(t, input, old(pos)), flow, pos, (), input, message)
    {
      hide Valid, R.LitI;
      match t {
        case BOOLEAN =>
          flow := TakeLiteralI("boolean");
          if flow.Failed? { flow := TakeLiteralI("bool"); }
        case ENUM =>
          flow := TakeLiteralI("enum");
        case INTEGER =>
          flow := TakeLiteralI("integer");
          if flow.Failed? { flow := TakeLiteralI("int"); }
      }
    }

    method ParseParameterType(t: ParameterType) returns (flow: Flow)
      requires Valid()
      modifies `pos, `farthest, `expected, `log
      ensures Valid() && old(log) <= log && (flow.Failed? ==> old(log) < log)
      ensures Agrees(R.TypeTag(t, input, old(pos)), flow, pos, (), input, message)
    {
      hide Valid, R.Lit, R.Whitespace, R.ParameterTypeName;
      flow := TakeLiteral("(");
      if !flow.Done? { return; }
      SkipWhitespace();
      flow := ParseTypeName(t);
      if !flow.Done? { return; }
      SkipWhitespace();
      flow := TakeLiteral(")");
    }

    method ParseParameterHead(t: ParameterType) returns (flow: Flow, name: string)
      requires Valid()
      modifies `pos, `farthest, `expected, `log
      ensures Valid() && old(log) <= log && (flow.Failed? ==> old(log) < log)
      ensures Agrees(R.ParameterHead(t, input, old(pos)), flow, pos, name, input, message)
    {
      hide Valid, R.Lit, R.Identifier, R.Whitespace, R.TypeTag;
      flow, name := ParseIdentifier();
      if !flow.Done? { return; }
      SkipWhitespace();
      flow := ParseParameterType(t);
      if !flow.Done? { return; }
      SkipWhitespace();
      flow := TakeLiteral(":");
    }

    method ParseParameter(t: ParameterType) returns (flow: Flow)
      requires Valid() && Indexed()
      modifies `pos, `farthest, `expected, `log, `message, `paramIndices, model`parameters
      ensures Valid() && old(log) <= log && (flow.Failed? ==> old(log) < log) && Indexed()
      ensures Ends(R.ParameterOf(t, input, old(pos)), flow, pos, input, message)
      ensures model.parameters ==
              if flow.Done? then old(model.parameters) + [R.ParameterOf(t, input, old(pos)).value] else old(model.parameters)
      ensures !flow.Done? ==> paramIndices == old(paramIndices)
    {
      hide Valid, R.ParameterHead, R.List, R.Whitespace, R.Spaces, R.LineEnd, IsIndex;
      var name, values;
      flow, name := ParseParameterHead(t);
      if !flow.Done? { return; }
      SkipWhitespace();
      flow, values := ParseList(R.KindOf(t), {});
      if !flow.Done? { return; }
      if !t.ENUM? { SkipSpaces(); }
      flow := TakeLineEnd();
      if !flow.Done? { return; }
      Declare(Parameter(name, t, values));
    }

    /** param_indices_.emplace, which keeps an entry that is there, and add_parameter. */
    method Declare(p: Parameter)
      requires Indexed()
      modifies `paramIndices, model`parameters
      ensures Indexed() && model.parameters == old(model.parameters) + [p]
    {
      hide IsIndex;
      IndexGrows(paramIndices, model.parameters, p);
      if p.name !in paramIndices { paramIndices := paramIndices[p.name := |model.parameters|]; }
      model.AddParameter(p);
    }

    method ParseParameterRule() returns (flow: Flow)
      requires Valid() && Indexed()
      modifies `pos, `farthest, `expected, `log, `message, `paramIndices, model`parameters
      ensures Valid() && old(log) <= log && (flow.Failed? ==> old(log) < log) && Indexed()
      ensures Ends(R.ParameterRule(input, old(pos)), flow, pos, input, message)
      ensures model.parameters ==
              if flow.Done? then old(model.parameters) + [R.ParameterRule(input, old(pos)).value] else old(model.parameters)
      ensures !flow.Done? ==> paramIndices == old(paramIndices)
    {
      hide Reported, Indexed, R.ParameterOf;
      var start := pos;
      flow := ParseParameter(BOOLEAN);
      if !flow.Failed? { return; }
      pos := start;
      flow := ParseParameter(ENUM);
      if !flow.Failed? { return; }
      pos := start;
      flow := ParseParameter(INTEGER);
    }

    method ParseParameterSection() returns (flow: Flow)
      requires Valid() && Indexed()
      modifies `pos, `farthest, `expected, `log, `message, `paramIndices, model`parameters
      ensures Valid() && old(log) <= log && (flow.Failed? ==> old(log) < log) && Indexed()
      ensures Ends(R.ParameterSection(input, old(pos)), flow, pos, input, message)
      ensures flow.Done? ==> model.parameters == old(model.parameters) + R.ParameterSection(input, old(pos)).value
      ensures flow.Failed? ==> model.parameters == old(model.parameters) && paramIndices == old(paramIndices)
      ensures old(model.parameters) <= model.parameters
    {
      hide Reported, Indexed, R.ParameterRule, R.MoreParameters, R.SectionHeader, R.Spacing, Round;
      flow := ParseSectionHeader("Parameter");
      if !flow.Done? { return; }
      ghost var first := pos;
      flow := ParseParameterRule();
      if !flow.Done? { return; }
      ghost var ps := [R.ParameterRule(input, first).value];
      SkipSpacing();
      var more := true;
      while more
        invariant Valid() && Indexed() && old(log) <= log && pos <= |input| && flow.Done?
        invariant model.parameters == old(model.parameters) + ps
        invariant R.ParameterSection(input, old(pos)) ==
                  if more then Appended(ps, R.MoreParameters(input, pos)) else R.Match(pos, ps)
        decreases |input| - pos, more
      {
        var start := pos;
        flow := ParseParameterRule();
        ghost var one := R.ParameterRule(input, start);
        if flow.Failed? { pos := start; more := false; } else if flow.Done? { SkipSpacing(); }
        ParameterRound(input, start, pos);
        NextRound(ps, one, start, R.MoreParameters(input, start), R.MoreParameters(input, pos));
        if flow.Thrown? { return; }
        if flow.Done? { ps := ps + [one.value]; }
        flow := Done;
      }
    }

    // ---- Relations ------------------------------------------------------------------------------------

    method ParseRelationHead() returns (flow: Flow, name: string)
      requires Valid()
      modifies `pos, `farthest, `expected, `log
      ensures Valid() && old(log) <= log && (flow.Failed? ==> old(log) < log)
      ensures Agrees(R.RelationHead(input, old(pos)), flow, pos, name, input, message)
    {
      hide Valid, R.Lit, R.Identifier, R.Whitespace;
      flow, name := ParseIdentifier();
      if !flow.Done? { return; }
      SkipWhitespace();
      flow := TakeLiteral(":");
      if !flow.Done? { return; }
      SkipWhitespace();
      flow := TakeLiteral("(");
    }

    method ParseRelationNames(ghost ds: set<string>) returns (flow: Flow, names: seq<string>)
      requires Valid() && Knows(ds)
      modifies `pos, `farthest, `expected, `log, `message
      ensures Valid() && old(log) <= log && (flow.Failed? ==> old(log) < log)
      ensures Agrees(R.RelationNames(input, old(pos), ds), flow, pos, names, input, message)
    {
      hide Valid, Knows, R.Lit, R.List, R.Whitespace, R.Names;
      var values;
      names := [];
      SkipWhitespace();
      flow, values := ParseList(R.NameElement, ds);
      if !flow.Done? { return; }
      names := R.Names(values);
      SkipWhitespace();
      flow := TakeLiteral(",");
    }

    method ParseStrength() returns (flow: Flow, strength: nat)
      requires Valid()
      modifies `pos, `farthest, `expected, `log, `message
      ensures Valid() && old(log) <= log && (flow.Failed? ==> old(log) < log)
      ensures Agrees(R.Strength(input, old(pos)), flow, pos, strength, input, message)
    {
      hide Reported, R.ToInt, R.SkipRun, MessageOf;
      strength := 0;
      var start := pos;
      SkipDigits();
      if pos == start {
        Expected(AStrength);
        return Failed, strength;
      }
      var n;
      flow, n := ToInt(start);
      if flow.Done? { strength := n; }
    }

    method ParseRelationStrength() returns (flow: Flow, strength: nat)
      requires Valid()
      modifies `pos, `farthest, `expected, `log, `message
      ensures Valid() && old(log) <= log && (flow.Failed? ==> old(log) < log)
      ensures Agrees(R.RelationStrength(input, old(pos)), flow, pos, strength, input, message)
    {
      hide Valid, R.Lit, R.Whitespace, R.Strength;
      SkipWhitespace();
      flow, strength := ParseStrength();
      if !flow.Done? { return; }
      SkipWhitespace();
      flow := TakeLiteral(")");
    }

    method ParseRelationRule(ghost ds: set<string>) returns (flow: Flow)
      requires Valid() && Knows(ds)
      modifies `pos, `farthest, `expected, `log, `message, model`relations
      ensures Valid() && old(log) <= log && (flow.Failed? ==> old(log) < log)
      ensures Ends(R.RelationRule(input, old(pos), ds), flow, pos, input, message)
      ensures model.relations ==
              if flow.Done? then old(model.relations) + [R.RelationRule(input, old(pos), ds).value] else old(model.relations)
    {
      hide Valid, Knows, R.RelationHead, R.RelationNames, R.RelationStrength, R.Spaces, R.LineEnd, R.Spacing;
      var name, names, strength;
      flow, name := ParseRelationHead();
      if !flow.Done? { return; }
      flow, names := ParseRelationNames(ds);
      if !flow.Done? { return; }
      flow, strength := ParseRelationStrength();
      if !flow.Done? { return; }
      SkipSpaces();
      flow := TakeLineEnd();
      if !flow.Done? { return; }
      SkipSpacing();
      model.AddRelation(Relation(name, names, strength));
    }

    method ParseRelationSection(ghost ds: set<string>) returns (flow: Flow)
      requires Valid() && Knows(ds)
      modifies `pos, `farthest, `expected, `log, `message, model`relations
      ensures Valid() && old(log) <= log && (flow.Failed? ==> old(log) < log)
      ensures Ends(R.RelationSection(input, old(pos), ds), flow, pos, input, message)
      ensures flow.Done? ==> model.relations == old(model.relations) + R.RelationSection(input, old(pos), ds).value
      ensures flow.Failed? ==> model.relations == old(model.relations)
      ensures old(model.relations) <= model.relations
    {
      hide Reported, Knows, R.RelationRule, R.Relations, R.SectionHeader, Round;
      flow := ParseSectionHeader("Relation");
      if !flow.Done? { return; }
      ghost var rs := [];
      AppendedNone(R.Relations(input, pos, ds));
      var more := true;
      while more
        invariant Valid() && Knows(ds) && old(log) <= log && pos <= |input| && flow.Done?
        invariant model.relations == old(model.relations) + rs
        invariant R.RelationSection(input, old(pos), ds) ==
                  if more then Appended(rs, R.Relations(input, pos, ds)) else R.Match(pos, rs)
        decreases |input| - pos, more
      {
        var start := pos;
        flow := ParseRelationRule(ds);
        ghost var one := R.RelationRule(input, start, ds);
        if flow.Failed? { pos := start; more := false; }
        RelationRound(input, start, pos, ds);
        NextRound(rs, one, start, R.Relations(input, start, ds), R.Relations(input, pos, ds));
        if flow.Thrown? { return; }
        if flow.Done? { rs := rs + [one.value]; }
        flow := Done;
      }
    }

    // ---- Constraints ------------------------------------------------------------------------------------

    method ParseRelationalOperator() returns (flow: Flow, op: RelationalOperator)
      requires Valid()
      modifies `pos, `farthest, `expected, `log
      ensures Valid() && old(log) <= log && (flow.Failed? ==> old(log) < log)
      ensures Agrees(R.RelOp(input, old(pos)), flow, pos, op, input, message)
    {
      hide Valid, At;
      op := EQ;
      flow := TakeLiteral("=");
      if flow.Done? { return; }
      op := NEQ;
      flow := TakeLiteral("!=");
      if flow.Done? { return; }
      op := GE;
      flow := TakeLiteral(">=");
      if flow.Done? { return; }
      op := LE;
      flow := TakeLiteral("<=");
      if flow.Done? { return; }
      op := GT;
      flow := TakeLiteral(">");
      if flow.Done? { return; }
      op := LT;
      flow := TakeLiteral("<");
    }

    method ParseConstrEnumValue() returns (flow: Flow, text: string)
      requires Valid()
      modifies `pos, `farthest, `expected, `log
      ensures Valid() && old(log) <= log && (flow.Failed? ==> old(log) < log && pos == old(pos))
      ensures Agrees(R.ConstrEnumValue(input, old(pos)), flow, pos, text, input, message)
    {
      hide Reported, R.AnyExcept, SkipText, At;
      text := "";
      var start := pos;
      flow := TakeLiteral("\"");
      if !flow.Done? { return; }
      var ok := AnyCharExcept(",;\" \t\n\r");
      if !ok {
        Expected(AnEnumValue);
        pos := start;
        return Failed, text;
      }
      SkipTextExcept(",;\"\n\r");
      var end := pos;
      flow := TakeLiteral("\"");
      if !flow.Done? {
        pos := start;
        return;
      }
      text := input[start + 1..end];
    }

    /** Stops the parsing when an ordering operator compares something else than an integer. */
    method CheckUnordered(op: RelationalOperator, start: nat) returns (flow: Flow)
      requires start <= |input|
      modifies `message
      ensures flow == if IsOrdering(op) then Thrown else Done
      ensures IsOrdering(op) ==> message == MessageOf(input, R.UnorderedValue(start))
    {
      hide MessageOf;
      if IsOrdering(op) {
        SemanticErrorAt(R.UnorderedValue(start));
        return Thrown;
      }
      return Done;
    }

    method ParseConstrValue(name: string, op: RelationalOperator, start: nat) returns (flow: Flow, c: Option<Constraint>)
      requires Valid() && start <= |input|
      modifies `pos, `farthest, `expected, `log, `message
      ensures Valid() && old(log) <= log && (flow.Failed? ==> old(log) < log)
      ensures Yields(R.ConstrValue(input, old(pos), name, op, start), flow, pos, c, input, message)
    {
      hide Valid, R.LitI, R.Integer, R.ConstrEnumValue, MessageOf, IsOrdering;
      c := None;
      var n, text;
      flow := TakeLiteralI("true");
      var isTrue := flow.Done?;
      if !isTrue { flow := TakeLiteralI("false"); }
      if flow.Done? {
        flow := CheckUnordered(op, start);
        return flow, Some(BoolProposition(name, op, isTrue));
      }
      flow, n := ParseInteger();
      if !flow.Failed? { return flow, Some(IntProposition(name, op, n)); }
      flow, text := ParseConstrEnumValue();
      if flow.Done? {
        flow := CheckUnordered(op, start);
        return flow, Some(EnumProposition(name, op, text));
      }
    }

    method ParseAtomicProp(ghost ds: set<string>) returns (flow: Flow, c: Option<Constraint>)
      requires Valid() && Knows(ds)
      modifies `pos, `farthest, `expected, `log, `message
      ensures Valid() && old(log) <= log && (flow.Failed? ==> old(log) < log)
      ensures Yields(R.AtomicProp(input, old(pos), ds), flow, pos, c, input, message)
    {
      hide Reported, R.Identifier, R.RelOp, R.ConstrValue, R.Spaces, MessageOf;
      c := None;
      var start := pos;
      var name, op;
      flow, name := ParseIdentifier();
      if !flow.Done? { return; }
      if name !in paramIndices {
        SemanticErrorAt(R.UndeclaredInConstraint(start, name));
        return Thrown, c;
      }
      SkipSpaces();
      flow, op := ParseRelationalOperator();
      if !flow.Done? { return; }
      SkipSpaces();
      flow, c := ParseConstrValue(name, op, start);
    }

    /** What an operand attempts first. A constraint without its ')' is left behind on failure. */
    method ParseParenthesized(ghost ds: set<string>) returns (flow: Flow, c: Option<Constraint>)
      requires Valid() && Knows(ds)
      modifies `pos, `farthest, `expected, `log, `message
      ensures Valid() && old(log) <= log && (flow.Failed? ==> old(log) < log)
      ensures Yields(R.Parenthesized(input, old(pos), ds), flow, pos, c, input, message)
      decreases |input| - pos, 0
    {
      hide Reported, Knows, At, R.ImplicationRule, R.Spaces;
      c := None;
      flow := TakeLiteral("(");
      if !flow.Done? { return; }
      SkipSpaces();
      flow, c := ParseImplication(ds);
      if !flow.Done? { return; }
      SkipSpaces();
      flow := TakeLiteral(")");
    }

    method ParseOperand(ghost ds: set<string>) returns (flow: Flow, c: Option<Constraint>)
      requires Valid() && Knows(ds)
      modifies `pos, `farthest, `expected, `log, `message
      ensures Valid() && old(log) <= log && (flow.Failed? ==> old(log) < log)
      ensures Yields(R.Operand(input, old(pos), ds), flow, pos, c, input, message)
      decreases |input| - pos, 1
    {
      hide Reported, Knows, R.Parenthesized, R.AtomicProp;
      var start := pos;
      flow, c := ParseParenthesized(ds);
      if !flow.Failed? { return; }
      pos := start;
      flow, c := ParseAtomicProp(ds);
    }

    method ParseOperandOf(op: NaryOperator, ghost ds: set<string>) returns (flow: Flow, c: Option<Constraint>)
      requires Valid() && Knows(ds)
      modifies `pos, `farthest, `expected, `log, `message
      ensures Valid() && old(log) <= log && (flow.Failed? ==> old(log) < log)
      ensures Yields(R.OperandOf(op, input, old(pos), ds), flow, pos, c, input, message)
      decreases |input| - pos, if op.OR? then 4 else 2
    {
      hide Valid, Knows, R.Operand, R.Operands;
      match op {
        case OR => flow, c := ParseOperands(AND, ds);
        case AND => flow, c := ParseOperand(ds);
      }
    }

    /** What the loop over operands attempts. */
    method ParseNextOperand(op: NaryOperator, ghost ds: set<string>) returns (flow: Flow, c: Option<Constraint>)
      requires Valid() && Knows(ds)
      modifies `pos, `farthest, `expected, `log, `message
      ensures Valid() && old(log) <= log && (flow.Failed? ==> old(log) < log)
      ensures Yields(R.NextOperand(op, input, old(pos), ds), flow, pos, c, input, message)
      decreases |input| - pos, 0
    {
      hide Reported, Knows, At, R.OperandOf, R.Spaces;
      c := None;
      SkipSpaces();
      flow := TakeLiteral(Symbol(op));
      if !flow.Done? { return; }
      SkipSpaces();
      flow, c := ParseOperandOf(op, ds);
    }

    method ParseOperands(op: NaryOperator, ghost ds: set<string>) returns (flow: Flow, c: Option<Constraint>)
      requires Valid() && Knows(ds)
      modifies `pos, `farthest, `expected, `log, `message
      ensures Valid() && old(log) <= log && (flow.Failed? ==> old(log) < log)
      ensures Yields(R.Operands(op, input, old(pos), ds), flow, pos, c, input, message)
      decreases |input| - pos, if op.OR? then 5 else 3
    {
      hide Reported, Knows, R.OperandOf, R.NextOperand, R.MoreOperands, R.Operands, Round;
      flow, c := ParseOperandOf(op, ds);
      if !flow.Done? { hide *; SameEnd(op, input, old(pos), ds); return; }
      var operands: seq<Constraint>, operand: Option<Constraint> := [], None;
      ghost var first, rest := c.value, [];
      OperandsJoin(op, input, old(pos), pos, first, ds);
      var more := true;
      while more
        invariant Valid() && Knows(ds) && old(log) <= log && old(pos) < pos <= |input| && flow.Done?
        invariant c == if rest == [] then Some(first) else None
        invariant operands == if rest == [] then [] else [first] + rest
        invariant R.Operands(op, input, old(pos), ds) ==
                  Combined(op, first, if more then Appended(rest, R.MoreOperands(op, input, pos, ds)) else R.Match(pos, rest))
        decreases |input| - pos, more
      {
        var start := pos;
        flow, operand := ParseNextOperand(op, ds);
        ghost var one := R.NextOperand(op, input, start, ds);
        if flow.Failed? { pos := start; more := false; }
        OperandRound(op, input, start, pos, ds);
        NextRound(rest, one, start, R.MoreOperands(op, input, start, ds), R.MoreOperands(op, input, pos, ds));
        if flow.Thrown? { return; }
        if flow.Done? {
          if operands == [] {
            operands := [c.value];
            c := None;
          }
          operands := operands + [operand.value];
          operand := None;
          rest := rest + [one.value];
        }
        flow := Done;
      }
      if operands != [] { c := Some(Nary(op, operands)); }
    }

    static lemma SameEnd(op: NaryOperator, s: string, i: nat, ds: set<string>)
      requires i <= |s| && !R.OperandOf(op, s, i, ds).Match?
      ensures R.Operands(op, s, i, ds) == R.OperandOf(op, s, i, ds)
    {
      hide R.OperandOf;
    }

    /** What an implication attempts after its left-hand side. */
    method ParseConclusion(ghost ds: set<string>) returns (flow: Flow, c: Option<Constraint>)
      requires Valid() && Knows(ds)
      modifies `pos, `farthest, `expected, `log, `message
      ensures Valid() && old(log) <= log && (flow.Failed? ==> old(log) < log)
      ensures Yields(R.Conclusion(input, old(pos), ds), flow, pos, c, input, message)
      decreases |input| - pos, 0
    {
      hide Reported, Knows, At, R.Operands, R.Spaces;
      c := None;
      SkipSpaces();
      flow := TakeLiteral("=>");
      if !flow.Done? { return; }
      SkipSpaces();
      flow, c := ParseOperands(OR, ds);
    }

    method ParseImplication(ghost ds: set<string>) returns (flow: Flow, c: Option<Constraint>)
      requires Valid() && Knows(ds)
      modifies `pos, `farthest, `expected, `log, `message
      ensures Valid() && old(log) <= log && (flow.Failed? ==> old(log) < log)
      ensures Yields(R.ImplicationRule(input, old(pos), ds), flow, pos, c, input, message)
      decreases |input| - pos, 6
    {
      hide Reported, Knows, R.Operands, R.Conclusion;
      flow, c := ParseOperands(OR, ds);
      if !flow.Done? { return; }
      var start := pos;
      var rhs;
      flow, rhs := ParseConclusion(ds);
      match flow {
        case Done => c := Some(Implication(c.value, rhs.value));
        case Failed => pos := start; flow := Done;
        case Thrown =>
      }
    }

    method ParseConstraintRule(ghost ds: set<string>) returns (flow: Flow)
      requires Valid() && Knows(ds)
      modifies `pos, `farthest, `expected, `log, `message, model`constraints
      ensures Valid() && old(log) <= log && (flow.Failed? ==> old(log) < log)
      ensures Ends(R.ConstraintRule(input, old(pos), ds), flow, pos, input, message)
      ensures model.constraints ==
              if flow.Done? then old(model.constraints) + [R.ConstraintRule(input, old(pos), ds).value]
              else old(model.constraints)
    {
      hide Valid, Knows, R.ImplicationRule, R.Spaces, R.LineEnd, R.Spacing;
      var c;
      flow, c := ParseImplication(ds);
      if !flow.Done? { return; }
      SkipSpaces();
      flow := TakeLineEnd();
      if !flow.Done? { return; }
      SkipSpacing();
      model.AddConstraint(c.value);
    }

    method ParseConstraintSection(ghost ds: set<string>) returns (flow: Flow)
      requires Valid() && Knows(ds)
      modifies `pos, `farthest, `expected, `log, `message, model`constraints
      ensures Valid() && old(log) <= log && (flow.Failed? ==> old(log) < log)
      ensures Ends(R.ConstraintSection(input, old(pos), ds), flow, pos, input, message)
      ensures flow.Done? ==> model.constraints == old(model.constraints) + R.ConstraintSection(input, old(pos), ds).value
      ensures flow.Failed? ==> model.constraints == old(model.constraints)
      ensures old(model.constraints) <= model.constraints
    {
      hide Reported, Knows, R.ConstraintRule, R.Constraints, R.SectionHeader, Round;
      flow := ParseSectionHeader("Constraint");
      if !flow.Done? { return; }
      ghost var cs := [];
      AppendedNone(R.Constraints(input, pos, ds));
      var more := true;
      while more
        invariant Valid() && Knows(ds) && old(log) <= log && pos <= |input| && flow.Done?
        invariant model.constraints == old(model.constraints) + cs
        invariant R.ConstraintSection(input, old(pos), ds) ==
                  if more then Appended(cs, R.Constraints(input, pos, ds)) else R.Match(pos, cs)
        decreases |input| - pos, more
      {
        var start := pos;
        flow := ParseConstraintRule(ds);
        ghost var one := R.ConstraintRule(input, start, ds);
        if flow.Failed? { pos := start; more := false; }
        ConstraintRound(input, start, pos, ds);
        NextRound(cs, one, start, R.Constraints(input, start, ds), R.Constraints(input, pos, ds));
        if flow.Thrown? { return; }
        if flow.Done? { cs := cs + [one.value]; }
        flow := Done;
      }
    }

    // ---- The whole input ----------------------------------------------------------------------------------

    method ParseSystemSection() returns (flow: Flow)
      requires Valid()
      modifies `pos, `farthest, `expected, `log, model`name
      ensures Valid() && old(log) <= log && (flow.Failed? ==> old(log) < log)
      ensures Ends(R.SystemSection(input, old(pos)), flow, pos, input, message)
      ensures model.name == if flow.Done? then R.SystemSection(input, old(pos)).value else old(model.name)
    {
      hide Valid, R.Lit, R.LitI, R.SectionHeader, R.Whitespace, R.Spaces, R.Spacing, SkipText, Trimmed;
      flow := ParseSectionHeader("System");
      if !flow.Done? { return; }
      flow := TakeLiteralI("name");
      if !flow.Done? { return; }
      SkipWhitespace();
      flow := TakeLiteral(":");
      if !flow.Done? { return; }
      SkipSpaces();
      var start := pos;
      SkipTextExcept("\n\r");
      model.SetName(Trimmed(input[start..pos]));
      SkipSpacing();
    }

    /** The optional sections, for the names declared so far. A section that does not match leaves nothing behind. */
    method ParseOptionalSections(ghost ds: set<string>) returns (flow: Flow)
      requires Valid() && Knows(ds)
      modifies `pos, `farthest, `expected, `log, `message, model`relations, model`constraints
      ensures Valid() && old(log) <= log && !flow.Failed?
      ensures var rs := R.Optional(R.RelationSection(input, old(pos), ds), old(pos));
              if rs.Match? && rs.pos <= |input| then
                var cs := R.Optional(R.ConstraintSection(input, rs.pos, ds), rs.pos);
                && Ends(cs, flow, pos, input, message)
                && (cs.Match? ==> model.relations == old(model.relations) + rs.value
                                  && model.constraints == old(model.constraints) + cs.value)
              else Ends(rs, flow, pos, input, message) && flow.Thrown?
      ensures old(model.relations) <= model.relations && old(model.constraints) <= model.constraints
    {
      hide Reported, Knows, R.RelationSection, R.ConstraintSection;
      var start := pos;
      flow := ParseRelationSection(ds);
      if flow.Thrown? { return; }
      if flow.Failed? { pos := start; NothingAdded(model.relations); }
      start := pos;
      flow := ParseConstraintSection(ds);
      if flow.Failed? { pos := start; flow := Done; NothingAdded(model.constraints); }
    }

    /** The root rule: on success the model has grown by exactly what the input says, whatever happens it has only
        grown. */
    method ParseRoot() returns (flow: Flow)
      requires Valid() && Indexed() && pos == 0
      modifies `pos, `farthest, `expected, `log, `message, `paramIndices, model
      ensures Valid() && old(log) <= log && (flow.Failed? ==> old(log) < log) && Indexed()
      ensures Ends(R.ParseInto(input, old(model.Contents())), flow, pos, input, message)
      ensures flow.Done? ==> model.Contents() == R.ParseInto(input, old(model.Contents())).value
      ensures old(model.parameters) <= model.parameters
      ensures old(model.relations) <= model.relations && old(model.constraints) <= model.constraints
    {
      hide Reported, Indexed, Knows, R.SystemSection, R.ParameterSection, R.RelationSection, R.ConstraintSection,
           R.Optional, R.Spacing, Declared;
      SkipSpacing();
      flow := ParseSystemSection();
      if !flow.Done? { return; }
      flow := ParseParameterSection();
      if !flow.Done? { return; }
      ghost var ds := Declared(model.parameters);
      KnowsDeclared();
      flow := ParseOptionalSections(ds);
      if !flow.Done? { return; }
      if pos < |input| {
        Expected(EndOfInput);
        return Failed;
      }
    }

    lemma KnowsDeclared()
      requires Indexed()
      ensures Knows(Declared(model.parameters))
    {
      IndexKeys(paramIndices, model.parameters);
    }

    /** The index of what the model holds before the parsing. */
    method IndexParameters()
      requires paramIndices == map[]
      modifies `paramIndices
      ensures Indexed()
    {
      for i := 0 to |model.parameters|
        invariant IsIndex(paramIndices, model.parameters[..i])
      {
        IndexGrows(paramIndices, model.parameters[..i], model.parameters[i]);
        assert model.parameters[..i] + [model.parameters[i]] == model.parameters[..i + 1];
        var name := model.parameters[i].name;
        if name !in paramIndices { paramIndices := paramIndices[name := i]; }
      }
      assert model.parameters[..|model.parameters|] == model.parameters;
    }

    /** Parses `sv` into `m`, which may hold a model already. */
    method ParseInputModel(sv: string, m: ModelObject) returns (ok: bool)
      modifies this, m
      ensures Valid() && input == sv
      ensures ok == R.ParseInto(sv, old(m.Contents())).Match?
      ensures ok ==> m.Contents() == R.ParseInto(sv, old(m.Contents())).value
      ensures var o := R.ParseInto(sv, old(m.Contents()));
              o.Abort? ==> o.error.at <= |sv| && message == MessageOf(sv, o.error)
      ensures R.ParseInto(sv, old(m.Contents())).NoMatch? ==>
                message == SyntaxMessage(PlaceOf(sv, farthest), expected) && expected != [] && farthest <= |sv|
      ensures old(m.parameters) <= m.parameters
      ensures old(m.relations) <= m.relations && old(m.constraints) <= m.constraints
    {
      hide R.ParseInto, MessageOf, PlaceOf, IsIndex;
      input, pos, model, message, farthest, expected, paramIndices, log := sv, 0, m, NoMessage, 0, [], map[], [];
      IndexParameters();
      var flow := ParseRoot();
      if flow.Failed? {
        ReportIsNotEmpty(log);
        ReportSyntaxError();
      }
      return flow.Done?;
    }
  }

  lemma AppendedNone<T>(o: R.Outcome<seq<T>>)
    ensures Appended([], o) == o
  {
    if o.Match? { assert [] + o.value == o.value; }
  }

  lemma NothingAdded<T>(xs: seq<T>)
    ensures xs + [] == xs
  {}

  lemma NoDigits(s: string, i: nat)
    requires i <= |s| && (i < |s| ==> !IsDigit(s[i]))
    ensures R.SkipRun(Digit, s, i) == i
  {}
}
