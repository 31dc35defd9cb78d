/** The DIMACS converter: clauses from a stream of numbers, names for variables, and the ACTS model that is written. */
module Dimacs {
  import opened Text
  import opened Acts
  import R = Rules
  import opened Clauses
  import M = ModelRoundTrip
  import E = Evaluator
  import P = Printer

  datatype DimacsLiteral = DimacsLiteral(variable: nat, negative: bool)

  datatype VarComment = VarComment(name: string, hasDollar: bool)

  /** A line of the file: a comment, which may name a variable, the problem line, or what numbers it starts with. */
  datatype Line =
    | Comment
    | NamingComment(variable: int, info: VarComment)
    | Problem(vars: int, clauses: int)
    | BadProblem
    | Numbers(values: seq<int>)

  // ---- Clauses -----------------------------------------------------------------------------------

  function LiteralOf(n: int): DimacsLiteral { DimacsLiteral(if n < 0 then -n else n, n < 0) }

  function NumberOf(l: DimacsLiteral): int { if l.negative then -(l.variable as int) else l.variable }

  /** The clauses that zeros have closed, and the literals after the last zero. */
  function Split(numbers: seq<int>): (seq<seq<DimacsLiteral>>, seq<DimacsLiteral>) {
    if numbers == [] then ([], [])
    else
      var (closed, open) := Split(numbers[..|numbers| - 1]);
      var n := numbers[|numbers| - 1];
      if n == 0 then (closed + [open], []) else (closed, open + [LiteralOf(n)])
  }

  /** The clauses of a stream of numbers: an unterminated last clause is added. */
  function ClausesOf(numbers: seq<int>): seq<seq<DimacsLiteral>> {
    var (closed, open) := Split(numbers);
    if open == [] then closed else closed + [open]
  }

  function NumbersOf(ls: seq<DimacsLiteral>): (ns: seq<int>)
    ensures |ns| == |ls| && forall k | 0 <= k < |ls| :: ns[k] == NumberOf(ls[k])
  {
    seq(|ls|, k requires 0 <= k < |ls| => NumberOf(ls[k]))
  }

  /** Clauses as numbers, each with its closing zero. */
  function Flatten(clauses: seq<seq<DimacsLiteral>>): seq<int> {
    if clauses == [] then [] else Flatten(clauses[..|clauses| - 1]) + NumbersOf(clauses[|clauses| - 1]) + [0]
  }

  lemma FlattenOne(closed: seq<seq<DimacsLiteral>>, open: seq<DimacsLiteral>)
    ensures Flatten(closed + [open]) == Flatten(closed) + NumbersOf(open) + [0]
  {
    assert (closed + [open])[..|closed|] == closed;
  }

  lemma NumbersOfOne(open: seq<DimacsLiteral>, n: int)
    requires n != 0
    ensures NumbersOf(open + [LiteralOf(n)]) == NumbersOf(open) + [n]
  {}

  /** Flattening the clauses restores the numbers. */
  lemma {:induction false} FlattenSplit(numbers: seq<int>)
    ensures Flatten(Split(numbers).0) + NumbersOf(Split(numbers).1) == numbers
    decreases |numbers|
  {
    hide Flatten, NumbersOf;
    if numbers == [] {
      NothingToFlatten();
    } else {
      var n := |numbers| - 1;
      FlattenSplit(numbers[..n]);
      var (closed, open) := Split(numbers[..n]);
      assert numbers == numbers[..n] + [numbers[n]];
      FlattenOne(closed, open);
      if numbers[n] == 0 { NothingToFlatten(); } else { NumbersOfOne(open, numbers[n]); }
    }
  }

  lemma NothingToFlatten()
    ensures Flatten([]) == [] && NumbersOf([]) == []
  {}

  predicate NoZeros(clauses: seq<seq<DimacsLiteral>>) {
    forall k | 0 <= k < |clauses| :: forall j | 0 <= j < |clauses[k]| :: clauses[k][j].variable > 0
  }

  lemma SplitOne(numbers: seq<int>, n: int)
    ensures Split(numbers + [n]) ==
            var (closed, open) := Split(numbers); if n == 0 then (closed + [open], []) else (closed, open + [LiteralOf(n)])
  {
    var all := numbers + [n];
    assert all[..|all| - 1] == numbers;
  }

  lemma {:induction false} SplitAppend(numbers: seq<int>, ls: seq<DimacsLiteral>)
    requires forall j | 0 <= j < |ls| :: ls[j].variable > 0
    ensures Split(numbers + NumbersOf(ls)) == (Split(numbers).0, Split(numbers).1 + ls)
    decreases |ls|
  {
    hide Split;
    if ls == [] {
      assert numbers + NumbersOf(ls) == numbers && Split(numbers).1 + [] == Split(numbers).1;
    } else {
      var n := |ls| - 1;
      SplitAppend(numbers, ls[..n]);
      assert numbers + NumbersOf(ls) == numbers + NumbersOf(ls[..n]) + [NumberOf(ls[n])];
      SplitOne(numbers + NumbersOf(ls[..n]), NumberOf(ls[n]));
      assert LiteralOf(NumberOf(ls[n])) == ls[n];
      assert Split(numbers).1 + ls[..n] + [ls[n]] == Split(numbers).1 + ls;
    }
  }

  lemma {:induction false} SplitFlatten(clauses: seq<seq<DimacsLiteral>>)
    requires NoZeros(clauses)
    ensures Split(Flatten(clauses)) == (clauses, [])
    decreases |clauses|
  {
    hide Split, NumbersOf;
    if clauses == [] {
      NothingToSplit();
    } else {
      var n := |clauses| - 1;
      SplitFlatten(clauses[..n]);
      SplitAppend(Flatten(clauses[..n]), clauses[n]);
      SplitOne(Flatten(clauses[..n]) + NumbersOf(clauses[n]), 0);
      assert [] + clauses[n] == clauses[n];
      assert clauses[..n] + [clauses[n]] == clauses;
    }
  }

  lemma NothingToSplit()
    ensures Split([]) == ([], [])
  {}

  /** Reading flattened clauses gives them back, empty ones included. */
  lemma ClausesRoundTrip(clauses: seq<seq<DimacsLiteral>>)
    requires NoZeros(clauses)
    ensures ClausesOf(Flatten(clauses)) == clauses
  {
    hide Split, Flatten;
    SplitFlatten(clauses);
  }

  /** All numbers of the lines, in order. */
  function Stream(lines: seq<Line>): seq<int> {
    if lines == [] then []
    else Stream(lines[..|lines| - 1]) + if lines[|lines| - 1].Numbers? then lines[|lines| - 1].values else []
  }

  predicate HasBadProblem(lines: seq<Line>) { exists k | 0 <= k < |lines| :: lines[k].BadProblem? }

  /** The last problem line. */
  function Header(lines: seq<Line>): Option<(int, int)> {
    if lines == [] then None
    else if lines[|lines| - 1].Problem? then Some((lines[|lines| - 1].vars, lines[|lines| - 1].clauses))
    else Header(lines[..|lines| - 1])
  }

  /** The last naming comment of each variable. */
  function Comments(lines: seq<Line>): map<int, VarComment> {
    if lines == [] then map[]
    else
      var before := Comments(lines[..|lines| - 1]);
      if lines[|lines| - 1].NamingComment? then before[lines[|lines| - 1].variable := lines[|lines| - 1].info] else before
  }

  predicate Names(l: Line, v: int) { l.NamingComment? && l.variable == v }

  /** A variable has the comment of the last line that names it. */
  lemma {:induction false} LastCommentCounts(lines: seq<Line>, k: nat, v: int)
    requires k < |lines| && Names(lines[k], v) && forall l | k < l < |lines| :: !Names(lines[l], v)
    ensures v in Comments(lines) && Comments(lines)[v] == lines[k].info
    decreases |lines|
  {
    var n := |lines| - 1;
    if k < n {
      LastCommentCounts(lines[..n], k, v);
      assert !Names(lines[n], v);
    }
  }

  lemma {:induction false} NoCommentNoName(lines: seq<Line>, v: int)
    requires forall l | 0 <= l < |lines| :: !Names(lines[l], v)
    ensures v !in Comments(lines)
    decreases |lines|
  {
    if lines != [] {
      var n := |lines| - 1;
      NoCommentNoName(lines[..n], v);
      assert !Names(lines[n], v);
    }
  }

  predicate Bounded(clauses: seq<seq<DimacsLiteral>>, bound: int) {
    forall k | 0 <= k < |clauses| :: forall j | 0 <= j < |clauses[k]| :: clauses[k][j].variable <= bound
  }

  /** `n` is the least number that is at least `low` and bounds the variables. */
  predicate IsLeastBound(clauses: seq<seq<DimacsLiteral>>, low: int, n: int) {
    && low <= n && Bounded(clauses, n)
    && (n == low || exists k | 0 <= k < |clauses| :: exists j | 0 <= j < |clauses[k]| :: clauses[k][j].variable == n)
  }

  function Raised(ls: seq<DimacsLiteral>, low: int): (n: int)
    ensures low <= n && (forall j | 0 <= j < |ls| :: ls[j].variable <= n)
    ensures n == low || exists j | 0 <= j < |ls| :: ls[j].variable == n
  {
    if ls == [] then low
    else
      var n := Raised(ls[..|ls| - 1], low);
      if ls[|ls| - 1].variable > n then ls[|ls| - 1].variable else n
  }

  function LeastBound(clauses: seq<seq<DimacsLiteral>>, low: int): (n: int)
    ensures IsLeastBound(clauses, low, n)
  {
    if clauses == [] then low
    else
      var k := |clauses| - 1;
      var before := LeastBound(clauses[..k], low);
      var n := Raised(clauses[k], before);
      assert IsLeastBound(clauses, low, n) by {
        LeastBoundGrows(clauses, k, low, before, n);
        assert clauses[..k + 1] == clauses;
      }
      n
  }

  lemma OneLeastBound(clauses: seq<seq<DimacsLiteral>>, low: int, m: int, n: int)
    requires IsLeastBound(clauses, low, m) && IsLeastBound(clauses, low, n)
    ensures m == n
  {}

  /** How many variables the lines of a file have: what the header says, or more when the clauses need them. */
  function VariableCount(lines: seq<Line>): int {
    LeastBound(ClausesOf(Stream(lines)), match Header(lines) case Some(h) => h.0 case None => 0)
  }

  method RaiseBound(clauses: seq<seq<DimacsLiteral>>, low: int) returns (bound: int)
    ensures IsLeastBound(clauses, low, bound)
  {
    bound := low;
    for k := 0 to |clauses|
      invariant IsLeastBound(clauses[..k], low, bound)
    {
      ghost var before := bound;
      for j := 0 to |clauses[k]|
        invariant before <= bound && forall i | 0 <= i < j :: clauses[k][i].variable <= bound
        invariant bound == before || exists i | 0 <= i < j :: clauses[k][i].variable == bound
      {
        if clauses[k][j].variable > bound { bound := clauses[k][j].variable; }
      }
      LeastBoundGrows(clauses, k, low, before, bound);
    }
    assert clauses[..|clauses|] == clauses;
  }

  lemma LeastBoundGrows(clauses: seq<seq<DimacsLiteral>>, k: nat, low: int, before: int, bound: int)
    requires k < |clauses| && IsLeastBound(clauses[..k], low, before) && before <= bound
    requires forall i | 0 <= i < |clauses[k]| :: clauses[k][i].variable <= bound
    requires bound == before || exists i | 0 <= i < |clauses[k]| :: clauses[k][i].variable == bound
    ensures IsLeastBound(clauses[..k + 1], low, bound)
  {
    var upTo: seq<seq<DimacsLiteral>>, more: seq<seq<DimacsLiteral>> := clauses[..k], clauses[..k + 1];
    forall a | 0 <= a < |more| ensures forall j | 0 <= j < |more[a]| :: more[a][j].variable <= bound {
      if a < k { assert more[a] == upTo[a]; }
    }
    if bound != low {
      if bound == before {
        var a :| 0 <= a < |upTo| && exists j | 0 <= j < |upTo[a]| :: upTo[a][j].variable == bound;
        assert more[a] == upTo[a];
      } else {
        assert more[k] == clauses[k];
      }
    }
  }

  /** Line `k` is the problem line that counts: no other one follows. */
  predicate IsLastProblem(lines: seq<Line>, k: int) {
    0 <= k < |lines| && lines[k].Problem? && forall l | k < l < |lines| :: !lines[l].Problem?
  }

  /** Variable `x` stands in a line of numbers, with or without a sign. */
  predicate Occurs(lines: seq<Line>, x: int) {
    exists k | 0 <= k < |lines| :: lines[k].Numbers? && x != 0 && (x in lines[k].values || -x in lines[k].values)
  }

  /** No line has a number, other than zero, that is greater than `n` in absolute value. */
  predicate NumbersWithin(lines: seq<Line>, n: int) {
    forall k | 0 <= k < |lines| && lines[k].Numbers? ::
      forall j | 0 <= j < |lines[k].values| :: lines[k].values[j] == 0 || -n <= lines[k].values[j] <= n
  }

  predicate InLiterals(ls: seq<DimacsLiteral>, x: int) { exists j | 0 <= j < |ls| :: ls[j].variable == x }

  predicate InClauses(clauses: seq<seq<DimacsLiteral>>, x: int) { exists k | 0 <= k < |clauses| :: InLiterals(clauses[k], x) }

  predicate InNumbers(numbers: seq<int>, x: int) { x != 0 && (x in numbers || -x in numbers) }

  lemma OneMoreLiteral(ls: seq<DimacsLiteral>, l: DimacsLiteral, x: int)
    ensures InLiterals(ls + [l], x) <==> InLiterals(ls, x) || l.variable == x
  {
    var all := ls + [l];
    assert all[|ls|] == l && forall j | 0 <= j < |ls| :: all[j] == ls[j];
  }

  lemma OneMoreClause(clauses: seq<seq<DimacsLiteral>>, ls: seq<DimacsLiteral>, x: int)
    ensures InClauses(clauses + [ls], x) <==> InClauses(clauses, x) || InLiterals(ls, x)
  {
    hide InLiterals;
    var all := clauses + [ls];
    assert all[|clauses|] == ls && forall j | 0 <= j < |clauses| :: all[j] == clauses[j];
  }

  lemma OneMoreNumber(numbers: seq<int>, n: int, x: nat)
    ensures InNumbers(numbers + [n], x) <==> InNumbers(numbers, x) || (x != 0 && LiteralOf(n).variable == x)
  {}

  /** The variables of the clauses are those of the numbers. */
  lemma {:induction false} SplitVariables(numbers: seq<int>, x: nat)
    requires x != 0
    ensures InClauses(Split(numbers).0, x) || InLiterals(Split(numbers).1, x) <==> InNumbers(numbers, x)
    decreases |numbers|
  {
    if numbers != [] {
      var n := |numbers| - 1;
      SplitVariables(numbers[..n], x);
      var (closed, open) := Split(numbers[..n]);
      OneMoreNumber(numbers[..n], numbers[n], x);
      OneMoreClause(closed, open, x);
      OneMoreLiteral(open, LiteralOf(numbers[n]), x);
      assert numbers[..n] + [numbers[n]] == numbers;
      hide InClauses, InLiterals, InNumbers;
    }
  }

  lemma ClausesVariables(numbers: seq<int>, x: nat)
    requires x != 0
    ensures InClauses(ClausesOf(numbers), x) <==> InNumbers(numbers, x)
  {
    SplitVariables(numbers, x);
    var (closed, open) := Split(numbers);
    OneMoreClause(closed, open, x);
    assert open == [] ==> !InLiterals(open, x);
    hide InClauses, InLiterals, InNumbers, Split;
  }

  lemma OneMoreLine(lines: seq<Line>, l: Line, x: int)
    ensures Occurs(lines + [l], x) <==> Occurs(lines, x) || (l.Numbers? && InNumbers(l.values, x))
  {
    var all := lines + [l];
    assert all[|lines|] == l && forall j | 0 <= j < |lines| :: all[j] == lines[j];
  }

  lemma Concatenated(a: seq<int>, b: seq<int>, x: int)
    ensures InNumbers(a + b, x) <==> InNumbers(a, x) || InNumbers(b, x)
  {}

  lemma {:induction false} StreamVariables(lines: seq<Line>, x: int)
    ensures InNumbers(Stream(lines), x) <==> Occurs(lines, x)
    decreases |lines|
  {
    if lines != [] {
      var n := |lines| - 1;
      StreamVariables(lines[..n], x);
      OneMoreLine(lines[..n], lines[n], x);
      Concatenated(Stream(lines[..n]), if lines[n].Numbers? then lines[n].values else [], x);
      assert lines[..n] + [lines[n]] == lines;
      assert !InNumbers([], x);
      hide InNumbers, Occurs;
    }
  }

  lemma WithinExactly(lines: seq<Line>, n: int)
    ensures NumbersWithin(lines, n) <==> forall x | x > 0 && Occurs(lines, x) :: x <= n
  {
    if NumbersWithin(lines, n) {
      forall x | x > 0 && Occurs(lines, x) ensures x <= n {
        var k :| 0 <= k < |lines| && lines[k].Numbers? && (x in lines[k].values || -x in lines[k].values);
      }
    } else {
      var k, j :| 0 <= k < |lines| && lines[k].Numbers? && 0 <= j < |lines[k].values| && lines[k].values[j] != 0 &&
                  !(-n <= lines[k].values[j] <= n);
      var v := lines[k].values[j];
      assert Occurs(lines, if v > 0 then v else -v);
    }
  }

  lemma BoundedExactly(lines: seq<Line>, n: int)
    ensures NumbersWithin(lines, n) <==> Bounded(ClausesOf(Stream(lines)), n)
  {
    var clauses: seq<seq<DimacsLiteral>> := ClausesOf(Stream(lines));
    WithinExactly(lines, n);
    SplitHasNoZeros(Stream(lines));
    assert forall k | 0 <= k < |clauses| :: forall j | 0 <= j < |clauses[k]| :: clauses[k][j].variable > 0;
    forall x: nat | x > 0 ensures InClauses(clauses, x) <==> Occurs(lines, x) {
      ClausesVariables(Stream(lines), x);
      StreamVariables(lines, x);
    }
    hide NumbersWithin, Occurs, ClausesOf, Stream;
    if Bounded(clauses, n) {
      forall x | x > 0 && Occurs(lines, x) ensures x <= n {
        assert InClauses(clauses, x);
      }
    }
    if NumbersWithin(lines, n) {
      forall k, j | 0 <= k < |clauses| && 0 <= j < |clauses[k]| ensures clauses[k][j].variable <= n {
        assert InLiterals(clauses[k], clauses[k][j].variable);
        assert InClauses(clauses, clauses[k][j].variable);
      }
    }
  }

  lemma {:induction false} LastHeader(lines: seq<Line>, k: nat)
    requires IsLastProblem(lines, k)
    ensures Header(lines) == Some((lines[k].vars, lines[k].clauses))
    decreases |lines|
  {
    var n := |lines| - 1;
    if k < n { LastHeader(lines[..n], k); }
  }

  lemma {:induction false} NoHeader(lines: seq<Line>)
    requires forall k | 0 <= k < |lines| :: !lines[k].Problem?
    ensures Header(lines) == None
    decreases |lines|
  {
    if lines != [] { NoHeader(lines[..|lines| - 1]); }
  }

  /** The number of variables is the first number of the problem line, or the greatest variable when one is greater.
      The second number of that line has no influence. */
  lemma CountOfHeader(lines: seq<Line>, k: nat)
    requires IsLastProblem(lines, k)
    ensures NumbersWithin(lines, lines[k].vars) ==> VariableCount(lines) == lines[k].vars
    ensures !NumbersWithin(lines, lines[k].vars) ==>
              && VariableCount(lines) > lines[k].vars && Occurs(lines, VariableCount(lines))
              && NumbersWithin(lines, VariableCount(lines))
  {
    LastHeader(lines, k);
    CountIsLeast(lines, lines[k].vars);
  }

  /** Without a problem line it is the greatest variable, or zero when there is none. */
  lemma CountWithoutHeader(lines: seq<Line>)
    requires forall k | 0 <= k < |lines| :: !lines[k].Problem?
    ensures VariableCount(lines) >= 0 && NumbersWithin(lines, VariableCount(lines))
    ensures VariableCount(lines) == 0 || Occurs(lines, VariableCount(lines))
  {
    NoHeader(lines);
    CountIsLeast(lines, 0);
  }

  lemma CountIsLeast(lines: seq<Line>, low: int)
    ensures var n := LeastBound(ClausesOf(Stream(lines)), low);
            && low <= n && NumbersWithin(lines, n) && (NumbersWithin(lines, low) ==> n == low)
            && (n == low || Occurs(lines, n))
  {
    var clauses: seq<seq<DimacsLiteral>> := ClausesOf(Stream(lines));
    var n := LeastBound(clauses, low);
    BoundedExactly(lines, n);
    BoundedExactly(lines, low);
    if NumbersWithin(lines, low) { OneLeastBound(clauses, low, low, n); }
    SplitHasNoZeros(Stream(lines));
    if n != low {
      var k :| 0 <= k < |clauses| && exists j | 0 <= j < |clauses[k]| :: clauses[k][j].variable == n;
      assert InLiterals(clauses[k], n) && InClauses(clauses, n);
      assert n > 0;
      ClausesVariables(Stream(lines), n);
      StreamVariables(lines, n);
    }
  }

  method ParseDimacs(lines: seq<Line>)
    returns (ok: bool, numVars: int, numClauses: int, clauses: seq<seq<DimacsLiteral>>, comments: map<int, VarComment>)
    ensures ok == !HasBadProblem(lines)
    ensures ok ==> clauses == ClausesOf(Stream(lines)) && comments == Comments(lines)
    ensures ok ==> match Header(lines)
                   case Some(h) => IsLeastBound(clauses, h.0, numVars) && numClauses == h.1
                   case None => IsLeastBound(clauses, 0, numVars) && numClauses == |clauses|
    ensures ok ==> forall k | IsLastProblem(lines, k) ::
              numClauses == lines[k].clauses && (NumbersWithin(lines, lines[k].vars) ==> numVars == lines[k].vars)
  {
    numVars, numClauses, clauses, comments := 0, 0, [], map[];
    var headerFound := false;
    var current: seq<DimacsLiteral> := [];
    for i := 0 to |lines|
      invariant !HasBadProblem(lines[..i])
      invariant Split(Stream(lines[..i])) == (clauses, current) && comments == Comments(lines[..i])
      invariant Header(lines[..i]) == if headerFound then Some((numVars, numClauses)) else None
    {
      assert lines[..i + 1][..i] == lines[..i];
      match lines[i] {
        case Comment =>
        case NamingComment(v, info) => comments := comments[v := info];
        case Problem(vars, cs) => numVars, numClauses, headerFound := vars, cs, true;
        case BadProblem =>
          assert HasBadProblem(lines);
          return false, numVars, numClauses, clauses, comments;
        case Numbers(values) =>
          clauses, current := ParseNumbers(values, Stream(lines[..i]), clauses, current);
      }
      assert Stream(lines[..i + 1]) == Stream(lines[..i]) + if lines[i].Numbers? then lines[i].values else [];
      NoNumbers(Stream(lines[..i]));
    }
    assert lines[..|lines|] == lines;
    if current != [] { clauses := clauses + [current]; }
    if !headerFound {
      numVars := RaiseBound(clauses, 0);
      numClauses := |clauses|;
    } else {
      numVars := RaiseBound(clauses, numVars);
    }
    ok := true;
    LastProblemCounts(lines, clauses, numVars, numClauses);
  }

  lemma LastProblemCounts(lines: seq<Line>, clauses: seq<seq<DimacsLiteral>>, numVars: int, numClauses: int)
    requires clauses == ClausesOf(Stream(lines))
    requires match Header(lines)
             case Some(h) => IsLeastBound(clauses, h.0, numVars) && numClauses == h.1
             case None => true
    ensures forall k | IsLastProblem(lines, k) ::
              numClauses == lines[k].clauses && (NumbersWithin(lines, lines[k].vars) ==> numVars == lines[k].vars)
  {
    hide ClausesOf, Stream, IsLeastBound, NumbersWithin, LeastBound, Header;
    forall k | IsLastProblem(lines, k)
      ensures numClauses == lines[k].clauses && (NumbersWithin(lines, lines[k].vars) ==> numVars == lines[k].vars)
    {
      LastHeader(lines, k);
      CountIsLeast(lines, lines[k].vars);
      OneLeastBound(clauses, lines[k].vars, numVars, LeastBound(clauses, lines[k].vars));
    }
  }

  lemma NoNumbers(numbers: seq<int>)
    ensures numbers + [] == numbers
  {}

  /** The numbers of one line, after those before it. */
  method ParseNumbers(values: seq<int>, ghost before: seq<int>, closed: seq<seq<DimacsLiteral>>, open: seq<DimacsLiteral>)
    returns (clauses: seq<seq<DimacsLiteral>>, current: seq<DimacsLiteral>)
    requires Split(before) == (closed, open)
    ensures Split(before + values) == (clauses, current)
  {
    clauses, current := closed, open;
    NoNumbers(before);
    assert values[..0] == [];
    for i := 0 to |values|
      invariant Split(before + values[..i]) == (clauses, current)
    {
      ghost var all := before + values[..i + 1];
      assert all[..|all| - 1] == before + values[..i];
      var val := values[i];
      if val == 0 {
        clauses, current := clauses + [current], [];
      } else {
        current := current + [DimacsLiteral(if val < 0 then -val else val, val < 0)];
      }
    }
    assert values[..|values|] == values;
  }

  lemma {:induction false} SplitHasNoZeros(numbers: seq<int>)
    ensures NoZeros(Split(numbers).0) && forall j | 0 <= j < |Split(numbers).1| :: Split(numbers).1[j].variable > 0
  {
    if numbers != [] {
      var n := |numbers| - 1;
      SplitHasNoZeros(numbers[..n]);
      var (closed, open) := Split(numbers[..n]);
      assert forall k | 0 <= k < |closed + [open]| :: (closed + [open])[k] == if k < |closed| then closed[k] else open;
    }
  }

  /** Every variable is between 1 and the number of variables. */
  lemma VariablesInRange(lines: seq<Line>, low: int, numVars: int)
    requires IsLeastBound(ClausesOf(Stream(lines)), low, numVars)
    ensures forall k, j | 0 <= k < |ClausesOf(Stream(lines))| && 0 <= j < |ClausesOf(Stream(lines))[k]| ::
              1 <= ClausesOf(Stream(lines))[k][j].variable <= numVars
  {
    SplitHasNoZeros(Stream(lines));
  }

  lemma StreamOne(lines: seq<Line>, l: Line)
    ensures Stream(lines + [l]) == Stream(lines) + if l.Numbers? then l.values else []
  {
    assert (lines + [l])[..|lines|] == lines;
  }

  lemma {:induction false} StreamAppend(a: seq<Line>, b: seq<Line>)
    ensures Stream(a + b) == Stream(a) + Stream(b)
    decreases |b|
  {
    hide Stream;
    if b == [] {
      assert a + b == a;
      NothingInStream();
      NoNumbers(Stream(a));
    } else {
      var n := |b| - 1;
      var rest := if b[n].Numbers? then b[n].values else [];
      StreamAppend(a, b[..n]);
      assert a + b == a + b[..n] + [b[n]] && b == b[..n] + [b[n]];
      StreamOne(a + b[..n], b[n]);
      StreamOne(b[..n], b[n]);
      Associate(Stream(a), Stream(b[..n]), rest);
    }
  }

  lemma NothingInStream()
    ensures Stream([]) == []
  {}

  lemma Associate(a: seq<int>, b: seq<int>, c: seq<int>)
    ensures a + b + c == a + (b + c)
  {}

  /** The clauses depend on the numbers only: not on how they are broken into lines, nor on the lines between. */
  lemma LineBreaksDoNotMatter(a: seq<Line>, x: seq<int>, y: seq<int>, other: Line, b: seq<Line>)
    requires !other.Numbers?
    ensures ClausesOf(Stream(a + [Numbers(x + y)] + b)) == ClausesOf(Stream(a + [Numbers(x), other, Numbers(y)] + b))
  {
    hide ClausesOf;
    StreamAppend(a + [Numbers(x + y)], b);
    StreamAppend(a, [Numbers(x + y)]);
    StreamAppend(a + [Numbers(x), other, Numbers(y)], b);
    StreamAppend(a, [Numbers(x), other, Numbers(y)]);
    BrokenLine(x, y, other);
  }

  lemma BrokenLine(x: seq<int>, y: seq<int>, other: Line)
    requires !other.Numbers?
    ensures Stream([Numbers(x + y)]) == Stream([Numbers(x), other, Numbers(y)])
  {
    StreamOne([], Numbers(x + y));
    StreamOne([], Numbers(x));
    StreamOne([Numbers(x)], other);
    StreamOne([Numbers(x), other], Numbers(y));
    assert Stream([]) == [];
    hide Stream;
    assert [Numbers(x), other] + [Numbers(y)] == [Numbers(x), other, Numbers(y)];
    assert [Numbers(x)] + [other] == [Numbers(x), other];
  }

  // ---- Names ----------------------------------------------------------------------------------------

  function Prefixed(k: nat, name: string): (r: string)
    ensures |r| == k + |name| && r[k..] == name && forall j | 0 <= j < k :: r[j] == '_'
  {
    if k == 0 then name else "_" + Prefixed(k - 1, name)
  }

  lemma {:induction false} PrefixedIsIdentifier(k: nat, name: string)
    requires IsIdentifier(name)
    ensures IsIdentifier(Prefixed(k, name))
  {
    if k > 0 {
      PrefixedIsIdentifier(k - 1, name);
      var r := Prefixed(k, name);
      assert r[0] == '_' && forall j | 1 <= j < |r| :: r[j] == Prefixed(k - 1, name)[j - 1];
    }
  }

  /** `u` is the name that a variable keeps, or that of a variable before `i`. */
  predicate IsTaken(u: string, names: seq<string>, comments: map<int, VarComment>, i: nat) {
    exists a | 1 <= a < |names| :: names[a] == u && (a < i || KeepsName(comments, a))
  }

  /** Variable `i` has its default name after the least number of underscores that makes it free. */
  ghost predicate IsFirstFree(names: seq<string>, comments: map<int, VarComment>, i: nat)
    requires i < |names|
  {
    exists k: nat :: names[i] == Prefixed(k, DefaultName(i)) &&
                     forall j | 0 <= j < k :: IsTaken(Prefixed(j, DefaultName(i)), names, comments, i)
  }

  function DefaultName(i: nat): (name: string)
    ensures IsIdentifier(name)
  {
    "p" + NatToString(i)
  }

  /** Whether variable `i` has a comment with a name that is an identifier of the ACTS format. */
  predicate HasUsableName(comments: map<int, VarComment>, i: int) { i in comments && IsIdentifier(comments[i].name) }

  /** Variable `i` is the first one with its usable name. */
  predicate KeepsName(comments: map<int, VarComment>, i: int) {
    HasUsableName(comments, i) &&
    forall j | 1 <= j < i :: HasUsableName(comments, j) ==> comments[j].name != comments[i].name
  }

  /** Distinct identifiers for the variables 1 to n. */
  predicate AreNames(names: seq<string>, n: nat) {
    && |names| == n + 1
    && (forall i | 1 <= i <= n :: IsIdentifier(names[i]))
    && forall i, j | 1 <= i < j <= n :: names[i] != names[j]
  }

  /** The used names that are at least as long as `name`: what makes the search for a free one end. */
  function NotShorter(used: set<string>, length: nat): set<string> { set u | u in used && |u| >= length }

  /** Puts underscores before a name until it is not used yet. The set of used names does not change meanwhile, and
      the name grows. */
  method FreeName(start: string, used: set<string>) returns (name: string, ghost k: nat)
    ensures name == Prefixed(k, start) && name !in used
    ensures forall j | 0 <= j < k :: Prefixed(j, start) in used
  {
    name, k := start, 0;
    while name in used
      invariant name == Prefixed(k, start)
      invariant forall j | 0 <= j < k :: Prefixed(j, start) in used
      decreases |NotShorter(used, |name|)|
    {
      FewerNames(used, name);
      name := "_" + name;
      k := k + 1;
    }
  }

  lemma FewerNames(used: set<string>, name: string)
    requires name in used
    ensures |NotShorter(used, |name| + 1)| < |NotShorter(used, |name|)|
  {
    var longer, all := NotShorter(used, |name| + 1), NotShorter(used, |name|);
    assert longer <= all - {name};
    Smaller(longer, all - {name});
  }

  lemma {:induction false} Smaller(a: set<string>, b: set<string>)
    requires a <= b
    ensures |a| <= |b|
    decreases |a|
  {
    if a != {} {
      var x :| x in a;
      Smaller(a - {x}, b - {x});
    }
  }

  /** After the first pass: the variables up to `m` that keep the name of their comment have it, the others none, and
      `used` are the names so far. */
  predicate FirstPass(names: seq<string>, used: set<string>, comments: map<int, VarComment>, n: nat, m: nat) {
    && |names| == n + 1 && m <= n
    && (forall i | 1 <= i <= m :: names[i] == if KeepsName(comments, i) then comments[i].name else "")
    && (forall i | m < i <= n :: names[i] == "")
    && (forall i | 1 <= i <= m :: HasUsableName(comments, i) ==> comments[i].name in used)
    && (forall u | u in used :: exists i | 1 <= i <= m :: KeepsName(comments, i) && comments[i].name == u)
  }

  method NameFromComments(n: nat, comments: map<int, VarComment>) returns (names: seq<string>, used: set<string>)
    ensures FirstPass(names, used, comments, n, n)
  {
    names := seq(n + 1, _ => "");
    used := {};
    for i := 1 to n + 1
      invariant FirstPass(names, used, comments, n, i - 1)
    {
      ghost var before, usedBefore := names, used;
      if HasUsableName(comments, i) {
        var name := comments[i].name;
        if name !in used {
          used := used + {name};
          names := names[i := name];
        }
      }
      FirstPassStep(before, usedBefore, names, used, comments, n, i);
    }
  }

  lemma FirstPassStep(names: seq<string>, used: set<string>, names': seq<string>, used': set<string>,
                      comments: map<int, VarComment>, n: nat, i: nat)
    requires 1 <= i <= n && FirstPass(names, used, comments, n, i - 1)
    requires if HasUsableName(comments, i) && comments[i].name !in used
             then used' == used + {comments[i].name} && names' == names[i := comments[i].name]
             else used' == used && names' == names
    ensures FirstPass(names', used', comments, n, i)
  {
    hide IsIdentifier;
    if HasUsableName(comments, i) {
      if comments[i].name in used {
        var j :| 1 <= j <= i - 1 && KeepsName(comments, j) && comments[j].name == comments[i].name;
        assert !KeepsName(comments, i);
      } else {
        assert KeepsName(comments, i);
      }
    }
    forall u | u in used' ensures exists j | 1 <= j <= i :: KeepsName(comments, j) && comments[j].name == u {
      if u in used {
        var j :| 1 <= j <= i - 1 && KeepsName(comments, j) && comments[j].name == u;
      } else {
        assert KeepsName(comments, i) && comments[i].name == u;
      }
    }
  }

  /** The state of the second pass up to variable `m`: named variables have distinct identifiers, and these are the used
      ones. */
  ghost predicate SecondPass(names: seq<string>, used: set<string>, comments: map<int, VarComment>, n: nat, m: nat) {
    && |names| == n + 1 && m <= n
    && (forall i | 1 <= i <= n :: names[i] != "" ==> IsIdentifier(names[i]) && names[i] in used)
    && (forall i, j | 1 <= i < j <= n :: names[i] != "" ==> names[i] != names[j])
    && (forall i | 1 <= i <= n :: KeepsName(comments, i) ==> names[i] == comments[i].name)
    && (forall i | 1 <= i <= m :: names[i] != "")
    && (forall i | 1 <= i <= m :: !KeepsName(comments, i) ==> IsFirstFree(names, comments, i))
    && (forall u | u in used :: u != "" && IsTaken(u, names, comments, m + 1))
  }

  lemma PassesMeet(names: seq<string>, used: set<string>, comments: map<int, VarComment>, n: nat)
    requires FirstPass(names, used, comments, n, n)
    ensures SecondPass(names, used, comments, n, 0)
    ensures forall i | 1 <= i <= n :: names[i] != "" ==> KeepsName(comments, i)
  {
    hide IsIdentifier;
    forall i | 1 <= i <= n && KeepsName(comments, i) ensures IsIdentifier(names[i]) && names[i] in used {}
    forall u | u in used ensures u != "" && IsTaken(u, names, comments, 1) {
      var i :| 1 <= i <= n && KeepsName(comments, i) && comments[i].name == u;
      assert names[i] == u;
      NotEmpty(u);
    }
  }

  /** What was taken stays so when a variable gets its name. */
  lemma StillTaken(u: string, names: seq<string>, comments: map<int, VarComment>, i: nat, j: nat, name: string)
    requires u != "" && i <= j && 0 < j < |names| && names[j] == "" && IsTaken(u, names, comments, i)
    ensures IsTaken(u, names[j := name], comments, i) && IsTaken(u, names[j := name], comments, j + 1)
  {
    hide KeepsName;
    var a :| 1 <= a < |names| && names[a] == u && (a < i || KeepsName(comments, a));
    assert names[j := name][a] == u;
  }

  lemma StillFirstFree(names: seq<string>, comments: map<int, VarComment>, i: nat, j: nat, name: string)
    requires i < j < |names| && names[j] == "" && IsFirstFree(names, comments, i)
    ensures IsFirstFree(names[j := name], comments, i)
  {
    var k: nat :| names[i] == Prefixed(k, DefaultName(i)) &&
                  forall l | 0 <= l < k :: IsTaken(Prefixed(l, DefaultName(i)), names, comments, i);
    assert names[j := name][i] == names[i];
    assert DefaultName(i) != "";
    hide IsTaken, KeepsName, DefaultName;
    forall l | 0 <= l < k ensures IsTaken(Prefixed(l, DefaultName(i)), names[j := name], comments, i) {
      assert Prefixed(l, DefaultName(i)) != "";
      StillTaken(Prefixed(l, DefaultName(i)), names, comments, i, j, name);
    }
  }

  lemma BecomesFirstFree(names: seq<string>, used: set<string>, name: string, k: nat, comments: map<int, VarComment>,
                         n: nat, i: nat)
    requires 1 <= i <= n && SecondPass(names, used, comments, n, i - 1) && names[i] == ""
    requires name == Prefixed(k, DefaultName(i)) && forall j | 0 <= j < k :: Prefixed(j, DefaultName(i)) in used
    ensures IsFirstFree(names[i := name], comments, i)
  {
    hide KeepsName, DefaultName, IsTaken, IsIdentifier;
    forall j | 0 <= j < k ensures IsTaken(Prefixed(j, DefaultName(i)), names[i := name], comments, i) {
      assert Prefixed(j, DefaultName(i)) in used;
      StillTaken(Prefixed(j, DefaultName(i)), names, comments, i, i, name);
    }
    assert names[i := name][i] == Prefixed(k, DefaultName(i));
  }

  lemma SecondPassStep(names: seq<string>, used: set<string>, name: string, k: nat, comments: map<int, VarComment>,
                       n: nat, i: nat)
    requires 1 <= i <= n && SecondPass(names, used, comments, n, i - 1) && names[i] == "" && !KeepsName(comments, i)
    requires name == Prefixed(k, DefaultName(i)) && name !in used
    requires forall j | 0 <= j < k :: Prefixed(j, DefaultName(i)) in used
    ensures SecondPass(names[i := name], used + {name}, comments, n, i)
  {
    PrefixedIsIdentifier(k, DefaultName(i));
    FreeInStep(names, used, name, k, comments, n, i);
    TakenInStep(names, used, name, comments, n, i);
    DistinctInStep(names, used, name, comments, n, i);
    NotEmpty(name);
    hide IsIdentifier, KeepsName, DefaultName, Prefixed, IsFirstFree, IsTaken;
  }

  lemma FreeInStep(names: seq<string>, used: set<string>, name: string, k: nat, comments: map<int, VarComment>, n: nat, i: nat)
    requires 1 <= i <= n && SecondPass(names, used, comments, n, i - 1) && names[i] == ""
    requires name == Prefixed(k, DefaultName(i)) && forall j | 0 <= j < k :: Prefixed(j, DefaultName(i)) in used
    ensures forall a | 1 <= a <= i && !KeepsName(comments, a) :: IsFirstFree(names[i := name], comments, a)
  {
    BecomesFirstFree(names, used, name, k, comments, n, i);
    hide IsIdentifier, KeepsName, DefaultName, Prefixed, IsFirstFree, IsTaken;
    forall a | 1 <= a <= i && !KeepsName(comments, a) ensures IsFirstFree(names[i := name], comments, a) {
      if a < i { StillFirstFree(names, comments, a, i, name); }
    }
  }

  lemma DistinctInStep(names: seq<string>, used: set<string>, name: string, comments: map<int, VarComment>, n: nat, i: nat)
    requires 1 <= i <= n && SecondPass(names, used, comments, n, i - 1) && names[i] == "" && name !in used
    ensures var more := names[i := name]; forall a, b | 1 <= a < b <= n && more[a] != "" :: more[a] != more[b]
  {
    hide IsIdentifier, KeepsName, DefaultName, Prefixed, IsFirstFree, IsTaken;
    var more := names[i := name];
    forall a, b | 1 <= a < b <= n && more[a] != "" ensures more[a] != more[b] {
      if a == i { assert names[b] != "" ==> names[b] in used; } else if b == i { assert names[a] in used; }
    }
  }

  lemma TakenInStep(names: seq<string>, used: set<string>, name: string, comments: map<int, VarComment>, n: nat, i: nat)
    requires 1 <= i <= n && SecondPass(names, used, comments, n, i - 1) && names[i] == ""
    ensures forall u | u in used + {name} :: u != "" || u == name
    ensures forall u | u in used + {name} :: IsTaken(u, names[i := name], comments, i + 1)
  {
    hide IsIdentifier, KeepsName, DefaultName, Prefixed, IsFirstFree, IsTaken;
    forall u | u in used + {name} ensures IsTaken(u, names[i := name], comments, i + 1) {
      if u in used { StillTaken(u, names, comments, i, i, name); } else { JustTaken(names[i := name], comments, i); }
    }
  }

  lemma JustTaken(names: seq<string>, comments: map<int, VarComment>, i: nat)
    requires 1 <= i < |names|
    ensures IsTaken(names[i], names, comments, i + 1)
  {}

  lemma NotEmpty(name: string)
    requires IsIdentifier(name)
    ensures name != ""
  {}

  /** Every variable has an identifier of its own: the name of its comment when it is the first one with that name and
      the name is an identifier, or else "p" and its number after as many underscores as are needed. */
  ghost predicate AreChosenNames(names: seq<string>, comments: map<int, VarComment>, n: nat) {
    && AreNames(names, n)
    && (forall i | 1 <= i <= n :: KeepsName(comments, i) ==> names[i] == comments[i].name)
    && forall i | 1 <= i <= n :: !KeepsName(comments, i) ==> IsFirstFree(names, comments, i)
  }

  /** A variable has the name "p" and its number when no variable keeps that name for another one. */
  lemma DefaultNames(names: seq<string>, comments: map<int, VarComment>, n: nat, i: nat)
    requires AreChosenNames(names, comments, n) && 1 <= i <= n && !KeepsName(comments, i)
    requires forall a | 1 <= a <= n && HasUsableName(comments, a) :: comments[a].name != "p" + NatToString(i)
    ensures names[i] == "p" + NatToString(i)
  {
    hide IsIdentifier, IsFirstFree, DefaultName;
    Default(i);
    if names[i] != DefaultName(i) {
      NotFree(names, comments, i);
      var a :| 1 <= a <= n && names[a] == DefaultName(i) && (a < i || KeepsName(comments, a));
      if !KeepsName(comments, a) { FreeDefault(names, comments, a, i); }
      assert false;
    }
  }

  lemma NotFree(names: seq<string>, comments: map<int, VarComment>, i: nat)
    requires i < |names| && IsFirstFree(names, comments, i) && names[i] != DefaultName(i)
    ensures IsTaken(DefaultName(i), names, comments, i)
  {
    hide IsTaken, DefaultName;
    assert Prefixed(0, DefaultName(i)) == DefaultName(i);
  }

  lemma FreeDefault(names: seq<string>, comments: map<int, VarComment>, a: nat, i: nat)
    requires a < |names| && IsFirstFree(names, comments, a) && names[a] == DefaultName(i)
    ensures a == i
  {
    hide IsTaken, DefaultName, Prefixed;
    var l: nat :| names[a] == Prefixed(l, DefaultName(a)) &&
                  forall j | 0 <= j < l :: IsTaken(Prefixed(j, DefaultName(a)), names, comments, a);
    OneDefault(l, a, i);
  }

  lemma DefaultStart(i: nat)
    ensures DefaultName(i)[0] == 'p' && DefaultName(i)[1..] == NatToString(i)
  {}

  lemma OneDefault(l: nat, a: nat, i: nat)
    requires Prefixed(l, DefaultName(a)) == DefaultName(i)
    ensures a == i
  {
    DefaultStart(a);
    DefaultStart(i);
    hide DefaultName;
    assert l == 0;
    NatToStringInjective(a, i);
  }

  /** The names of the variables 1 to n. */
  method CreateParamNames(n: nat, comments: map<int, VarComment>) returns (names: seq<string>)
    ensures AreNames(names, n)
    ensures forall i | 1 <= i <= n :: KeepsName(comments, i) ==> names[i] == comments[i].name
    ensures forall i | 1 <= i <= n && !KeepsName(comments, i) :: IsFirstFree(names, comments, i)
    ensures AreChosenNames(names, comments, n)
  {
    hide IsIdentifier, KeepsName, DefaultName, Prefixed, IsFirstFree, IsTaken;
    var used;
    names, used := NameFromComments(n, comments);
    PassesMeet(names, used, comments, n);
    ghost var first := names;
    for i := 1 to n + 1
      invariant SecondPass(names, used, comments, n, i - 1)
      invariant forall j | i <= j <= n :: names[j] == first[j]
    {
      if names[i] != "" {
        KeptNames(names, used, comments, n, i);
        continue;
      }
      assert !KeepsName(comments, i) by { if KeepsName(comments, i) { KeptIsNamed(names, used, comments, n, i); } }
      var name;
      ghost var k;
      name, k := FreeName("p" + NatToString(i), used);
      assert DefaultName(i) == "p" + NatToString(i) by { Default(i); }
      SecondPassStep(names, used, name, k, comments, n, i);
      used := used + {name};
      names := names[i := name];
    }
  }

  lemma Default(i: nat)
    ensures DefaultName(i) == "p" + NatToString(i)
  {}

  lemma KeptNames(names: seq<string>, used: set<string>, comments: map<int, VarComment>, n: nat, i: nat)
    requires 1 <= i <= n && SecondPass(names, used, comments, n, i - 1) && names[i] != "" && KeepsName(comments, i)
    ensures SecondPass(names, used, comments, n, i)
  {
    hide IsIdentifier, KeepsName, DefaultName, Prefixed, IsFirstFree;
    forall u | u in used ensures IsTaken(u, names, comments, i + 1) {
      assert IsTaken(u, names, comments, i);
    }
  }

  lemma KeptIsNamed(names: seq<string>, used: set<string>, comments: map<int, VarComment>, n: nat, i: nat)
    requires 1 <= i <= n && SecondPass(names, used, comments, n, i - 1) && KeepsName(comments, i)
    ensures names[i] != ""
  {}

  // ---- Meaning -----------------------------------------------------------------------------------------

  predicate AllWithin(ls: seq<DimacsLiteral>, n: nat) { forall k | 0 <= k < |ls| :: 1 <= ls[k].variable <= n }

  function Proposition(l: DimacsLiteral, names: seq<string>): Constraint
    requires l.variable < |names|
  {
    IntProposition(names[l.variable], EQ, if l.negative then 0 else 1)
  }

  function Propositions(ls: seq<DimacsLiteral>, names: seq<string>): (cs: seq<Constraint>)
    requires names != [] && AllWithin(ls, |names| - 1)
    ensures |cs| == |ls| && forall k | 0 <= k < |ls| :: cs[k] == Proposition(ls[k], names)
  {
    seq(|ls|, k requires 0 <= k < |ls| => Proposition(ls[k], names))
  }

  /** Variable i becomes parameter i - 1, with the values 0 and 1. */
  function Parameters(names: seq<string>): (ps: seq<Parameter>)
    requires names != []
    ensures |ps| == |names| - 1
    ensures forall i | 0 <= i < |ps| :: ps[i] == Parameter(names[i + 1], INTEGER, [IntValue(0), IntValue(1)])
  {
    seq(|names| - 1, i requires 0 <= i < |names| - 1 => Parameter(names[i + 1], INTEGER, [IntValue(0), IntValue(1)]))
  }

  /** An assignment of 0 or 1 to each variable. */
  predicate IsAssignment(n: nat, xs: seq<int>) { |xs| == n && forall i | 0 <= i < n :: 0 <= xs[i] <= 1 }

  predicate LiteralTrue(l: DimacsLiteral, xs: seq<int>)
    requires 1 <= l.variable <= |xs|
  {
    (xs[l.variable - 1] == 1) != l.negative
  }

  predicate ClauseTrue(ls: seq<DimacsLiteral>, xs: seq<int>)
    requires AllWithin(ls, |xs|)
  {
    exists k | 0 <= k < |ls| :: LiteralTrue(ls[k], xs)
  }

  /** What a clause says about its numbers: a positive one asks for a 1, a negative one for a 0. */
  lemma NumbersDecide(ls: seq<DimacsLiteral>, xs: seq<int>)
    requires AllWithin(ls, |xs|) && IsAssignment(|xs|, xs)
    ensures ClauseTrue(ls, xs) <==>
            exists n | n in NumbersOf(ls) :: (0 < n <= |xs| && xs[n - 1] == 1) || (-|xs| <= n < 0 && xs[-n - 1] == 0)
  {
    var ns := NumbersOf(ls);
    if ClauseTrue(ls, xs) {
      var k :| 0 <= k < |ls| && LiteralTrue(ls[k], xs);
      assert ns[k] in ns;
    }
    forall n | n in ns && ((0 < n <= |xs| && xs[n - 1] == 1) || (-|xs| <= n < 0 && xs[-n - 1] == 0))
      ensures ClauseTrue(ls, xs)
    {
      var k :| 0 <= k < |ns| && ns[k] == n;
      assert LiteralTrue(ls[k], xs);
    }
  }

  lemma LiteralMeaning(names: seq<string>, n: nat, l: DimacsLiteral, xs: seq<int>)
    requires AreNames(names, n) && IsAssignment(n, xs) && 1 <= l.variable <= n
    ensures var c := Proposition(l, names);
            E.Typed(c, Parameters(names)) && (E.Holds(c, Parameters(names), xs) <==> LiteralTrue(l, xs))
  {
    hide IsIdentifier;
    var ps := Parameters(names);
    var i := E.IndexOf(ps, names[l.variable]);
    assert ps[l.variable - 1].name == names[l.variable];
    assert i == l.variable - 1;
  }

  /** The constraint read from a written clause has the truth value of the clause. */
  lemma ClauseMeaning(names: seq<string>, n: nat, ls: seq<DimacsLiteral>, xs: seq<int>)
    requires AreNames(names, n) && IsAssignment(n, xs) && ls != [] && AllWithin(ls, n)
    ensures var c := Disjunction(Propositions(ls, names));
            E.Typed(c, Parameters(names)) && (E.Holds(c, Parameters(names), xs) <==> ClauseTrue(ls, xs))
  {
    hide AreNames, IsAssignment, Proposition, Parameters, LiteralTrue;
    NamesLength(names, n);
    AssignmentLength(n, xs);
    var cs, ps := Propositions(ls, names), Parameters(names);
    forall k | 0 <= k < |ls| ensures E.Typed(cs[k], ps) && (E.Holds(cs[k], ps, xs) <==> LiteralTrue(ls[k], xs)) {
      LiteralMeaning(names, n, ls[k], xs);
    }
    if |ls| > 1 { DisjunctionMeaning(cs, ps, xs); }
  }

  lemma NamesLength(names: seq<string>, n: nat)
    requires AreNames(names, n)
    ensures |names| == n + 1
  {}

  lemma AssignmentLength(n: nat, xs: seq<int>)
    requires IsAssignment(n, xs)
    ensures |xs| == n
  {}

  // ---- Writing clauses -------------------------------------------------------------------------------------

  method FormatClause(ls: seq<DimacsLiteral>, names: seq<string>) returns (result: string)
    requires names != [] && AllWithin(ls, |names| - 1)
    ensures result == ClauseText(Propositions(ls, names))
  {
    hide LiteralText, ClauseText, Proposition, Separator;
    result := "";
    assert result == ClauseText([]) by { EmptyClauseText(); }
    for i := 0 to |ls|
      invariant result == ClauseText(Propositions(ls[..i], names))
    {
      ghost var before := Propositions(ls[..i], names);
      if i > 0 { result := result + " || "; }
      var literal := FormatLiteral(ls[i], names);
      result := result + literal;
      ClauseTextAppend(before, Proposition(ls[i], names));
      OrSeparator();
      assert Propositions(ls[..i + 1], names) == before + [Proposition(ls[i], names)];
    }
    assert ls[..|ls|] == ls;
  }

  lemma OrSeparator()
    ensures Separator(OR) == " || "
  {}

  method FormatLiteral(l: DimacsLiteral, names: seq<string>) returns (text: string)
    requires l.variable < |names|
    ensures text == LiteralText(Proposition(l, names))
  {
    var value := if l.negative then "0" else "1";
    text := "(" + names[l.variable] + " = " + value + ")";
    FormattedLiteral(l, names);
    hide LiteralText, Proposition;
  }

  lemma FormattedLiteral(l: DimacsLiteral, names: seq<string>)
    requires l.variable < |names|
    ensures "(" + names[l.variable] + " = " + (if l.negative then "0" else "1") + ")" == LiteralText(Proposition(l, names))
  {
    var name, value := names[l.variable], if l.negative then "0" else "1";
    assert NatToString(0) == "0" && NatToString(1) == "1";
    assert " " + "=" + " " == " = ";
    EqualityText(name, value);
  }

  lemma EqualityText(name: string, value: string)
    ensures "(" + name + " = " + value + ")" == "(" + (name + " " + "=" + " " + value) + ")"
  {
    assert " " + "=" + " " == " = ";
  }

  // ---- Auxiliary variables -------------------------------------------------------------------------------------

  /** (_X|x)[0-9]+(_m)? */
  predicate IsAuxiliaryName(name: string) {
    var start := if At(name, 0, "_X") then 2 else if At(name, 0, "x") then 1 else |name|;
    IsNumberOrMore(name[start..])
  }

  /** [0-9]+(_m)? */
  predicate IsNumberOrMore(digits: string) {
    IsNumeral(digits) || (|digits| > 2 && At(digits, |digits| - 2, "_m") && IsNumeral(digits[..|digits| - 2]))
  }

  predicate IsNumeral(s: string) { s != "" && AllDigits(s) }

  /** `name` is `start`, at least one digit and `end`. */
  predicate IsSpelled(name: string, start: string, digits: string, end: string) {
    name == start + digits + end && digits != "" && forall k | 0 <= k < |digits| :: '0' <= digits[k] <= '9'
  }

  /** The auxiliary names are "_X" or "x" before a number that may be followed by "_m". */
  lemma AuxiliaryNames(name: string)
    ensures IsAuxiliaryName(name) <==>
            exists digits :: || IsSpelled(name, "_X", digits, "") || IsSpelled(name, "x", digits, "")
                             || IsSpelled(name, "_X", digits, "_m") || IsSpelled(name, "x", digits, "_m")
  {
    if IsAuxiliaryName(name) { var first, digits, end := AuxiliaryIsSpelled(name); }
    forall digits | || IsSpelled(name, "_X", digits, "") || IsSpelled(name, "x", digits, "")
                    || IsSpelled(name, "_X", digits, "_m") || IsSpelled(name, "x", digits, "_m")
      ensures IsAuxiliaryName(name)
    {
      SpelledIsAuxiliary(name, if name[0] == '_' then "_X" else "x", digits, if name[|name| - 1] == 'm' then "_m" else "");
    }
  }

  lemma AuxiliaryIsSpelled(name: string) returns (first: string, digits: string, end: string)
    requires IsAuxiliaryName(name)
    ensures (first == "_X" || first == "x") && (end == "" || end == "_m") && IsSpelled(name, first, digits, end)
  {
    hide *;
    first := AuxiliaryStart(name);
    digits, end := AuxiliaryEnd(name[|first|..]);
    Joined(name, first, digits, end);
  }

  lemma AuxiliaryStart(name: string) returns (first: string)
    requires IsAuxiliaryName(name)
    ensures first == "_X" || first == "x"
    ensures |first| < |name| && name[..|first|] == first && IsNumberOrMore(name[|first|..])
  {
    if At(name, 0, "_X") { first := "_X"; } else { first := "x"; }
    assert |first| < |name| && At(name, 0, first) && IsNumberOrMore(name[|first|..]);
    hide At, IsNumberOrMore;
    AtSlice(name, 0, first);
  }

  lemma AuxiliaryEnd(rest: string) returns (digits: string, end: string)
    requires IsNumberOrMore(rest)
    ensures rest == digits + end && (end == "" || end == "_m") && IsNumeral(digits)
  {
    if IsNumeral(rest) {
      digits, end := rest, "";
    } else {
      digits, end := rest[..|rest| - 2], "_m";
      AtSlice(rest, |rest| - 2, end);
      hide At, IsNumeral;
      assert rest == rest[..|rest| - 2] + rest[|rest| - 2..];
    }
  }

  lemma Joined(name: string, first: string, digits: string, end: string)
    requires |first| <= |name| && name[..|first|] == first && name[|first|..] == digits + end && IsNumeral(digits)
    ensures IsSpelled(name, first, digits, end)
  {
    assert name == name[..|first|] + name[|first|..];
    assert first + (digits + end) == first + digits + end;
  }

  lemma StartIs(name: string, first: string)
    requires first == "_X" || first == "x"
    requires |first| < |name| && name[..|first|] == first
    ensures At(name, 0, "_X") == (first == "_X") && At(name, 0, "x") == (first == "x")
  {
    AtSlice(name, 0, first);
    assert name[0 + 0] == first[0];
    assert "x"[0] == 'x' && "_X"[0] == '_';
    if first == "_X" { assert !At(name, 0, "x"); } else { assert !At(name, 0, "_X"); }
  }

  lemma EndIs(rest: string, digits: string)
    requires rest == digits + "_m"
    ensures |rest| == |digits| + 2 && rest[..|rest| - 2] == digits && At(rest, |rest| - 2, "_m")
  {}

  lemma SpelledIsAuxiliary(name: string, first: string, digits: string, end: string)
    requires (first == "_X" || first == "x") && (end == "" || end == "_m") && IsSpelled(name, first, digits, end)
    ensures IsAuxiliaryName(name)
  {
    var rest := name[|first|..];
    assert name[..|first|] == first && rest == digits + end;
    hide At, IsNumberOrMore;
    StartIs(name, first);
    SpelledEnd(rest, digits, end);
  }

  lemma SpelledEnd(rest: string, digits: string, end: string)
    requires rest == digits + end && (end == "" || end == "_m") && IsNumeral(digits)
    ensures IsNumberOrMore(rest)
  {
    hide IsNumeral;
    if end == "" { assert rest == digits; } else { EndIs(rest, digits); }
    hide At;
    assert |digits| > 0 by { Nonempty(digits); }
  }

  lemma Nonempty(digits: string)
    requires IsNumeral(digits)
    ensures |digits| > 0
  {}

  predicate IsAuxiliary(comments: map<int, VarComment>, i: int) {
    i in comments && comments[i].hasDollar && IsAuxiliaryName(comments[i].name)
  }

  /** The variables that the relation covers. */
  function RelationVars(n: nat, comments: map<int, VarComment>, keepAux: bool): (vars: seq<nat>)
    ensures forall k | 0 <= k < |vars| :: 1 <= vars[k] <= n
  {
    if n == 0 then []
    else RelationVars(n - 1, comments, keepAux) + if keepAux || !IsAuxiliary(comments, n) then [n] else []
  }

  predicate Increasing(vars: seq<nat>) { forall j, k | 0 <= j < k < |vars| :: vars[j] < vars[k] }

  /** It covers exactly the variables that are not auxiliary, in increasing order. */
  lemma {:induction false} CoversTheOthers(n: nat, comments: map<int, VarComment>, keepAux: bool)
    ensures forall i | 1 <= i <= n :: i in RelationVars(n, comments, keepAux) <==> keepAux || !IsAuxiliary(comments, i)
    ensures Increasing(RelationVars(n, comments, keepAux))
  {
    hide IsAuxiliary, RelationVars;
    RelationVarsStep(n, comments, keepAux);
    if n > 0 {
      CoversTheOthers(n - 1, comments, keepAux);
      OneMoreCovered(RelationVars(n - 1, comments, keepAux), n);
      NoneMoreCovered(RelationVars(n - 1, comments, keepAux), n);
      hide Increasing;
    }
  }

  lemma RelationVarsStep(n: nat, comments: map<int, VarComment>, keepAux: bool)
    ensures n == 0 ==> RelationVars(n, comments, keepAux) == []
    ensures n > 0 ==> RelationVars(n, comments, keepAux) ==
                      RelationVars(n - 1, comments, keepAux) + if keepAux || !IsAuxiliary(comments, n) then [n] else []
  {
    hide IsAuxiliary;
  }

  lemma OneMoreCovered(vars: seq<nat>, n: nat)
    requires Increasing(vars) && forall k | 0 <= k < |vars| :: 1 <= vars[k] < n
    ensures Increasing(vars + [n]) && n in vars + [n] && forall i | 1 <= i < n :: i in vars + [n] <==> i in vars
  {}

  lemma NoneMoreCovered(vars: seq<nat>, n: nat)
    requires forall k | 0 <= k < |vars| :: 1 <= vars[k] < n
    ensures vars + [] == vars && n !in vars
  {}

  method SelectRelationVars(n: nat, comments: map<int, VarComment>, keepAux: bool) returns (vars: seq<nat>)
    ensures vars == RelationVars(n, comments, keepAux)
  {
    hide IsAuxiliary;
    vars := [];
    for i := 1 to n + 1
      invariant vars == RelationVars(i - 1, comments, keepAux)
    {
      if keepAux || !IsAuxiliary(comments, i) { vars := vars + [i]; }
    }
  }

  function VarNames(vars: seq<nat>, names: seq<string>): (r: seq<string>)
    requires forall k | 0 <= k < |vars| :: vars[k] < |names|
    ensures |r| == |vars| && forall k | 0 <= k < |vars| :: r[k] == names[vars[k]]
  {
    seq(|vars|, k requires 0 <= k < |vars| => names[vars[k]])
  }

  // ---- The whole file ----------------------------------------------------------------------------------------------

  predicate AllClausesWithin(clauses: seq<seq<DimacsLiteral>>, n: nat) { forall k | 0 <= k < |clauses| :: AllWithin(clauses[k], n) }

  function ClauseTexts(clauses: seq<seq<DimacsLiteral>>, names: seq<string>): (texts: seq<string>)
    requires names != [] && AllClausesWithin(clauses, |names| - 1)
    ensures |texts| == |clauses|
    ensures forall k | 0 <= k < |clauses| :: texts[k] == ClauseText(Propositions(clauses[k], names))
  {
    seq(|clauses|, k requires 0 <= k < |clauses| => ClauseText(Propositions(clauses[k], names)))
  }

  function ClauseConstraints(clauses: seq<seq<DimacsLiteral>>, names: seq<string>): (cs: seq<Constraint>)
    requires names != [] && AllClausesWithin(clauses, |names| - 1) && forall k | 0 <= k < |clauses| :: clauses[k] != []
    ensures |cs| == |clauses|
    ensures forall k | 0 <= k < |clauses| :: cs[k] == Disjunction(Propositions(clauses[k], names))
  {
    seq(|clauses|, k requires 0 <= k < |clauses| => Disjunction(Propositions(clauses[k], names)))
  }

  /** The lines of the relation section, which is written for a positive strength only. */
  function RelationTexts(names: seq<string>, strength: int): seq<string> {
    if strength > 0 then [RelationLine(names, strength)] else []
  }

  function TheRelations(names: seq<string>, strength: int): seq<Relation> {
    if strength > 0 then [Relation("R1", names, strength)] else []
  }

  /** The text of the output file, with the names of the relation's variables in `covered`. */
  function ActsText(name: string, names: seq<string>, covered: seq<string>, strength: int, clauses: seq<seq<DimacsLiteral>>): string
    requires names != [] && AllClausesWithin(Kept(clauses), |names| - 1)
  {
    PrintSystemSection(name)
    + PrintSection("Parameter", PrintParameters(Parameters(names)), "\n")
    + M.RelationPart(RelationTexts(covered, strength))
    + M.ConstraintPart(true, ClauseTexts(Kept(clauses), names), "")
  }

  lemma ParametersAreWellFormed(names: seq<string>, n: nat, i: nat)
    requires AreNames(names, n) && i < n
    ensures WellFormedParameter(Parameters(names)[i])
  {
    hide IsIdentifier;
  }

  lemma NameIsDeclared(names: seq<string>, n: nat, i: nat)
    requires AreNames(names, n) && 1 <= i <= n
    ensures names[i] in Declared(Parameters(names)) && IsIdentifier(names[i])
  {
    hide IsIdentifier;
    assert Parameters(names)[i - 1].name == names[i];
    assert Parameters(names)[i - 1] in Parameters(names);
  }

  lemma PropositionsAreWellFormed(names: seq<string>, n: nat, ls: seq<DimacsLiteral>)
    requires AreNames(names, n) && AllWithin(ls, n)
    ensures AllWellFormed(Propositions(ls, names), Declared(Parameters(names)))
  {
    NamesLength(names, n);
    hide AreNames, IsIdentifier, Declared, Parameters;
    var cs, ds := Propositions(ls, names), Declared(Parameters(names));
    forall k | 0 <= k < |cs| ensures WellFormedConstraint(cs[k], ds) {
      NameIsDeclared(names, n, ls[k].variable);
    }
  }

  lemma ClausesRead(names: seq<string>, n: nat, clauses: seq<seq<DimacsLiteral>>)
    requires AreNames(names, n) && AllClausesWithin(clauses, n) && forall k | 0 <= k < |clauses| :: clauses[k] != []
    ensures |names| == n + 1
    ensures M.AllReadAs(ClauseTexts(clauses, names), ClauseConstraints(clauses, names), Declared(Parameters(names)))
  {
    NamesLength(names, n);
    hide AreNames, Parameters, Declared, M.ReadsAs, AllWithin, Propositions, ClauseText, Disjunction, AllWellFormed;
    var texts, cs, ds := ClauseTexts(clauses, names), ClauseConstraints(clauses, names), Declared(Parameters(names));
    forall k | 0 <= k < |cs| ensures M.ReadsAs(texts[k], cs[k], ds) {
      PropositionsAreWellFormed(names, n, clauses[k]);
      ClauseReads(Propositions(clauses[k], names), ds);
    }
    M.EachReadAs(texts, cs, ds);
  }

  lemma RelationsRead(names: seq<string>, n: nat, covered: seq<string>, strength: int)
    requires AreNames(names, n) && strength <= INT_MAX && (strength > 0 ==> covered != [])
    requires forall k | 0 <= k < |covered| :: covered[k] in names[1..]
    ensures M.AllRelationTexts(RelationTexts(covered, strength), TheRelations(covered, strength), " : (", Declared(Parameters(names)))
  {
    NamesLength(names, n);
    hide AreNames, Parameters, Declared, RelationLine, IsIdentifier;
    var ds := Declared(Parameters(names));
    forall k | 0 <= k < |covered| ensures covered[k] in ds && IsIdentifier(covered[k]) {
      var i :| 0 <= i < |names[1..]| && names[1..][i] == covered[k];
      NameIsDeclared(names, n, i + 1);
    }
    if strength > 0 { RelationReads(covered, strength, ds); }
  }

  /** The output file parses into one parameter for each variable, the relation, and one constraint for each non-empty
      clause. */
  lemma FileParses(name: string, names: seq<string>, n: nat, covered: seq<string>, strength: int, clauses: seq<seq<DimacsLiteral>>)
    requires WellFormedName(name) && n > 0 && AreNames(names, n) && |names| == n + 1
    requires strength <= INT_MAX && (strength > 0 ==> covered != []) && forall k | 0 <= k < |covered| :: covered[k] in names[1..]
    requires AllClausesWithin(Kept(clauses), n)
    ensures var t := ActsText(name, names, covered, strength, clauses);
            R.Parse(t) == R.Match(|t|, Model(name, Parameters(names), TheRelations(covered, strength),
                                             ClauseConstraints(Kept(clauses), names)))
  {
    hide WellFormedName, AreNames, Kept, Parameters, AllClausesWithin, ClauseTexts, ClauseConstraints, RelationTexts, TheRelations,
         M.AllReadAs, M.AllRelationTexts, R.ParseInto, WellFormedParameter, Declared,
         PrintSystemSection, PrintSection, PrintParameters, M.RelationPart, M.ConstraintPart;
    var ps, kept, rs := Parameters(names), Kept(clauses), TheRelations(covered, strength);
    forall k | 0 <= k < |ps| ensures WellFormedParameter(ps[k]) { ParametersAreWellFormed(names, n, k); }
    RelationsRead(names, n, covered, strength);
    ClausesRead(names, n, kept);
    var cs := ClauseConstraints(kept, names);
    assert [] + ps == ps && [] + rs == rs && [] + cs == cs;
    M.DocumentParses(ActsText(name, names, covered, strength, clauses), EmptyModel(), name, ps, RelationTexts(covered, strength), rs,
                     " : (", true, ClauseTexts(kept, names), cs, "");
  }

  predicate AllClausesTrue(clauses: seq<seq<DimacsLiteral>>, xs: seq<int>)
    requires AllClausesWithin(clauses, |xs|)
  {
    forall k | 0 <= k < |clauses| :: ClauseTrue(clauses[k], xs)
  }

  /** An assignment fulfills the model read from the output file exactly when it satisfies every non-empty clause. */
  lemma FileMeaning(name: string, names: seq<string>, n: nat, covered: seq<string>, strength: int, clauses: seq<seq<DimacsLiteral>>,
                    xs: seq<int>)
    requires WellFormedName(name) && n > 0 && AreNames(names, n) && |names| == n + 1 && IsAssignment(n, xs) && |xs| == n
    requires strength <= INT_MAX && (strength > 0 ==> covered != []) && forall k | 0 <= k < |covered| :: covered[k] in names[1..]
    requires AllClausesWithin(Kept(clauses), n)
    ensures var o := R.Parse(ActsText(name, names, covered, strength, clauses));
            && o.Match? && |o.value.parameters| == n
            && E.AllTyped(o.value.constraints, o.value.parameters)
            && (E.Fulfilled(o.value.constraints, o.value.parameters, xs) <==> AllClausesTrue(Kept(clauses), xs))
  {
    hide R.Parse, ActsText, WellFormedName, AreNames, IsAssignment, Kept, Parameters, Disjunction, Propositions;
    FileParses(name, names, n, covered, strength, clauses);
    var kept := Kept(clauses);
    forall k | 0 <= k < |kept|
      ensures var c := ClauseConstraints(kept, names)[k];
              && E.Typed(c, Parameters(names))
              && (E.Holds(c, Parameters(names), xs) <==> ClauseTrue(kept[k], xs))
    {
      ClauseMeaning(names, n, kept[k], xs);
    }
  }

  // ---- Writing the file, piece by piece ----------------------------------------------------------------------------

  method WriteParameterSection(os: P.Stream, names: seq<string>)
    requires names != []
    modifies os
    ensures os.text == old(os.text) + PrintSection("Parameter", PrintParameters(Parameters(names)), "\n")
  {
    hide Lines, PrintParameters, Parameters;
    os.Write("[Parameter]\n");
    WriteParameterLines(os, names);
    os.Write("\n");
    assert "[" + "Parameter" + "]\n" == "[Parameter]\n";
  }

  method WriteParameterLines(os: P.Stream, names: seq<string>)
    requires names != []
    modifies os
    ensures os.text == old(os.text) + Lines(PrintParameters(Parameters(names)))
  {
    hide PrintParameter;
    ghost var texts := PrintParameters(Parameters(names));
    for i := 1 to |names|
      invariant os.text == old(os.text) + Lines(texts[..i - 1])
    {
      P.TakeLine(texts, i - 1);
      ParameterLine(names[i]);
      os.Write(names[i]);
      os.Write(" (int) : 0, 1\n");
      ParameterLineEnd(Lines(texts[..i - 1]), names[i]);
    }
    assert texts[..|texts|] == texts;
  }

  lemma ParameterLine(name: string)
    ensures PrintParameter(Parameter(name, INTEGER, [IntValue(0), IntValue(1)])) == name + " (int) : 0, 1"
  {
    assert NatToString(0) == "0" && NatToString(1) == "1";
    var vs := [IntValue(0), IntValue(1)];
    assert vs[1..] == [IntValue(1)] && [IntValue(1)][1..] == [];
    assert PrintMoreValues([IntValue(1)]) == ", " + "1" + "";
    assert PrintValues(vs) == "0" + (", " + "1" + "") == "0, 1";
    assert PrintType(INTEGER) == "(int) : ";
    hide PrintValues, PrintType;
    assert name + " " + "(int) : " + "0, 1" == name + (" " + "(int) : " + "0, 1");
    assert " " + "(int) : " + "0, 1" == " (int) : 0, 1";
  }

  lemma ParameterLineEnd(before: string, name: string)
    ensures before + (name + " (int) : 0, 1") + "\n" == before + name + " (int) : 0, 1\n"
  {
    assert " (int) : 0, 1" + "\n" == " (int) : 0, 1\n";
  }

  method WriteRelationSection(os: P.Stream, covered: seq<string>, strength: int)
    requires strength > 0 ==> covered != []
    modifies os
    ensures os.text == old(os.text) + M.RelationPart(RelationTexts(covered, strength))
  {
    hide RelationLine, M.RelationPart, PrintSection;
    if strength > 0 {
      os.Write("[Relation]\n");
      WriteRelationLine(os, covered, strength);
      os.Write("\n\n");
      OneLine(RelationLine(covered, strength));
    } else {
      NoRelationPart();
    }
  }

  lemma NoRelationPart()
    ensures M.RelationPart([]) == ""
  {}

  method WriteRelationLine(os: P.Stream, covered: seq<string>, strength: int)
    requires covered != []
    modifies os
    ensures os.text == old(os.text) + RelationLine(covered, strength)
  {
    hide CommaSeparated, RelationLine, IntToString;
    os.Write("R1 : (");
    WriteNames(os, covered);
    os.Write(", ");
    os.Write(IntToString(strength));
    os.Write(")");
    RelationLineText(covered, strength);
  }

  method WriteNames(os: P.Stream, names: seq<string>)
    modifies os
    ensures os.text == old(os.text) + CommaSeparated(names)
  {
    for i := 0 to |names|
      invariant os.text == old(os.text) + CommaSeparated(names[..i])
    {
      if i > 0 { os.Write(", "); }
      os.Write(names[i]);
      assert names[..i + 1][..i] == names[..i];
    }
    assert names[..|names|] == names;
  }

  method WriteConstraintSection(os: P.Stream, clauses: seq<seq<DimacsLiteral>>, names: seq<string>)
    requires names != [] && AllClausesWithin(Kept(clauses), |names| - 1)
    modifies os
    ensures os.text == old(os.text) + M.ConstraintPart(true, ClauseTexts(Kept(clauses), names), "")
  {
    hide AllClausesWithin, Kept, Lines, ClauseTexts;
    os.Write("[Constraint]\n");
    WriteClauses(os, clauses, names);
    assert "[" + "Constraint" + "]\n" == "[Constraint]\n";
  }

  method WriteClauses(os: P.Stream, clauses: seq<seq<DimacsLiteral>>, names: seq<string>)
    requires names != [] && AllClausesWithin(Kept(clauses), |names| - 1)
    modifies os
    ensures os.text == old(os.text) + Lines(ClauseTexts(Kept(clauses), names))
  {
    hide AllWithin, ClauseText, Propositions, Lines, Kept;
    KeptPrefix(clauses, 0);
    NothingKept(names);
    assert clauses[..0] == [];
    for i := 0 to |clauses|
      invariant Kept(clauses[..i]) <= Kept(clauses)
      invariant os.text == old(os.text) + Lines(ClauseTexts(Kept(clauses[..i]), names))
    {
      KeepNext(clauses, i);
      KeptPrefix(clauses, i + 1);
      if clauses[i] == [] { continue; }
      var j := |Kept(clauses[..i])|;
      assert Kept(clauses)[j] == Kept(clauses[..i + 1])[j] == clauses[i];
      var text := FormatClause(clauses[i], names);
      AppendClause(Kept(clauses[..i]), clauses[i], names);
      os.Write(text);
      os.Write("\n");
    }
    assert clauses[..|clauses|] == clauses;
  }

  lemma NothingKept(names: seq<string>)
    requires names != []
    ensures Kept<DimacsLiteral>([]) == [] && Lines(ClauseTexts([], names)) == ""
  {}

  lemma {:induction false} KeptPrefix(clauses: seq<seq<DimacsLiteral>>, i: nat)
    requires i <= |clauses|
    ensures Kept(clauses[..i]) <= Kept(clauses)
    decreases |clauses|
  {
    if i == |clauses| {
      assert clauses[..i] == clauses;
    } else {
      var n := |clauses| - 1;
      KeptPrefix(clauses[..n], i);
      assert clauses[..n][..i] == clauses[..i];
    }
  }

  lemma AppendClause(kept: seq<seq<DimacsLiteral>>, ls: seq<DimacsLiteral>, names: seq<string>)
    requires names != [] && AllClausesWithin(kept, |names| - 1) && AllWithin(ls, |names| - 1)
    ensures AllClausesWithin(kept + [ls], |names| - 1)
    ensures Lines(ClauseTexts(kept + [ls], names)) == Lines(ClauseTexts(kept, names)) + ClauseText(Propositions(ls, names)) + "\n"
  {
    hide AllWithin, ClauseText, Propositions;
    assert ClauseTexts(kept + [ls], names) == ClauseTexts(kept, names) + [ClauseText(Propositions(ls, names))];
    P.LastLine(ClauseTexts(kept, names), ClauseText(Propositions(ls, names)));
  }

  method WriteActs(os: P.Stream, name: string, names: seq<string>, covered: seq<string>, strength: int,
                   clauses: seq<seq<DimacsLiteral>>)
    requires names != [] && AllClausesWithin(Kept(clauses), |names| - 1) && (strength > 0 ==> covered != [])
    modifies os
    ensures os.text == old(os.text) + ActsText(name, names, covered, strength, clauses)
  {
    hide AllClausesWithin, Parameters, RelationTexts, ClauseTexts, Kept, PrintSystemSection, PrintSection, PrintParameters,
         M.RelationPart, M.ConstraintPart;
    P.WriteHeader(os, name);
    WriteParameterSection(os, names);
    WriteRelationSection(os, covered, strength);
    WriteConstraintSection(os, clauses, names);
  }

  /** What a conversion has determined. */
  datatype Conversion = Conversion(numVars: nat, names: seq<string>, covered: seq<string>, strength: int, clauses: seq<seq<DimacsLiteral>>)

  /** When a conversion fails: for a bad problem line, without variables, and without a variable for a relation. */
  predicate CannotConvert(lines: seq<Line>, strength: int, keepAux: bool) {
    || HasBadProblem(lines) || VariableCount(lines) <= 0
    || (strength > 0 && RelationVars(VariableCount(lines), Comments(lines), keepAux) == [])
  }

  /** The clauses of the lines, a name for every variable, and the covered ones. */
  ghost predicate IsConversionOf(c: Conversion, lines: seq<Line>, strength: int, keepAux: bool) {
    && c.clauses == ClausesOf(Stream(lines)) && AllClausesWithin(c.clauses, c.numVars)
    && c.numVars == VariableCount(lines) && c.numVars > 0 && AreNames(c.names, c.numVars)
    && AreChosenNames(c.names, Comments(lines), c.numVars)
    && IsRelationOf(c, RelationVars(c.numVars, Comments(lines), keepAux), strength)
  }

  /** The conversion of a file's lines. When it fails, nothing has been written. */
  method Convert(os: P.Stream, name: string, lines: seq<Line>, strength: int, keepAux: bool) returns (r: Option<Conversion>)
    modifies os
    ensures r.None? <==> CannotConvert(lines, strength, keepAux)
    ensures r.None? ==> os.text == old(os.text)
    ensures r.Some? ==> IsConversionOf(r.value, lines, strength, keepAux)
    ensures r.Some? ==>
              && r.value.names != [] && AllClausesWithin(Kept(r.value.clauses), |r.value.names| - 1)
              && os.text == old(os.text) + ActsText(name, r.value.names, r.value.covered, r.value.strength, r.value.clauses)
  {
    hide HasBadProblem, ClausesOf, Stream, RelationVars, AreNames, ActsText, AllClausesWithin, IsLeastBound, LeastBound, Kept,
         Comments, AreChosenNames, NumbersWithin, IsLastProblem;
    var ok, numVars, numClauses, clauses, comments := ParseDimacs(lines);
    if !ok { return None; }
    ghost var low := match Header(lines) case Some(h) => h.0 case None => 0;
    OneLeastBound(clauses, low, numVars, VariableCount(lines));
    if numVars <= 0 { return None; }
    var names := CreateParamNames(numVars, comments);
    var vars := SelectRelationVars(numVars, comments, keepAux);
    if strength > 0 && vars == [] { return None; }
    var reduced := if strength > |vars| then |vars| else strength;
    NamesLength(names, numVars);
    ClausesAreWithin(Stream(lines), low, numVars);
    KeptWithin(clauses, numVars);
    var covered := VarNames(vars, names);
    WriteActs(os, name, names, covered, reduced, clauses);
    return Some(Conversion(numVars, names, covered, reduced, clauses));
  }

  /** The relation has the names of its variables, and a strength that is not more than their number. */
  predicate IsRelationOf(c: Conversion, vars: seq<nat>, strength: int) {
    && (forall k | 0 <= k < |vars| :: vars[k] < |c.names|) && c.covered == VarNames(vars, c.names)
    && (strength > 0 ==> vars != [])
    && c.strength == if strength > |vars| then |vars| else strength
  }

  lemma ClausesAreWithin(numbers: seq<int>, low: int, numVars: nat)
    requires IsLeastBound(ClausesOf(numbers), low, numVars)
    ensures AllClausesWithin(ClausesOf(numbers), numVars)
  {
    SplitHasNoZeros(numbers);
    var clauses := ClausesOf(numbers);
    forall k | 0 <= k < |clauses| ensures AllWithin(clauses[k], numVars) {
      assert clauses[k] == if k < |Split(numbers).0| then Split(numbers).0[k] else Split(numbers).1;
    }
  }

  lemma {:induction false} KeptWithin(clauses: seq<seq<DimacsLiteral>>, n: nat)
    requires AllClausesWithin(clauses, n)
    ensures AllClausesWithin(Kept(clauses), n)
  {
    hide AllWithin;
    if clauses != [] {
      var m := |clauses| - 1;
      KeptWithin(clauses[..m], n);
      assert AllWithin(clauses[m], n);
    }
  }

  lemma CoveredAreNames(c: Conversion, vars: seq<nat>, strength: int)
    requires IsRelationOf(c, vars, strength) && |c.names| == c.numVars + 1 && forall k | 0 <= k < |vars| :: 1 <= vars[k]
    ensures forall k | 0 <= k < |c.covered| :: c.covered[k] in c.names[1..]
    ensures c.strength > 0 ==> c.covered != []
  {
    forall k | 0 <= k < |c.covered| ensures c.covered[k] in c.names[1..] {
      assert c.covered[k] == c.names[1..][vars[k] - 1];
    }
  }

  /** What a conversion writes means what was read: an assignment fulfills the written model exactly when it satisfies
      every non-empty clause of the file's numbers. */
  lemma ConversionMeaning(name: string, lines: seq<Line>, strength: int, keepAux: bool, c: Conversion, xs: seq<int>)
    requires WellFormedName(name) && c.numVars > 0 && AreNames(c.names, c.numVars) && |c.names| == c.numVars + 1
    requires c.clauses == ClausesOf(Stream(lines)) && AllClausesWithin(Kept(c.clauses), c.numVars)
    requires IsRelationOf(c, RelationVars(c.numVars, Comments(lines), keepAux), strength) && c.strength <= INT_MAX
    requires IsAssignment(c.numVars, xs) && |xs| == c.numVars
    ensures var o := R.Parse(ActsText(name, c.names, c.covered, c.strength, c.clauses));
            && o.Match? && |o.value.parameters| == c.numVars
            && E.AllTyped(o.value.constraints, o.value.parameters)
            && (E.Fulfilled(o.value.constraints, o.value.parameters, xs) <==>
                AllClausesTrue(Kept(ClausesOf(Stream(lines))), xs))
  {
    hide WellFormedName, AreNames, IsAssignment, IsRelationOf, AllClausesWithin, R.Parse, ActsText, ClausesOf, Stream, Kept,
         E.AllTyped, E.Fulfilled, AllClausesTrue;
    CoveredAreNames(c, RelationVars(c.numVars, Comments(lines), keepAux), strength);
    FileMeaning(name, c.names, c.numVars, c.covered, c.strength, c.clauses, xs);
  }
}
