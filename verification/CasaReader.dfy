/** Reading CASA constraints: signs that may stand alone, numbers, and clauses over two lines each. */
module CasaReader {
  import opened Text
  import opened Casa

  // ---- std::stoi and words -----------------------------------------------------------------

  function DigitsEnd(s: string, i: nat): (j: nat)
    requires i <= |s|
    ensures i <= j <= |s| && AllDigits(s[i..j]) && (j < |s| ==> !IsDigit(s[j]))
    decreases |s| - i
  {
    if i < |s| && IsDigit(s[i]) then
      var j := DigitsEnd(s, i + 1);
      assert s[i..j] == [s[i]] + s[i + 1..j];
      j
    else i
  }

  /** std::stoi: an optional sign and the digits after it; what follows is ignored, no digits or a value out of range
      is an error. Words have no leading white space. */
  function Stoi(s: string): Option<int> {
    var b := if s != [] && (s[0] == '-' || s[0] == '+') then 1 else 0;
    var e := DigitsEnd(s, b);
    if e == b then None
    else
      var n: int := if s[0] == '-' then 0 - DigitsValue(s[b..e]) else DigitsValue(s[b..e]);
      if FitsInt(n) then Some(n) else None
  }

  lemma {:induction false} DigitsEndOfNumeral(t: string, i: nat)
    requires i <= |t| && forall k | i <= k < |t| :: IsDigit(t[k])
    ensures DigitsEnd(t, i) == |t|
    decreases |t| - i
  {
    if i < |t| { DigitsEndOfNumeral(t, i + 1); }
  }

  lemma StoiOfNumeral(n: nat)
    requires n <= INT_MAX
    ensures Stoi(NatToString(n)) == Some(n)
  {
    var t := NatToString(n);
    DigitsEndOfNumeral(t, 0);
    DigitsRoundTrip(n);
    assert t[0..|t|] == t;
  }

  /** Digits after an optional sign, up to the first other character: their value when it fits, negated after '-'. */
  lemma StoiReads(s: string, b: nat, digits: string, rest: string)
    requires s != [] && b == if s[0] == '-' || s[0] == '+' then 1 else 0
    requires s[b..] == digits + rest && digits != "" && AllDigits(digits) && (rest != "" ==> !IsDigit(rest[0]))
    ensures var n: int := if s[0] == '-' then 0 - DigitsValue(digits) else DigitsValue(digits);
            Stoi(s) == if FitsInt(n) then Some(n) else None
  {
    DigitsAt(s, b, digits, rest);
    hide AllDigits, DigitsValue, DigitsEnd, IsDigit, FitsInt;
  }

  lemma DigitsAt(s: string, b: nat, digits: string, rest: string)
    requires b <= |s| && s[b..] == digits + rest && digits != "" && AllDigits(digits) && (rest != "" ==> !IsDigit(rest[0]))
    ensures DigitsEnd(s, b) == b + |digits| <= |s| && s[b..b + |digits|] == digits
  {
    var e := b + |digits|;
    assert |s| == e + |rest|;
    forall k | b <= k < e ensures IsDigit(s[k]) { assert s[k] == s[b..][k - b] == digits[k - b]; }
    if e < |s| { assert s[e] == s[b..][|digits|] == rest[0]; }
    assert s[b..e] == s[b..][..|digits|];
    EndOfDigits(s, b, e);
    hide DigitsEnd;
  }

  lemma {:induction false} EndOfDigits(s: string, i: nat, e: nat)
    requires i <= e <= |s| && (forall k | i <= k < e :: IsDigit(s[k])) && (e < |s| ==> !IsDigit(s[e]))
    ensures DigitsEnd(s, i) == e
    decreases e - i
  {
    if i < e { EndOfDigits(s, i + 1, e); }
  }

  // ---- Literals ------------------------------------------------------------------------------

  /** The literals of a line's words. A sign that stands alone is pending until the next number without a sign. */
  function ReadLiterals(words: seq<string>, pendingNegative: bool): Option<seq<CasaLiteral>>
    requires forall k | 0 <= k < |words| :: words[k] != []
  {
    if words == [] then Some([])
    else
      var w := words[0];
      if w == "-" then ReadLiterals(words[1..], true)
      else if w == "+" then ReadLiterals(words[1..], false)
      else
        var signed := w[0] == '-' || w[0] == '+';
        match Stoi(if signed then w[1..] else w)
        case None => None
        case Some(n) =>
          match ReadLiterals(words[1..], false)
          case None => None
          case Some(rest) => Some([CasaLiteral(n, if signed then w[0] == '-' else pendingNegative)] + rest)
  }

  function Prepended(literals: seq<CasaLiteral>, rest: Option<seq<CasaLiteral>>): Option<seq<CasaLiteral>> {
    match rest
    case None => None
    case Some(ls) => Some(literals + ls)
  }

  method ParseLiterals(words: seq<string>) returns (r: Option<seq<CasaLiteral>>)
    requires forall k | 0 <= k < |words| :: words[k] != []
    ensures r == ReadLiterals(words, false)
  {
    hide Stoi;
    var literals: seq<CasaLiteral> := [];
    var pendingNegative := false;
    assert words[0..] == words;
    assert forall rest :: Prepended([], rest) == rest by { NothingPrepended(); }
    for i := 0 to |words|
      invariant ReadLiterals(words, false) == Prepended(literals, ReadLiterals(words[i..], pendingNegative))
    {
      var w := words[i];
      assert words[i..][0] == w && words[i..][1..] == words[i + 1..];
      ghost var rest := ReadLiterals(words[i + 1..], false);
      if w == "-" {
        pendingNegative := true;
      } else if w == "+" {
        pendingNegative := false;
      } else {
        var signed := w[0] == '-' || w[0] == '+';
        var n := Stoi(if signed then w[1..] else w);
        if n.None? { return None; }
        var literal := CasaLiteral(n.value, if signed then w[0] == '-' else pendingNegative);
        PrependedOne(literals, literal, rest);
        literals := literals + [literal];
        pendingNegative := false;
      }
    }
    assert literals + [] == literals;
    return Some(literals);
  }

  lemma NothingPrepended()
    ensures forall rest :: Prepended([], rest) == rest
  {
    forall rest ensures Prepended([], rest) == rest {
      if rest.Some? { assert [] + rest.value == rest.value; }
    }
  }

  lemma PrependedOne(literals: seq<CasaLiteral>, l: CasaLiteral, rest: Option<seq<CasaLiteral>>)
    ensures Prepended(literals + [l], rest) == Prepended(literals, Prepended([l], rest))
  {
    if rest.Some? { assert literals + ([l] + rest.value) == literals + [l] + rest.value; }
  }

  /** How a literal may be written: the sign before the number, the sign as a word of its own, or no sign. */
  datatype Style = Attached | Detached | Unsigned

  function Written(l: CasaLiteral, style: Style): (words: seq<string>)
    requires 0 <= l.variable <= INT_MAX
    ensures forall k | 0 <= k < |words| :: words[k] != []
  {
    var sign, number := if l.negative then "-" else "+", NatToString(l.variable);
    match style
    case Attached => [sign + number]
    case Detached => [sign, number]
    case Unsigned => if l.negative then [sign, number] else [number]
  }

  function AllWritten(ls: seq<CasaLiteral>, styles: seq<Style>): (words: seq<string>)
    requires |styles| == |ls| && forall k | 0 <= k < |ls| :: 0 <= ls[k].variable <= INT_MAX
    ensures forall k | 0 <= k < |words| :: words[k] != []
  {
    if ls == [] then [] else Written(ls[0], styles[0]) + AllWritten(ls[1..], styles[1..])
  }

  lemma NumberWord(n: nat)
    requires n <= INT_MAX
    ensures var w := NatToString(n); w[0] != '-' && w[0] != '+' && w != "-" && w != "+" && Stoi(w) == Some(n)
  {
    StoiOfNumeral(n);
  }

  lemma SignedWord(n: nat, sign: string)
    requires n <= INT_MAX && (sign == "-" || sign == "+")
    ensures var w := sign + NatToString(n); w[0] == sign[0] && w[1..] == NatToString(n) && w != "-" && w != "+"
  {}

  lemma OneWritten(l: CasaLiteral, style: Style, rest: seq<string>)
    requires 0 <= l.variable <= INT_MAX && forall k | 0 <= k < |rest| :: rest[k] != []
    ensures ReadLiterals(Written(l, style) + rest, false) == Prepended([l], ReadLiterals(rest, false))
  {
    var sign, number := if l.negative then "-" else "+", NatToString(l.variable);
    NumberWord(l.variable);
    SignedWord(l.variable, sign);
    hide NatToString, Stoi;
    NumberThen(number, l.variable, l.negative, rest);
    NumberThen(number, l.variable, false, rest);
    match style {
      case Attached =>
        assert ([sign + number] + rest)[1..] == rest;
      case Detached => SignThen(sign, number, rest);
      case Unsigned => if l.negative { SignThen(sign, number, rest); }
    }
  }

  lemma NumberThen(number: string, n: int, pending: bool, rest: seq<string>)
    requires number != [] && number != "-" && number != "+" && number[0] != '-' && number[0] != '+' && Stoi(number) == Some(n)
    requires forall k | 0 <= k < |rest| :: rest[k] != []
    ensures ReadLiterals([number] + rest, pending) == Prepended([CasaLiteral(n, pending)], ReadLiterals(rest, false))
  {
    hide Stoi;
    assert ([number] + rest)[1..] == rest;
  }

  lemma SignThen(sign: string, number: string, rest: seq<string>)
    requires (sign == "-" || sign == "+") && number != [] && forall k | 0 <= k < |rest| :: rest[k] != []
    ensures ReadLiterals([sign, number] + rest, false) == ReadLiterals([number] + rest, sign == "-")
  {
    hide ReadLiterals;
    var words := [sign, number] + rest;
    assert words[1..] == [number] + rest;
    if sign == "-" { MinusThen(words, false); } else { PlusThen(words, false); }
  }

  lemma MinusThen(words: seq<string>, pending: bool)
    requires words != [] && words[0] == "-" && forall k | 0 <= k < |words| :: words[k] != []
    ensures ReadLiterals(words, pending) == ReadLiterals(words[1..], true)
  {
    hide Stoi;
  }

  lemma PlusThen(words: seq<string>, pending: bool)
    requires words != [] && words[0] == "+" && forall k | 0 <= k < |words| :: words[k] != []
    ensures ReadLiterals(words, pending) == ReadLiterals(words[1..], false)
  {
    hide Stoi;
    assert words[0][0] != '-';
  }

  /** However each literal is written, exactly the literals are read: a sign never carries over to another literal. */
  lemma {:induction false} LiteralsRoundTrip(ls: seq<CasaLiteral>, styles: seq<Style>)
    requires |styles| == |ls| && forall k | 0 <= k < |ls| :: 0 <= ls[k].variable <= INT_MAX
    ensures ReadLiterals(AllWritten(ls, styles), false) == Some(ls)
  {
    hide Written;
    if ls != [] {
      LiteralsRoundTrip(ls[1..], styles[1..]);
      OneWritten(ls[0], styles[0], AllWritten(ls[1..], styles[1..]));
      assert [ls[0]] + ls[1..] == ls;
    }
  }

  // ---- Lines -------------------------------------------------------------------------------------

  function WordEnd(s: string, i: nat): (j: nat)
    requires i <= |s|
    ensures i <= j <= |s| && (i < |s| && !IsTrimmable(s[i]) ==> i < j)
    decreases |s| - i
  {
    if i < |s| && !IsTrimmable(s[i]) then WordEnd(s, i + 1) else i
  }

  /** The words that `ss >> token` yields from position `i` on. */
  function Words(s: string, i: nat): (words: seq<string>)
    requires i <= |s|
    ensures forall k | 0 <= k < |words| :: words[k] != []
    decreases |s| - i
  {
    if i == |s| then []
    else if IsTrimmable(s[i]) then Words(s, i + 1)
    else [s[i..WordEnd(s, i)]] + Words(s, WordEnd(s, i))
  }

  /** Words with a blank after each. */
  function Spaced(words: seq<string>): string {
    if words == [] then "" else words[0] + " " + Spaced(words[1..])
  }

  predicate IsWord(w: string) { w != "" && forall k | 0 <= k < |w| :: !IsTrimmable(w[k]) }

  lemma {:induction false} WordEndAt(s: string, i: nat, j: nat)
    requires i <= j < |s| && IsTrimmable(s[j]) && forall k | i <= k < j :: !IsTrimmable(s[k])
    ensures WordEnd(s, i) == j
    decreases j - i
  {
    if i < j { WordEndAt(s, i + 1, j); }
  }

  lemma {:induction false} WordsRoundTrip(s: string, i: nat, words: seq<string>)
    requires i <= |s| && s[i..] == Spaced(words) && forall k | 0 <= k < |words| :: IsWord(words[k])
    ensures Words(s, i) == words
    decreases |words|
  {
    if words == [] {
    } else {
      var w, rest := words[0], Spaced(words[1..]);
      var j := i + |w|;
      assert s[i..] == w + " " + rest;
      forall k | 0 <= k < |w| ensures s[i + k] == w[k] { assert s[i..][k] == (w + " " + rest)[k]; }
      assert s[j] == s[i..][|w|] == ' ';
      WordEndAt(s, i, j);
      assert s[i..j] == w;
      assert s[j + 1..] == s[i..][|w| + 1..] == rest;
      WordsRoundTrip(s, j + 1, words[1..]);
      assert [w] + words[1..] == words;
    }
  }

  /** Clauses after the header: for each one a line with its number of literals and a line with the literals. The
      numbers of literals are only compared for a warning. */
  function ReadClauses(lines: seq<string>, count: int): Option<seq<seq<CasaLiteral>>> {
    if count <= 0 then Some([])
    else if |lines| < 2 || Stoi(lines[0]).None? then None
    else
      match ReadLiterals(Words(lines[1], 0), false)
      case None => None
      case Some(literals) =>
        match ReadClauses(lines[2..], count - 1)
        case None => None
        case Some(rest) => Some([literals] + rest)
  }

  /** The constraints of a file, given its lines without comments and blank ones. A file without a line has none. */
  function ReadConstraints(lines: seq<string>): Option<seq<seq<CasaLiteral>>> {
    if lines == [] then Some([])
    else
      match Stoi(lines[0])
      case None => None
      case Some(count) => ReadClauses(lines[1..], count)
  }

  function PrependedClauses(clauses: seq<seq<CasaLiteral>>, rest: Option<seq<seq<CasaLiteral>>>)
    : Option<seq<seq<CasaLiteral>>>
  {
    match rest
    case None => None
    case Some(cs) => Some(clauses + cs)
  }

  method ReadCasaConstraints(lines: seq<string>) returns (r: Option<seq<seq<CasaLiteral>>>)
    ensures r == ReadConstraints(lines)
  {
    hide Stoi, Words, ReadLiterals;
    if lines == [] { return Some([]); }
    var header := Stoi(lines[0]);
    if header.None? { return None; }
    var clauses: seq<seq<CasaLiteral>> := [];
    var next, c := 1, 0;
    ghost var all := ReadClauses(lines[1..], header.value);
    assert all == PrependedClauses([], all) by { NoClausePrepended(all); }
    while c < header.value
      invariant 0 <= c && (c > 0 ==> c <= header.value) && 1 <= next <= |lines|
      invariant all == PrependedClauses(clauses, ReadClauses(lines[next..], header.value - c))
      decreases header.value - c
    {
      if next == |lines| || Stoi(lines[next]).None? || next + 1 == |lines| { return None; }
      var literals := ParseLiterals(Words(lines[next + 1], 0));
      assert lines[next..][0] == lines[next] && lines[next..][1] == lines[next + 1] && lines[next..][2..] == lines[next + 2..];
      if literals.None? { return None; }
      OneMoreClause(clauses, literals.value, ReadClauses(lines[next + 2..], header.value - c - 1));
      clauses := clauses + [literals.value];
      next := next + 2;
      c := c + 1;
    }
    assert clauses + [] == clauses;
    return Some(clauses);
  }

  lemma NoClausePrepended(rest: Option<seq<seq<CasaLiteral>>>)
    ensures PrependedClauses([], rest) == rest
  {
    if rest.Some? { assert [] + rest.value == rest.value; }
  }

  lemma OneMoreClause(clauses: seq<seq<CasaLiteral>>, c: seq<CasaLiteral>, rest: Option<seq<seq<CasaLiteral>>>)
    ensures PrependedClauses(clauses + [c], rest) == PrependedClauses(clauses, PrependedClauses([c], rest))
  {
    if rest.Some? { assert clauses + ([c] + rest.value) == clauses + [c] + rest.value; }
  }

  /** The lines that stand for clauses: the number of literals, and the literals in some style. */
  function ClauseLines(clauses: seq<seq<CasaLiteral>>, styles: seq<seq<Style>>): seq<string>
    requires Writable(clauses, styles)
  {
    if clauses == [] then []
    else [NatToString(|clauses[0]|), Spaced(AllWritten(clauses[0], styles[0]))] + ClauseLines(clauses[1..], styles[1..])
  }

  predicate Writable(clauses: seq<seq<CasaLiteral>>, styles: seq<seq<Style>>) {
    && |styles| == |clauses|
    && forall k | 0 <= k < |clauses| ::
         clauses[k] != [] && |styles[k]| == |clauses[k]| <= INT_MAX && forall j | 0 <= j < |clauses[k]| :: 0 <= clauses[k][j].variable <= INT_MAX
  }

  lemma NumeralIsWord(n: nat)
    ensures IsWord(NatToString(n))
  {}

  lemma {:induction false} WrittenAreWords(ls: seq<CasaLiteral>, styles: seq<Style>)
    requires |styles| == |ls| && forall k | 0 <= k < |ls| :: 0 <= ls[k].variable <= INT_MAX
    ensures forall k | 0 <= k < |AllWritten(ls, styles)| :: IsWord(AllWritten(ls, styles)[k])
  {
    if ls != [] {
      WrittenAreWords(ls[1..], styles[1..]);
      NumeralIsWord(ls[0].variable);
      hide NatToString, AllWritten;
      forall k | 0 <= k < |Written(ls[0], styles[0])| ensures IsWord(Written(ls[0], styles[0])[k]) {}
    }
  }

  /** The constraints section of a CASA file is read back, whatever the styles of its literals. */
  lemma {:induction false} ClausesRoundTrip(clauses: seq<seq<CasaLiteral>>, styles: seq<seq<Style>>)
    requires Writable(clauses, styles)
    ensures ReadClauses(ClauseLines(clauses, styles), |clauses|) == Some(clauses)
  {
    hide Stoi, Words, ReadLiterals, AllWritten, Spaced, NatToString, IsWord;
    if clauses != [] {
      var lines := ClauseLines(clauses, styles);
      ClausesRoundTrip(clauses[1..], styles[1..]);
      StoiOfNumeral(|clauses[0]|);
      WrittenAreWords(clauses[0], styles[0]);
      var line := Spaced(AllWritten(clauses[0], styles[0]));
      assert line[0..] == line;
      WordsRoundTrip(line, 0, AllWritten(clauses[0], styles[0]));
      LiteralsRoundTrip(clauses[0], styles[0]);
      assert lines[2..] == ClauseLines(clauses[1..], styles[1..]);
      assert [clauses[0]] + clauses[1..] == clauses;
    }
  }

  lemma ConstraintsRoundTrip(clauses: seq<seq<CasaLiteral>>, styles: seq<seq<Style>>)
    requires Writable(clauses, styles) && |clauses| <= INT_MAX
    ensures ReadConstraints([NatToString(|clauses|)] + ClauseLines(clauses, styles)) == Some(clauses)
  {
    hide Stoi, ClauseLines, ReadClauses;
    ClausesRoundTrip(clauses, styles);
    StoiOfNumeral(|clauses|);
    var lines := [NatToString(|clauses|)] + ClauseLines(clauses, styles);
    assert lines[1..] == ClauseLines(clauses, styles);
  }
}
