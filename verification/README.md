# Models and proofs for citcpp

A Dafny 4.11 project beside the combinatorial testing tool citcpp. It models the ACTS text format with its parser and
printer, the evaluator of constraints, the two converters that write the format, and the protocols of the Lace runtime
that citcpp runs on, and proves what they keep. `dafny verify dfyconfig.toml` checks everything.

## How it is built

A text is a sequence of bytes, written as characters below 256; the statements about texts cover every byte string,
valid UTF-8 or not.

* `Text`, `Acts`: character classes, code points and numerals; models, how they are printed, and which are well-formed.
* `Rules`: what each rule of the parser recognises and yields at a position, as functions: a match, no match, or a
  semantic error that stops the parsing. Everything else about parsing is stated against these functions.
* `Parser`: the parser as the original runs it, a class with the cursor, the model under construction, the index of
  names and the report of the farthest failure. Every method is proved to agree with its rule. A ghost log of all failed
  matches specifies the report.
* `Grammar`, `GrammarProof`, `GrammarEnds`, `GrammarReadings`: the PEG of the parser's header comment as data, the standard
  meaning of PEGs, and the proofs that every evaluation ends and that the rules recognise exactly what it describes.
* `RoundTrip`, `ModelRoundTrip`, `Image`, `GivenBack`, `Printer`, `Reformat`: printing is undone by parsing; what the parser
  can yield, and exactly which models survive; the stream operators as loops; both programs together.
* `Comparisons`, `Precedence`, `DoubleEquals`: what texts mean that no printer has written: each operator with each kind of
  value, constraints without parentheses, the semantic errors, and a text that is rejected.
* `Evaluator`, `Answers`: the meaning of constraints over tests, and their compilation into nodes and tables; what a compiled
  model answers, operator by operator.
* `Clauses`, `Casa`, `CasaReader`, `Dimacs`, `Conversions`: the converters, from the tokens they read to the meaning of the
  model that is parsed from what they write.
* `Barrier`, `Frame`, `FrameProgress`, `Mailbox`, `MailboxProgress`: protocols as state machines; a theorem about them holds after every finite
  schedule of atomic steps, and progress under every fair one. `Scratch`, `HeadSearch`: the sequential parts of the runtime.

## What the proofs found

* The example in README.md:140-155 uses `==`; neither the grammar beside it nor the parser knows that operator, and the
  example is rejected (`DoubleEquals.ExampleIsRejected`).
* The header comment writes the end of input as `!.`, "no code point follows". The parser tests for the end of the
  input, which differs in front of an incomplete code point (`GrammarReadings.RulesAgreeExactly`, `GrammarReadings.CommentsDiffer`). What is
  accepted as a whole does not differ (`GrammarReadings.SameInputs`). The rows of `GrammarProof` are about the grammar with
  the parser's test.
* Trimming can empty an enum value or cut a code point, so what the parser accepts is not always read back from its printed
  form (`GivenBack.VerticalTabIsLost`, `GivenBack.CutCodepoint`). `GivenBack.NormalisesExactly` says when it is. What is read
  is well-formed exactly when it is trimmed well (`Image.TextTrims`, `Image.ParsedIsWellFormed`). `Image.Clean` is a
  sufficient condition on the bytes of a text, which every ASCII text and every valid UTF-8 text without vertical tabs and
  form feeds meets.
* Well-formed is not necessary to be read back: the line breaks after the name and after the last value stand in for one
  or two bytes that trimming has cut (`GivenBack.RoundTripExactly`). Expressions with fewer than two operands and literals are
  never given back.
* A publisher of a Lace frame takes every failure of its weak compare-exchange for a loss. If it fails spuriously while
  nothing is published, the publisher copies from null unless another worker publishes before the copy
  (`Frame.HarmlessExactly`, `Frame.LuckyFailure`). A worker that has done so stands still in the model.
* A scratch allocation of 2^64 - 15 bytes or more is rounded to 0 bytes and succeeds (`Scratch.RoundingFits`).

## Model

| member | source | states |
|---|---|---|
| `ModelRoundTrip.ParsePrint` | citcpp_lib/src/model.cpp:71-98 | Whole-model round trip: for every well-formed model, parsing its printed text into an empty model matches the whole text and gives back the same model |
| `GivenBack.RoundTripExactly` | citcpp_lib/src/model.cpp:71-98 | The round trip, exactly and for every model: printing a model and parsing the text gives it back if and only if its constraints and relations are well-formed, its name lacks at most one byte of its last code point, and no enum value lacks any, but the last value of the last parameter one byte, or two when nothing follows the parameters |
| `GivenBack.NormalisesExactly` | citcpp_lib/src/acts_model_parser.cpp:313-324 | Parsing, printing and parsing again, exactly: for every accepted text it gives what the first parsing gave if and only if the name and the values lack no more than that |
| `GivenBack.VerticalTabIsLost` | citcpp_lib/src/acts_model_parser.cpp:313-324 | An accepted text whose model is not given back: a vertical tab alone is a value that is trimmed to nothing |
| `GivenBack.CutCodepoint` | citcpp_lib/src/acts_model_parser.cpp:313-324 | An accepted text whose value is a code point that trimming cuts, for every first byte of a longer code point: the model is given back if and only if that byte announces less than four bytes; it is never well-formed |
| `GivenBack.OneValueParses` | citcpp_lib/src/acts_model_parser.cpp:313-324 | Every text of code points that is not empty, starts with no comma, semicolon or white space and has no comma, semicolon or break is accepted as an enum value, in a whole document |
| `Image.ParsedIsWellFormed` | citcpp_lib/src/acts_model_parser.cpp:141-157 | Parser image, exactly: the model read from an accepted text has declared references only, ordering operators on integers only, at least two operands of conjunctions and disjunctions, numbers in constraints and strengths in range; and it is well-formed if and only if in every enum value some byte is not trimmable and the trailing trimmable bytes start at a code point's boundary, and in the name the latter |
| `Image.Normalisation` | citcpp_lib/src/acts_model_parser.cpp:141-157 | Parsing, printing and parsing again gives what the first parsing gave, for every accepted text that is trimmed like that |
| `Image.CleanTrims` | citcpp_lib/src/acts_model_parser.cpp:313-324 | Texts without vertical tabs and form feeds, and without bytes below 128 inside of longer code points, are trimmed like that: all valid UTF-8 texts without those two characters |
| `Image.AsciiIsClean` | citcpp_lib/src/acts_model_parser.cpp:110-111 | ASCII texts without vertical tabs and form feeds are among them |
| `Image.SingleOperandCollapses` | citcpp_lib/src/constraints.cpp:147-170 | An expression with one operand prints to a text that is read as the operand |
| `Comparisons.ComparisonDocument` | citcpp_lib/src/acts_model_parser.cpp:532-628 | Operators and values in a whole document: whatever the lines before are, when the last line compares a declared name with a boolean in any case of its letters, a quoted text or a numeral, with any blanks between, its proposition with exactly this operator is the last constraint of the model; but a boolean or a quoted text with `<`, `<=`, `>` or `>=` ends the parsing with an error at this line |
| `Comparisons.BooleanComparison` | citcpp_lib/src/acts_model_parser.cpp:541-560 | At every position: a declared name, an operator and a boolean are a proposition with this operator for `=` and `!=`, and the error of an unordered value for the other four |
| `Comparisons.QuotedComparison` | citcpp_lib/src/acts_model_parser.cpp:541-569 | The same for every quoted text that the rules accept |
| `Comparisons.IntegerComparison` | citcpp_lib/src/acts_model_parser.cpp:541-569 | Integers are compared by all six operators, with the value of the numeral, and one out of range is an error |
| `Comparisons.PropositionAborts` | citcpp_lib/src/acts_model_parser.cpp:532-569 | A proposition stops the parser with an error if and only if it has this error: an undeclared name, an order of values without one, or a number out of range |
| `Comparisons.DocumentAborts` | citcpp_lib/src/acts_model_parser.cpp:141-154 | A document with correct sections, relations and constraints, and then a constraint that starts with an error after any number of parentheses: parsing it ends with this error, whatever follows |
| `Comparisons.ErrorsAreExplained` | citcpp_lib/src/acts_model_parser.cpp:115-137 | For every text: when the parser stops with a semantic error, the text has this error at the reported position, and unordered values are reported for the four ordering operators only |
| `Comparisons.ParsedOperators` | citcpp_lib/src/acts_model_parser.cpp:614-628 | In every parsed model booleans and enums are compared by `=` and `!=` only, however deep |
| `Comparisons.BooleanElementRead` | citcpp_lib/src/acts_model_parser.cpp:301-311 | A boolean value of a parameter is recognised exactly where `true` or `false` stands in any case of its letters, and it is that boolean |
| `Comparisons.IntegerElementRead` | citcpp_lib/src/acts_model_parser.cpp:326-334 | An integer value of a parameter is the value of its numeral, with either sign or none |
| `Precedence.DisjunctionReads` | citcpp_lib/src/acts_model_parser.cpp:482-509 | Without parentheses a conjunction binds tighter than a disjunction: any groups of constraints, joined by the two symbols, are read as the disjunction of the conjunctions, with single ones left alone |
| `Precedence.ImplicationReads` | citcpp_lib/src/acts_model_parser.cpp:442-460 | A disjunction binds tighter than an implication, and the left side of the arrow implies the right one |
| `DoubleEquals.PropositionRejected` | citcpp_lib/src/acts_model_parser.cpp:532-589 | `==` is no operator: where it follows a declared name no proposition is recognised |
| `DoubleEquals.ImplicationRejected` | citcpp_lib/src/acts_model_parser.cpp:442-525 | Nor is a constraint that starts with such a comparison, after any number of opening parentheses |
| `DoubleEquals.DocumentRejected` | citcpp_lib/src/acts_model_parser.cpp:141-154 | A document with correct sections, relations and constraints and then such a constraint is rejected, whatever follows |
| `DoubleEquals.ExampleIsRejected` | README.md:140-155 | The example of README.md, line by line, is rejected |
| `RoundTrip.ConstraintRoundTrip` | citcpp_lib/src/acts_model_parser.cpp:442-525 | Print/parse inverse in context: for every well-formed constraint and every text after it that cannot extend it, the implication rule reads exactly the constraint and stops where the printed text ends |
| `RoundTrip.OperandRoundTrip` | citcpp_lib/src/constraints.cpp:108-173 | Every printed constraint is read as one operand, whatever follows but a digit: nesting of implications, disjunctions and conjunctions survives through the parentheses |
| `RoundTrip.NaryRoundTrip` | citcpp_lib/src/constraints.cpp:147-170 | The operands between the parentheses are read as an expression with the same operator and operands |
| `RoundTrip.ImplicationRoundTrip` | citcpp_lib/src/constraints.cpp:142-145 | The two sides between the parentheses are read as an implication of the same constraints |
| `RoundTrip.PropositionSpan` | citcpp_lib/src/constraints.cpp:120-140 | A printed proposition is read as the same proposition, value type included |
| `ModelRoundTrip.DocumentParses` | citcpp_lib/src/acts_model_parser.cpp:141-154 | Every document laid out as system, parameter, optional relation and optional constraint sections is parsed into exactly its content, appended to what the model held before |
| `ModelRoundTrip.ParameterSpan` | citcpp_lib/src/parameter.cpp:92-115 | A printed parameter line is read as the same parameter by the alternative of its type, the other two do not match |
| `ModelRoundTrip.RelationSpan` | citcpp_lib/src/relation.cpp:38-49 | A printed relation line is read as the same relation, strength and order of parameters included |
| `ModelRoundTrip.PrintedReadsAs` | citcpp_lib/src/constraints.cpp:184-188 | A printed well-formed constraint alone on a line is read as that constraint |
| `GrammarReadings.GrammarDecides` | citcpp_lib/src/acts_model_parser.cpp:22-112 | Grammar refinement: unless a semantic error stops it, the parser accepts an input exactly when the PEG of the header comment, verbatim and under ordered choice and greedy repetition, matches all of it; and for every input the PEG's evaluation ends |
| `GrammarReadings.RulesAgreeExactly` | citcpp_lib/src/acts_model_parser.cpp:99 | The comment's `!.` and the parser's end of input: rule by rule the grammar with the one and with the other agree on all code points of a text if and only if the text is decodable to its end |
| `GrammarReadings.SameInputs` | citcpp_lib/src/acts_model_parser.cpp:755-761 | Even where they differ, both match the whole of the same texts |
| `GrammarReadings.CommentsDiffer` | citcpp_lib/src/acts_model_parser.cpp:704-720 | Where they differ: a comment that ends at bytes of no complete code point is one for the comment's grammar and none for the parser |
| `GrammarReadings.LineEndsDiffer` | citcpp_lib/src/acts_model_parser.cpp:755-761 | In front of such bytes the comment's LineEnd matches and the parser's does not |
| `GrammarEnds.GrammarEnds` | citcpp_lib/src/acts_model_parser.cpp:22-112 | No rule is left-recursive and nothing empty is repeated: every rule comes to an end at every position of every text |
| `GrammarProof.ParsedDecides` | citcpp_lib/src/acts_model_parser.cpp:115-154 | The grammar with the parser's end of input decides what the parser accepts |
| `GrammarProof.ParameterPeg` | citcpp_lib/src/acts_model_parser.cpp:34-42 | The parameter rule matches from and to the same positions as the ordered choice of BooleanParam, EnumParam and IntParam |
| `GrammarProof.ListPeg` | citcpp_lib/src/acts_model_parser.cpp:54-64 | Lists match up to the same position as the four list rules |
| `GrammarProof.RelationPeg` | citcpp_lib/src/acts_model_parser.cpp:66-74 | The relation rule matches from and to the same positions as RelationRule |
| `GrammarProof.ImplicationPeg` | citcpp_lib/src/acts_model_parser.cpp:80-82 | The implication rule matches from and to the same positions as Implication, through the mutual recursion over OrExpr, AndExpr and Operand |
| `GrammarProof.OperandsPeg` | citcpp_lib/src/acts_model_parser.cpp:81-82 | The rule for several operands matches from and to the same positions as OrExpr and AndExpr |
| `GrammarProof.OperandPeg` | citcpp_lib/src/acts_model_parser.cpp:83-84 | The operand rule matches from and to the same positions as Operand, a parenthesis that is not closed falls back to AtomicProp |
| `GrammarProof.AtomicPropPeg` | citcpp_lib/src/acts_model_parser.cpp:84-91 | Propositions match from and to the same positions as AtomicProp |
| `GrammarProof.CommentRule` | citcpp_lib/src/acts_model_parser.cpp:100 | Comments match from and to the same positions as LineComment |
| `GrammarProof.SpacingRule` | citcpp_lib/src/acts_model_parser.cpp:95 | The spacing skipped is that of `__` |
| `GrammarReadings.EndTestsAgree` | citcpp_lib/src/acts_model_parser.cpp:99 | `!.` and the end of the input differ exactly in front of bytes that start no complete code point |
| `Parser.ActsParser.ParseInputModel` | citcpp_lib/src/acts_model_parser.cpp:115-137 | Parsing succeeds exactly when the rules match the whole input, and then the model has grown by exactly what they yield; a semantic error is reported with its place, a syntax error with a non-empty list of expectations at a position within the input; the model only grows in any case |
| `Parser.ActsParser.ParseRoot` | citcpp_lib/src/acts_model_parser.cpp:141-154 | The sections in order, the last two optional; the rest of the input is an error |
| `Parser.ActsParser.ParseOptionalSections` | citcpp_lib/src/acts_model_parser.cpp:148-149 | An optional section that does not match resets the position and leaves the model as it was |
| `Parser.ActsParser.ParseSystemSection` | citcpp_lib/src/acts_model_parser.cpp:156-175 | Agrees with SystemSection; the name is set, trimmed, on a match only |
| `Parser.ActsParser.ParseParameterSection` | citcpp_lib/src/acts_model_parser.cpp:177-188 | Agrees with ParameterSection: on a match the model gains exactly the parameters in order, on a failure neither the model nor the index of names changes |
| `Parser.ActsParser.ParseParameterRule` | citcpp_lib/src/acts_model_parser.cpp:190-197 | Tries the three alternatives from the same position; a failure leaves the model and the index as they were |
| `Parser.ActsParser.ParseParameter` | citcpp_lib/src/acts_model_parser.cpp:199-251 | One alternative: on a match exactly its parameter is added and indexed, otherwise the model and the index stay |
| `Parser.ActsParser.Declare` | citcpp_lib/src/acts_model_parser.cpp:248-250 | The index keeps the first parameter of each name |
| `Parser.ActsParser.IndexParameters` | citcpp_lib/src/acts_model_parser.cpp:123-125 | The index of the parameters that the model holds before the parsing |
| `Parser.ActsParser.ParseParameterType` | citcpp_lib/src/acts_model_parser.cpp:253-277 | Agrees with the tag of the type |
| `Parser.ActsParser.ParseList` | citcpp_lib/src/acts_model_parser.cpp:279-299 | Agrees with Element (___ ',' ___ Element)* for the four kinds of elements |
| `Parser.ActsParser.ParseBooleanValue` | citcpp_lib/src/acts_model_parser.cpp:301-311 | Agrees with BooleanValue |
| `Parser.ActsParser.ParseEnumValue` | citcpp_lib/src/acts_model_parser.cpp:313-324 | Agrees with EnumValue, whose text is trimmed |
| `Parser.ActsParser.ParseIntegerValue` | citcpp_lib/src/acts_model_parser.cpp:326-334 | Agrees with IntegerValue; a value out of range throws |
| `Parser.ActsParser.ParseRelationParameter` | citcpp_lib/src/acts_model_parser.cpp:398-413 | A declared name refers to a parameter of that name, another name throws |
| `Parser.ActsParser.ParseRelationSection` | citcpp_lib/src/acts_model_parser.cpp:336-345 | Agrees with RelationSection; on a match the model gains exactly its relations in order |
| `Parser.ActsParser.ParseRelationRule` | citcpp_lib/src/acts_model_parser.cpp:347-396 | Agrees with RelationRule; nothing is added unless the whole line matches |
| `Parser.ActsParser.ParseConstraintSection` | citcpp_lib/src/acts_model_parser.cpp:415-424 | Agrees with ConstraintSection; on a match the model gains exactly its constraints in order |
| `Parser.ActsParser.ParseConstraintRule` | citcpp_lib/src/acts_model_parser.cpp:426-440 | Agrees with ConstraintRule; nothing is added unless the whole line matches |
| `Parser.ActsParser.ParseImplication` | citcpp_lib/src/acts_model_parser.cpp:442-460 | Agrees with Implication: a match leaves a constraint in the result, never the half-filled one of a failed attempt |
| `Parser.ActsParser.ParseOperands` | citcpp_lib/src/acts_model_parser.cpp:482-509 | Agrees with OrExpr and AndExpr: the first operand moves into the list with the second one, a single operand stays alone |
| `Parser.ActsParser.ParseOperand` | citcpp_lib/src/acts_model_parser.cpp:511-525 | Agrees with Operand: what a failed parenthesis has left in the result is replaced |
| `Parser.ActsParser.ParseAtomicProp` | citcpp_lib/src/acts_model_parser.cpp:532-569 | Agrees with AtomicProp, with undeclared names and ordering operators on unordered values as errors |
| `Parser.ActsParser.ParseRelationalOperator` | citcpp_lib/src/acts_model_parser.cpp:571-589 | Agrees with RelOp, longer operators before their prefixes |
| `Parser.ActsParser.ParseConstrEnumValue` | citcpp_lib/src/acts_model_parser.cpp:591-612 | Agrees with ConstrEnumValue, whose text is not trimmed; a failure resets the position |
| `Parser.ActsParser.CheckUnordered` | citcpp_lib/src/acts_model_parser.cpp:614-628 | Throws for the four ordering operators only, with the place where the proposition starts |
| `Parser.ActsParser.ParseSectionHeader` | citcpp_lib/src/acts_model_parser.cpp:630-649 | Agrees with the header of the section |
| `Parser.ActsParser.ParseIdentifier` | citcpp_lib/src/acts_model_parser.cpp:651-663 | Agrees with Identifier; a failure logs that an identifier was expected here |
| `Parser.ActsParser.ParseInteger` | citcpp_lib/src/acts_model_parser.cpp:665-681 | Agrees with an optional sign and digits; a failure resets the position and logs that an integer was expected after the sign, a value out of range throws |
| `Parser.ActsParser.SkipSpacing` | citcpp_lib/src/acts_model_parser.cpp:692-702 | Skips exactly white space and comments |
| `Parser.ActsParser.SkipLineComment` | citcpp_lib/src/acts_model_parser.cpp:704-720 | Skips a comment up to the end of its line; one that ends at an invalid code point is none |
| `Parser.ActsParser.TakeLineEnd` | citcpp_lib/src/acts_model_parser.cpp:755-761 | Agrees with LineEnd; a failure logs that the end of the line was expected here |
| `Parser.ActsParser.TakeLiteral` | citcpp_lib/src/acts_model_parser.cpp:777-783 | Matches exactly the literal and logs nothing, or stays and logs exactly that this literal was expected here |
| `Parser.ActsParser.TakeLiteralI` | citcpp_lib/src/acts_model_parser.cpp:785-792 | The same, ignoring the case of ASCII letters |
| `Parser.ActsParser.EqualsIgnoringCase` | citcpp_lib/src/parser_utils.hpp:39-49 | The loop decides equality up to the case of letters |
| `Parser.ActsParser.ExpectedAt` | citcpp_lib/src/acts_model_parser.cpp:811-827 | Keeps the report of the farthest failure: the greatest failing position and its distinct expectations in first-seen order, for failures that really are ones |
| `Parser.FarthestIsMaximum` | citcpp_lib/src/acts_model_parser.cpp:811-827 | The farthest position is the greatest one of a logged failure |
| `Parser.ExpectedExactly` | citcpp_lib/src/acts_model_parser.cpp:811-827 | The expectations reported for a position are exactly those of the failures logged there, each once |
| `Parser.FirstSeenFirst` | citcpp_lib/src/acts_model_parser.cpp:811-827 | Later failures only append to the expectations, so these are in first-seen order |
| `Parser.ReportIsNotEmpty` | citcpp_lib/src/acts_model_parser.cpp:829-844 | After any failure the report names an expectation |
| `Parser.ActsParser.Position` | citcpp_lib/src/acts_model_parser.cpp:854-872 | The loop computes the line and the column of a position; the line is one more than the ends of lines before |
| `Parser.LineCounts` | citcpp_lib/src/acts_model_parser.cpp:854-865 | The number of a line is one more than the number of ends of lines before |
| `Parser.ColumnCounts` | citcpp_lib/src/acts_model_parser.cpp:866-872 | A line starts with column 1, and the column grows by the code points between two positions of a line |
| `Parser.EolStartsLine` | citcpp_lib/src/acts_model_parser.cpp:739-753 | Lines end exactly where the Eol rule says, and what follows is the first column of the next line |
| `Parser.ActsParser.CountCodepointsOf` | citcpp_lib/src/parser_utils.cpp:9-16 | The loop counts code points, each byte that starts no complete one as one |
| `Rules.NextElement` | citcpp_lib/src/acts_model_parser.cpp:284-299 | Progress: another list element strictly advances the position, so lists end |
| `Rules.NextOperand` | citcpp_lib/src/acts_model_parser.cpp:494-503 | Progress: an operator and its operand strictly advance the position, so operand lists end |
| `Rules.Parenthesized` | citcpp_lib/src/acts_model_parser.cpp:511-522 | Progress: the recursion goes through a consumed parenthesis, so it ends |
| `Rules.ParameterRule` | citcpp_lib/src/acts_model_parser.cpp:190-197 | Progress: a matched parameter strictly advances the position |
| `Rules.RelationRule` | citcpp_lib/src/acts_model_parser.cpp:351-396 | Progress: a matched relation strictly advances the position |
| `Rules.ConstraintRule` | citcpp_lib/src/acts_model_parser.cpp:428-440 | Progress: a matched constraint strictly advances the position |
| `Text.TrimmedBetween` | citcpp_lib/src/parser_utils.cpp:28-35 | Trimming gives what lies between the first and the last character that is no white space |
| `Text.IntRoundTrip` | citcpp_lib/src/parser_utils.cpp:18-26 | Reading the numeral of an int gives the int back, the least one included |
| `Text.SignedNumerals` | citcpp_lib/src/parser_utils.cpp:18-26 | A plus sign before a numeral has no effect, a minus sign negates it, and exactly the values that do not fit are rejected |
| `Text.ClassMembers` | citcpp_lib/src/acts_model_parser.cpp:76-99 | The tests of characters accept exactly the ranges that the comments of the grammar spell |
| `Text.SameLetter` | citcpp_lib/src/parser_utils.hpp:39-49 | Characters are equal up to their case exactly when they are equal or the two forms of one ASCII letter |
| `Text.LeadingBits` | citcpp_lib/src/parser_utils.hpp:53-70 | The leading bits of the first byte tell the length of a code point, none is longer than what is left |
| `Text.SkipCovered` | citcpp_lib/src/acts_model_parser.cpp:763-775 | A text of complete code points without stop characters is skipped as a whole wherever it stands before a stop character or the end |
| `Printer.WriteModel` | citcpp_lib/src/model.cpp:71-98 | The loops of the stream operator append exactly the printed model |
| `Printer.WriteParameter` | citcpp_lib/src/parameter.cpp:92-115 | The loop with its changing separator appends exactly the printed parameter |
| `Printer.WriteRelation` | citcpp_lib/src/relation.cpp:38-49 | The loop appends exactly the printed relation |
| `Printer.WriteConstraint` | citcpp_lib/src/constraints.cpp:108-173 | The streaming visitor appends exactly the printed constraint, and `true` or `false` for a literal |
| `Printer.CreateCopy` | citcpp_lib/src/constraints.cpp:5-75 | The copy of a constraint tree is an equal tree |
| `Reformat.SaveAndLoad` | citcpp_lib/src/model.cpp:71-98 | The writing and the parsing program together, for every model: written and parsed into an empty model object it is loaded unchanged if and only if it is one that the format gives back |
| `Reformat.Rewrite` | citcpp_lib/src/acts_model_parser.cpp:115-137 | The parsing and the writing program together: what is written for an accepted text is parsed into the same model if and only if the texts of the model lack no more than the format gives back; for texts that are trimmed well they do not |
| `Conversions.ConvertDimacs` | contrib/dimacs_to_acts_converter/dimacs_to_acts_converter.cpp:260-334 | The DIMACS converter and the parser together: the conversion fails exactly for a bad problem line, without variables, or without a variable for a relation; otherwise what is written is parsed, and the model is fulfilled by exactly the assignments that satisfy every non-empty clause of the lines; it has as many parameters as the first number of the problem line says when no variable is greater, each under its chosen name with the values 0 and 1, and a relation of exactly the covered variables |
| `Conversions.ConvertCasa` | contrib/casa_to_acts_converter/casa_to_acts_converter.cpp:200-320 | The reader of CASA constraints, the converter and the parser together: unless the lines cannot be read or a literal is out of bounds, what is written is parsed into exactly the intended model, which is fulfilled by exactly the tests whose one-hot assignments make every non-empty clause true |
| `Evaluator.ConstraintEvaluator.Compile` | citcpp_lib/src/detail/constraint_evaluator.cpp:26-105 | Compilation fails exactly when a proposition meets a value of another type than it compares; otherwise the new nodes represent the constraint, and all earlier code stays |
| `Evaluator.ConstraintEvaluator.CompileAtom` | citcpp_lib/src/detail/constraint_evaluator.cpp:88-105 | The table of an atom tells for each value whether it satisfies the proposition; an undeclared parameter compiles to false |
| `Evaluator.ConstraintEvaluator.CompileModel` | citcpp_lib/src/detail/constraint_evaluator.cpp:141-154 | All constraints of the model are represented by the roots |
| `Evaluator.ConstraintEvaluator.Eval` | citcpp_lib/src/detail/constraint_evaluator.cpp:156-186 | Evaluating a node that represents a constraint gives the meaning of the constraint for the test, with short circuits |
| `Evaluator.ConstraintEvaluator.Fulfills` | citcpp_lib/src/detail/constraint_evaluator.cpp:188-195 | The compiled model accepts exactly the tests for which every constraint holds |
| `Evaluator.StillRepresents` | citcpp_lib/src/detail/constraint_evaluator.cpp:116-129 | Code that grows keeps representing what it represented |
| `Answers.AskInteger` | citcpp_lib/src/detail/constraint_evaluator.cpp:50-70 | Compiling and then evaluating `>=` and a number answers yes exactly when the assigned value is at least the number, and likewise for the other five operators; a parameter without a value, or without a declaration, answers no; compilation fails exactly for a value of another type |
| `Answers.AskOrder` | citcpp_lib/src/detail/constraint_evaluator.cpp:50-70 | The answers for the six operators fit together: `>=` and `<` exclude each other, `>=` with `<=` is `=`, and one of each opposite pair holds when there is a value |
| `Answers.AskBoolean` | citcpp_lib/src/detail/constraint_evaluator.cpp:30-38 | For booleans `=` asks for the compared value and every other operator for the opposite one |
| `Answers.AskEnum` | citcpp_lib/src/detail/constraint_evaluator.cpp:40-48 | For enums `=` asks for the compared text and every other operator for a different one |
| `Answers.AskImplication` | citcpp_lib/src/detail/constraint_evaluator.cpp:170-171 | The answer for an implication from those for its sides: the left one is no or the right one is yes |
| `Answers.AskNary` | citcpp_lib/src/detail/constraint_evaluator.cpp:172-186 | The answer for a conjunction is yes when all operands say yes, that for a disjunction when one does |
| `Answers.AskModel` | citcpp_lib/src/detail/constraint_evaluator.cpp:188-195 | A model is fulfilled exactly when each of its constraints alone is |
| `Clauses.ClauseReads` | contrib/casa_to_acts_converter/casa_to_acts_converter.cpp:188-198 | The text of a clause alone on a line is read as the disjunction of its literals, a single one as itself |
| `Casa.BuildVarMap` | contrib/casa_to_acts_converter/casa_to_acts_converter.cpp:258-264 | The nested loops list all pairs of a parameter and a value in order |
| `Casa.FlatOfPair` | contrib/casa_to_acts_converter/casa_to_acts_converter.cpp:258-264 | Every pair in range has a flat index that maps to it |
| `Casa.PairOfFlat` | contrib/casa_to_acts_converter/casa_to_acts_converter.cpp:258-264 | Every flat index is the one of the pair it maps to, so the map is a bijection |
| `Casa.OneHotIsEncoded` | contrib/casa_to_acts_converter/casa_to_acts_converter.cpp:258-264 | Every one-hot assignment of the flat variables is that of a test |
| `Casa.EncodeIsOneHot` | contrib/casa_to_acts_converter/casa_to_acts_converter.cpp:258-264 | A test gives a one-hot assignment of the flat variables |
| `Casa.FormattedLiteral` | contrib/casa_to_acts_converter/casa_to_acts_converter.cpp:175-186 | A literal in range is written as its proposition in parentheses |
| `Casa.FormatClause` | contrib/casa_to_acts_converter/casa_to_acts_converter.cpp:188-198 | The loop writes the clause's text, and fails exactly for a literal out of bounds |
| `Casa.ClauseMeaning` | contrib/casa_to_acts_converter/casa_to_acts_converter.cpp:188-198 | The constraint read from a written clause holds for a test exactly when the clause is true for the test's one-hot assignment |
| `Casa.TestDecides` | contrib/casa_to_acts_converter/casa_to_acts_converter.cpp:175-186 | What the one-hot reading of a clause says about a test: a positive literal asks for the value it stands for, a negative one for another value |
| `Casa.WriteActs` | contrib/casa_to_acts_converter/casa_to_acts_converter.cpp:278-316 | Writes the whole file, and fails exactly when a literal is out of bounds |
| `Casa.FileParses` | contrib/casa_to_acts_converter/casa_to_acts_converter.cpp:278-316 | The written file parses into the parameters, the relation and one constraint for each non-empty clause |
| `Casa.FileMeaning` | contrib/casa_to_acts_converter/casa_to_acts_converter.cpp:278-316 | A test fulfills the model read from the written file exactly when its one-hot assignment makes every non-empty clause true |
| `CasaReader.ParseLiterals` | contrib/casa_to_acts_converter/casa_to_acts_converter.cpp:128-164 | The loop with its pending sign reads the literals of a line |
| `CasaReader.LiteralsRoundTrip` | contrib/casa_to_acts_converter/casa_to_acts_converter.cpp:133-164 | However the sign of each literal is written, attached, detached or missing, exactly the literals are read: no sign carries over to another literal |
| `CasaReader.ReadCasaConstraints` | contrib/casa_to_acts_converter/casa_to_acts_converter.cpp:100-173 | The loop reads the clauses of the file, or fails for a missing line or a bad number |
| `CasaReader.ConstraintsRoundTrip` | contrib/casa_to_acts_converter/casa_to_acts_converter.cpp:100-173 | A constraints file with non-empty clauses is read back as its clauses |
| `CasaReader.WordsRoundTrip` | contrib/casa_to_acts_converter/casa_to_acts_converter.cpp:128-133 | Splitting a line of words gives the words |
| `CasaReader.StoiReads` | contrib/casa_to_acts_converter/casa_to_acts_converter.cpp:137-158 | Numbers are digits after an optional sign up to the first other character, negated after a minus sign, and rejected exactly when they do not fit |
| `Dimacs.ParseDimacs` | contrib/dimacs_to_acts_converter/dimacs_to_acts_converter.cpp:77-159 | The clauses are those of the file's numbers; the number of variables is the least one that is at least the header's and bounds all variables, without a header the greatest variable; both numbers of the header are those of the last problem line |
| `Dimacs.CountOfHeader` | contrib/dimacs_to_acts_converter/dimacs_to_acts_converter.cpp:95-158 | The number of variables is the first number of the last problem line, or the greatest variable of the number lines when one is greater, whatever the second number is |
| `Dimacs.CountWithoutHeader` | contrib/dimacs_to_acts_converter/dimacs_to_acts_converter.cpp:134-147 | Without a problem line it is the greatest variable of the number lines, or 0 |
| `Dimacs.LastCommentCounts` | contrib/dimacs_to_acts_converter/dimacs_to_acts_converter.cpp:86-93 | A variable has the comment of the last line that names it |
| `Dimacs.FlattenSplit` | contrib/dimacs_to_acts_converter/dimacs_to_acts_converter.cpp:112-125 | Flattening the clauses with closing zeros and the open literals restores the stream of numbers |
| `Dimacs.ClausesRoundTrip` | contrib/dimacs_to_acts_converter/dimacs_to_acts_converter.cpp:112-132 | Reading flattened clauses gives them back, empty ones included |
| `Dimacs.LineBreaksDoNotMatter` | contrib/dimacs_to_acts_converter/dimacs_to_acts_converter.cpp:77-126 | The clauses do not change when numbers move to another line or other lines come between them |
| `Dimacs.VariablesInRange` | contrib/dimacs_to_acts_converter/dimacs_to_acts_converter.cpp:134-158 | Every variable of a clause is between 1 and the number of variables |
| `Dimacs.CreateParamNames` | contrib/dimacs_to_acts_converter/dimacs_to_acts_converter.cpp:178-200 | All variables get pairwise distinct identifiers: the first variable with a usable comment name keeps it, the others get `p` and their number after underscores, each of which is needed because a kept name or an earlier variable has the shorter name |
| `Dimacs.DefaultNames` | contrib/dimacs_to_acts_converter/dimacs_to_acts_converter.cpp:189-199 | A variable is called `p` and its number unless a comment gives that name to a variable |
| `Dimacs.FreeName` | contrib/dimacs_to_acts_converter/dimacs_to_acts_converter.cpp:193-197 | The loop of underscores ends with the first free name, because the names grow while the used ones stay |
| `Dimacs.FewerNames` | contrib/dimacs_to_acts_converter/dimacs_to_acts_converter.cpp:193-197 | Each underscore leaves fewer used names that are long enough to collide |
| `Dimacs.CoversTheOthers` | contrib/dimacs_to_acts_converter/dimacs_to_acts_converter.cpp:274-281 | The relation covers exactly the variables that are not auxiliary, in order |
| `Dimacs.AuxiliaryNames` | contrib/dimacs_to_acts_converter/dimacs_to_acts_converter.cpp:167-173 | The auxiliary names are `_X` or `x`, at least one digit, and optionally `_m` |
| `Dimacs.FormatClause` | contrib/dimacs_to_acts_converter/dimacs_to_acts_converter.cpp:203-215 | The loop writes the clause's text |
| `Dimacs.ClauseMeaning` | contrib/dimacs_to_acts_converter/dimacs_to_acts_converter.cpp:203-215 | The constraint read from a written clause has the truth value of the clause over 0 and 1 |
| `Dimacs.NumbersDecide` | contrib/dimacs_to_acts_converter/dimacs_to_acts_converter.cpp:112-125 | What a clause says about its numbers: a positive one asks for a 1 and a negative one for a 0 |
| `Dimacs.FileParses` | contrib/dimacs_to_acts_converter/dimacs_to_acts_converter.cpp:300-334 | The written file parses into the parameters, the relation and one constraint for each non-empty clause |
| `Dimacs.FileMeaning` | contrib/dimacs_to_acts_converter/dimacs_to_acts_converter.cpp:300-334 | An assignment fulfills the model read from the written file exactly when it satisfies every non-empty clause |
| `Dimacs.WriteActs` | contrib/dimacs_to_acts_converter/dimacs_to_acts_converter.cpp:300-334 | Writes the whole file |
| `Dimacs.Convert` | contrib/dimacs_to_acts_converter/dimacs_to_acts_converter.cpp:260-334 | The conversion of a file's lines: it fails exactly for a bad problem line, a variable count of at most 0, or a positive strength and auxiliary variables only, and then nothing is written; otherwise clauses, names, covered variables, reduced strength and text are stated |
| `Dimacs.ConversionMeaning` | contrib/dimacs_to_acts_converter/dimacs_to_acts_converter.cpp:260-334 | What a conversion writes is fulfilled exactly by the assignments that satisfy the non-empty clauses of the lines read |
| `Barrier.RunKeeps` | 3rd_party/lace/src/lace.c:642-660 | Every interleaving of the atomic steps of n threads keeps the barrier's invariant |
| `Barrier.NobodyLeavesEarly` | 3rd_party/lace/src/lace.c:642-660 | No thread leaves an episode before all have arrived in it, and two threads are at most one episode apart |
| `Barrier.FlipIsSeen` | 3rd_party/lace/src/lace.c:645-657 | The sense read before the increment is never stale, and a spinning thread sees the flip until it leaves |
| `Barrier.CountersAreExact` | 3rd_party/lace/src/lace.c:646-659 | `count` is the number of arrivals of the current episode and `leaving` that of released threads still to leave, and `leaving` is 0 when the leader stores n, so no decrement is lost |
| `Barrier.NeverStuck` | 3rd_party/lace/src/lace.c:642-660 | Some thread can always take a step that changes the state |
| `Barrier.EverybodyLeaves` | 3rd_party/lace/src/lace.c:642-660 | Progress under fair schedules: after any schedule, when all n threads have taken a step more than 17 n times, in any order and with any steps between, every thread has left another barrier |
| `Barrier.Refines` | 3rd_party/lace/src/lace.c:642-660 | To its users the implementation is an abstract barrier: every step is an arrival, an allowed departure, or nothing |
| `Mailbox.Run` | 3rd_party/lace/src/lace.c:1051-1114 | After every interleaving of pushers and workers, spurious compare-exchange failures included, every task is in its place and `external_task_count` equals the occupied slots, less the pushers before their increment, plus the workers before their decrement |
| `Mailbox.RunsOnce` | 3rd_party/lace/src/lace.c:1051-1114 | No task runs twice, a submitted one is in exactly one slot, with exactly one worker or finished, and a pusher returns only after its own task has run |
| `Mailbox.SubmittedTasksRun` | 3rd_party/lace/src/lace.c:1051-1124 | Progress under fair schedules: whatever the other pushers submit, a submitted task has run exactly once and its pusher has returned after enough rounds in which every thread takes a step |
| `Mailbox.WhatIsSeenIsTaken` | 3rd_party/lace/src/lace.c:1099-1110 | A worker that looks at an occupied slot goes on to exchange it, and what its exchange finds is the task that it carries from then on |
| `Mailbox.WhatIsFreeIsFilled` | 3rd_party/lace/src/lace.c:1051-1072 | A pusher's compare-exchange of a free slot stores its task unless it fails spuriously; otherwise the pusher goes on to the next slot, and after the last one to the first |
| `MailboxProgress.EveryPusherReturns` | 3rd_party/lace/src/lace.c:1051-1124 | Progress of the whole mailbox: under fair schedules whose pushers take steps without spurious failures too, every task is submitted, runs exactly once and is announced, and every pusher returns |
| `MailboxProgress.AnotherIsSent` | 3rd_party/lace/src/lace.c:1051-1072 | Pushers are not starved: after enough rounds and one more another of them has found a free slot |
| `Mailbox.CounterAtRest` | 3rd_party/lace/src/lace.c:1068-1072 | At rest the counter is the number of occupied slots |
| `Frame.RunKeeps` | 3rd_party/lace/src/lace.c:1921-1981 | Every interleaving of workers that publish, copy, clear, run and leave nested frames, spurious compare-exchange failures included, keeps the protocol's invariant |
| `Frame.SameTask` | 3rd_party/lace/src/lace.c:1970-1981 | Workers in the same frame hold copies of the same published task, after every schedule |
| `Frame.NobodyCrashes` | 3rd_party/lace/src/lace.c:1970-1975 | When every spurious failure of the schedule happens while a task is published, no worker copies from a cleared pointer |
| `Frame.HarmlessExactly` | 3rd_party/lace/src/lace.c:2012-2017 | Exactly then: a schedule is of that kind if and only if no part of it, followed by one more step of any worker, ends with that worker copying from null |
| `Frame.CrashesExactly` | 3rd_party/lace/src/lace.c:2012-2017 | After such a schedule, a worker whose next two steps follow each other copies from null if and only if the first of them is a compare-exchange that fails although nothing is published |
| `Frame.LuckyFailure` | 3rd_party/lace/src/lace.c:2012-2017 | A failure of that kind need not crash: a schedule in which another worker publishes before the copy |
| `Frame.ClearedInTime` | 3rd_party/lace/src/lace.c:2019-2025 | When the publisher clears the pointer, every worker has its copy and none has entered the frame |
| `Frame.NobodyRunsWhilePublished` | 3rd_party/lace/src/lace.c:2019-2025 | While a task is published, its publisher waits for the copies and nobody runs the frame |
| `Frame.LoserJoins` | 3rd_party/lace/src/lace.c:2012-2017 | After every schedule: a publisher whose compare-exchange fails, spuriously or not, goes on to copy the published task, and the frame that it leaves before it tries again is that of another worker's task |
| `Frame.LoserTriesAgain` | 3rd_party/lace/src/lace.c:2012-2017 | After every schedule: a worker that leaves the third barrier of a visit is back in the frame before, and about to publish the task that was pending in the visit, for the same root |
| `Frame.NoTaskIsLost` | 3rd_party/lace/src/lace.c:2012-2017 | After every schedule: a task that a worker has ever had to publish has been published since or is still in its hands |
| `Frame.FramesOpenAndClose` | 3rd_party/lace/src/lace.c:1921-1968 | A frame opens with a root for every worker when its task is a TOGETHER and for the owner otherwise, a worker finishes its own root only, and the frame closes when none is left |
| `FrameProgress.EverybodyComesBack` | 3rd_party/lace/src/lace.c:1921-2025 | Progress under fair schedules: after any harmless schedule, once no new frames are started, all frames close and all workers are back outside, as soon as there have been more rounds than the distance of the state |
| `FrameProgress.EveryTaskRuns` | 3rd_party/lace/src/lace.c:2004-2065 | And every task that a worker has ever had to publish has become the task of a frame by then |
| `FrameProgress.NeverStuck` | 3rd_party/lace/src/lace.c:1921-2025 | Unless all are back, some worker has a step that changes the state, and it needs no new frame |
| `Frame.SpuriousFailureCrashes` | 3rd_party/lace/src/lace.c:2012-2017 | The shortest run that ends with a copy from null: one worker, one spurious failure |
| `Scratch.MaskRoundsUp` | 3rd_party/lace/src/lace.c:808-822 | Rounding with the mask is rounding up to the next multiple, for every power of two and without overflow |
| `Scratch.AndMask` | 3rd_party/lace/src/lace.c:808-822 | Clearing the low bits with the complement of a mask drops the remainder |
| `Scratch.KeepEndRounds` | 3rd_party/lace/src/lace.c:912-919 | The end to keep committed, overflow check included, is the rounded end of the band within the reservation |
| `Scratch.Arena.constructor` | 3rd_party/lace/src/lace.c:1011-1031 | A fresh arena is valid and has nothing committed |
| `Scratch.Arena.Alloc` | 3rd_party/lace/src/lace.h:934-945 | Allocations are aligned and lie in committed memory of their own; they are as large as requested if and only if the size plus 15 does not wrap around; one that fits below the committed end succeeds and commits nothing |
| `Scratch.RoundingFits` | 3rd_party/lace/src/lace.h:937 | The rounding of a size, wrapping around as in C: the next multiple of 16, or 0, and at least the size if and only if the size plus 15 does not wrap around |
| `Scratch.LeastFailingSize` | 3rd_party/lace/src/lace.h:937 | The least size that is rounded to less, 2^64 - 15, and the size before it, which is not |
| `Scratch.Arena.Grow` | 3rd_party/lace/src/lace.c:896-938 | Growing commits exactly the missing pages, so the band above the new top, up to the reservation's end, needs no commit; it fails only when the reservation or the commit does |
| `Scratch.Arena.Trim` | 3rd_party/lace/src/lace.c:940-959 | Trimming releases whole pages beyond the band only, never bytes below the top |
| `Scratch.Arena.Reset` | 3rd_party/lace/src/lace.h:954-957 | Resetting keeps the arena valid |
| `Scratch.GrowThenTrim` | 3rd_party/lace/src/lace.c:896-959 | Growing and then trimming: after an allocation that had to commit, a trim leaves the committed end and the committed bytes as they are |
| `HeadSearch.GetHead` | 3rd_party/lace/src/lace.c:522-556 | The search reads no entry out of bounds and returns the first free entry, or the end, when the used entries come first |
| `HeadSearch.FindBoundary` | 3rd_party/lace/src/lace.c:522-556 | Whatever the entries are, the search ends where a used entry, or the start, meets a free one, or the end |
| `HeadSearch.BoundaryIsFirst` | 3rd_party/lace/src/lace.c:522-556 | When the used entries come first the only such place is what a linear scan finds |
| `HeadSearch.OtherBoundary` | 3rd_party/lace/src/lace.c:522-556 | When they do not, there is another such place, which the search may find instead |

## Left out

- Semantic errors: after one the grammar is not compared with the parser; what is reported for each error is stated by the rules.
- Error messages: the message holds the place, the error or the expectations; its wording and formatting are not modelled.
- Integers: Dafny's are unbounded; the range of an int is explicit where the parser and the readers check it, sizes and positions do not overflow, and the absolute value of the least int in the DIMACS reader is taken as a number.
- Objects: parameters, relations and constraint trees are values, so sharing of constraint nodes and the setters of the tree classes are not modelled; the model under construction, the parser, the streams, the evaluator and the arena are objects.
- Lambdas: the functions that the parser passes to `attempt`, `parse_list` and `parse_operands` are methods of their own, selected by the kind of element or operator.
- Files: opening, reading lines, stripping comments, recognising CASA headers and DIMACS comments, and warnings; the readers take cleaned lines, or lines that are already classified.
- Empty clauses: the converters drop them although an empty clause is false; the theorems speak of the non-empty ones.
- Base names: the name of the system is a parameter, and the theorems about written files require it to be one that the format can hold.
- Memory orders: every atomic access of Lace is one sequentially consistent step; futexes, timing and the backoff are not modelled.
- Frames: they are started only on behalf of a root that its frame still waits for, and a worker may notice a published task whenever it runs; the code of the tasks, stealing and the deques themselves are not part of this model. In NEWFRAME the publisher runs a task of its own in the frame, which its copy stands for.
- Scratch.Arena.Alloc: does not model pointers beyond the address space, which are undefined in C: the new top, after the rounding of the size has wrapped around or not, is required to be a word.
- Liveness: progress is proved for the barrier, the mailbox and the frames; nothing is said about schedules that go on starting new frames for ever.
- Printer.CreateCopy: trees are values, so that the copy consists of new nodes is not stated.
- Parser.ActsParser.ParseInputModel: the report of a syntax error is stated through the log of failures and for single literals, identifiers, integers and ends of lines; it is not given as a function of the input.
- Frame.RunKeeps: after a copy from null, which is undefined in C, the model lets the worker stand still.
- The generation algorithms, coverage measurement, decision diagrams, the command line and the other file formats.
