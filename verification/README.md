# Verification of the constraint language, the audit chain and their companions

This project models the executable logic of a TypeScript contract library and proves what that logic promises. The
library ships a small constraint language with a tokenizer, a syntax validator, a one-pass parser that evaluates while
it parses, and factories that print expressions in that language; a cycle check for records that refer to each other;
a hash-chained audit trail with checkpoints; two checks over delegation trees; and a handful of stateful and
arithmetic pieces.

Run `dafny verify dfyconfig.toml` in this directory.

## How the model is built

| file | what it models |
|---|---|
| `Results.dfy`, `Values.dfy` | `undefined` and exceptions; JavaScript values, `BigInt(String(v))`, `Number(String(v))`, property access |
| `Tokenizer.dfy` | the tokenizer loop, and the text that symbols are printed to |
| `Syntax.dfy`, `Semantics.dfy` | the reference: expression trees, how they are read from symbols, what they mean |
| `Evaluator.dfy` | the `Parser` class, which moves a position and a depth counter and never builds a tree |
| `Nesting.dfy`, `Printing.dfy`, `RoundTrip.dfy` | balanced parentheses; printing trees, and reading them back |
| `Texts.dfy`, `Laws.dfy`, `BuiltinLaws.dfy`, `Conversions.dfy` | what every construct looks like as text; what texts evaluate to, operator by operator and function by function; what texts and values convert to |
| `Constraints.dfy` | three constraints of the shipped files, for any names and totals |
| `Grammar.dfy`, `Agreement.dfy`, `Lambdas.dfy` | the syntax validator, the check in full of what the evaluator reads, their agreement with the evaluator; when an error in a tree is reached |
| `Acceptance.dfy`, `Refusal.dfy`, `Detailed.dfy`, `Disagreements.dfy` | what the check accepts of printed trees, and at what depth; what it refuses; the detailed evaluator; expressions on which validator and evaluator disagree |
| `Spacing.dfy`, `Breakdown.dfy`, `DepthLimit.dfy` | white space and stray characters; texts that break off or go on too long; nested parentheses |
| `Factories.dfy`, `FactoryCounters.dfy` | the texts the factories build, and their id counter |
| `Dag.dfy` | `is_valid_dag` |
| `CanonicalJson.dfy`, `DomainTags.dfy`, `AuditTrails.dfy`, `Checkpoints.dfy` | canonical JSON, domain tags, content and chain hashes, verification, checkpoints and pruning |
| `Trees.dfy`, `TreeLaws.dfy` | the budget and authority checks over delegation trees; what they mean on the data |
| `GovernedResources.dfy` | the transition engine: apply, verify, commit or roll back |
| `Dampening.dfy`, `CanonicalRuns.dfy`, `AdvisoryLocks.dfy` | the dampened score, the CR-1 rule, the lock key |

Code that changes things step by step is a method with loops, or a class, proved against a function; what that
function promises is then proved by lemmas. The evaluator's methods all carry the same contract: the value returned is
the meaning of the tree that the reference reads at this place, errors included, and where the parser stops and what
its depth counter shows do not depend on the data. A lambda body is read once in the reference, and parsed once per
element in the parser; a syntax error in it therefore is part of the tree, and only surfaces if an element is there to
trip over it.

A method that follows a function says nothing yet about what the function is for. So each such function is also pinned
by laws that do not mention it: about the text of an expression and the values of the texts of its operands, about the
text that is hashed, about the elements that two lists of scopes name. `Laws.ImplicationLaw`, for one, speaks of
`Evaluate` on the text `a => b` and of nothing else.

The hash function is a parameter. Nothing is assumed about collisions, which no function into 64 hex digits could
satisfy: where a claim needs that there are none, the lemma returns either the claim or two different texts with the
same digest.

## What the proofs found

These are properties that the documentation or the tests suggest and the code does not have, each with the exact
condition under which it does.

- The evaluator's depth counter is raised by every nested expression and never lowered, so breadth counts as depth. The
  non-negative invariant means what it says for up to fifteen fields, and for sixteen or more its evaluation raises
  the depth error on every input, although the validator, whose counter is lowered, accepts it. A balance law over
  fifteen or more fields therefore never passes.
- The validator does not know `bigint_eq`, so it rejects the text of every sum invariant at position 9, although the
  evaluator gives it its documented meaning.
- A sum invariant treats a field that is no integer as making the whole sum zero, so it passes whenever the total is
  zero as well.
- The validator accepts expressions that the evaluator fails on. `Grammar.dfy` therefore has a second mode, the check
  in full: the validator's grammar with every function name taken as a call, plain paths in temporal operators, and
  what the evaluator admits besides; on the symbols it also counts how high the evaluator will raise its depth counter.
  An expression is *evaluable* if the check in full accepts it at a depth of at most 32. For an expression that the
  validator accepts, and for one that the check in full accepts:
  - without lambdas, on any data, it evaluates if and only if it is evaluable;
  - with lambdas of which each ranges over something in the parameter of the one around it, it evaluates on all data
    if and only if it is evaluable;
  - with lambdas of any kind, it evaluates on all data if it is evaluable. There is no converse: in
    `a.every(p => a.b.every(q => len))` the inner body is an error that no data can reach, since arrays have no
    property `b`. `Disagreements.UnreachedErrorEvaluates` states this for all such paths and names.

  `len`, standing alone, is one of the expressions that are valid, not evaluable, and fail on all data;
  `Disagreements.FunctionNameIsNoField` states this for every function name the validator does not know. For printed
  trees the depth that the check counts fits exactly if the depth of the tree does.
- Symbols that are left over behind an expression are ignored by the evaluator and rejected by the validator, and a path
  that ends in a dot and a quoted text means to the evaluator what the path means: `Breakdown.TooManyClosed` and
  `Breakdown.DotWithoutName`. Parentheses nest 31 deep for both; at the 32nd pair both report the depth limit.
- `entry_hash` does not cover `previous_hash`: any entry can be appended with the same hash to any verified trail.
  Only the chain-bound hash binds a history.
- The continuity check and the verification of the pruned trail agree on whether all is well, but not always on what
  is wrong. They report the same if and only if nothing is left behind the checkpoint or the first entry behind it
  links to the checkpoint; otherwise the continuity check reports that link, at its index in the full trail, before it
  looks at any content.
- In a delegation tree, a child that repeats its parent's id is skipped with everything below it, so what it spends
  goes unchecked. For any ids, a check passes if and only if the rule holds at the nodes first visited under their id,
  and depth and count are within limits at every node taken from the stack; with distinct ids that is the rule at
  every node.
- A governed resource does not verify its initial state, and stays in a bad one until an event mends it. An invariant
  check that throws leaves the candidate state in place, unverified and without a new version:
  `GovernedResources.ThrowingCheckLeavesBadState` ends a run from a good start, with one commit, in a state that does
  not hold. If no check throws, the invariants hold whenever the start is good or anything has been committed.

## Model

| member | source | states |
|---|---|---|
| Tokenizer.Tokenize | src/constraints/tokenizer.ts:31-157 | the loop yields the reference tokenization, or its first error |
| Tokenizer.ReadToken | src/constraints/tokenizer.ts:39-154 | one turn of the loop consumes the reference's next step: at least one character, and one token pushed or merged |
| Tokenizer.MergeFraction | src/constraints/tokenizer.ts:89-103 | a dot and digits after a number token replace it by the merged number, at its position |
| Tokenizer.ReadText | src/constraints/tokenizer.ts:110-130 | a quoted text is unescaped up to its closing quote, or found unterminated |
| Tokenizer.TakeWhile | src/constraints/tokenizer.ts:135-151 | the longest run of characters of a class |
| Tokenizer.ScanEscaped | src/constraints/tokenizer.ts:110-130 | an escaped text scans back to what was escaped |
| Tokenizer.LexRender | src/constraints/tokenizer.ts:31-157 | tokenizing printed symbols gives the symbols back, each at its position in the text |
| Spacing.LexLaid | src/constraints/tokenizer.ts:31-157 | symbols with any white space between them, where they would otherwise run together, are read back as themselves, each at its offset, in front of anything |
| Spacing.SpaceMeansNothing | src/constraints/tokenizer.ts:35-36 | however a tree's symbols are spaced, the text has the value of the tree's text on every input, and the validator accepts both or neither |
| Spacing.StrayCharacter | src/constraints/tokenizer.ts:153-154 | behind any expression a character that belongs to no symbol is an error at its offset, for both parsers |
| Spacing.LexUnknown | src/constraints/tokenizer.ts:38-154 | which characters those are, `=`, `&` and `\|` standing alone among them |
| Spacing.OpenQuote | src/constraints/tokenizer.ts:110-130 | behind any expression a quote that is never closed is an error at its offset |
| Spacing.QuotedTextIsRead | src/constraints/tokenizer.ts:110-130 | a backslash in front of any other character than a quote or a backslash stands for itself |
| Spacing.FractionIsMerged | src/constraints/tokenizer.ts:89-103 | a dot and digits belong to the number in front of them, whatever white space lies between |
| Values.ResolveLoop | src/constraints/evaluator.ts:99-107 | a dotted path is resolved by following its names, and gives undefined from the first step off a non-object |
| Values.SplitJoin | src/constraints/evaluator.ts:99-107 | splitting joined path parts gives the parts back |
| Values.BigIntOfDigits | src/constraints/evaluator.ts:768-783 | a string of digits converts to the number it spells, leading zeros or not |
| Values.BigIntOfText | src/constraints/evaluator.ts:804-820 | the text of a BigInt converts back to it |
| Values.IntTextIs | src/constraints/evaluator.ts:804-820 | the text of an integer is its sign and digits, without leading zeros |
| Conversions.PaddingIsIgnored | src/constraints/evaluator.ts:768-783 | white space around a text does not change the integer or the number it converts to |
| Conversions.SignedIntegers | src/constraints/evaluator.ts:768-783 | a sign in front of digits, to both conversions |
| Conversions.RadixPrefixes | src/constraints/evaluator.ts:768-783 | the prefixes of hexadecimal, octal and binary numbers |
| Conversions.FractionsAre | src/constraints/evaluator.ts:735-741 | digits behind a dot count as tenths of tenths |
| Conversions.ExponentsAre | src/constraints/evaluator.ts:735-741 | an exponent multiplies or divides by a power of ten |
| Conversions.DigitsOfNothing | src/constraints/evaluator.ts:730-743 | digits that run on into a word convert to nothing |
| Conversions.ArrayProperties | src/constraints/evaluator.ts:99-107 | `length` and the indices are the properties of an array |
| Semantics.BrokenFails | src/constraints/evaluator.ts:282-326 | a tree in which reading broke off evaluates to an error on every input: nothing after a syntax error can hide it |
| Semantics.ComparisonsMirror | src/constraints/evaluator.ts:328-424 | for operands of any types, `a < b` is `b > a` and so on, `==` is symmetric, and `!=` denies `==`, null and coercion included |
| Semantics.ComparesTextAsInteger | src/constraints/evaluator.ts:410-424 | a BigInt and a text that spells an integer compare as integers under all six operators |
| Laws.ImplicationLaw | src/constraints/evaluator.ts:282-295 | the text `a => b` evaluates to false if the text of a is true and that of b is not, and to true otherwise; both are evaluated, and the first error wins |
| Laws.DisjunctionLaw | src/constraints/evaluator.ts:297-305 | `a \|\| b` is true if one of the two is, both evaluated |
| Laws.ConjunctionLaw | src/constraints/evaluator.ts:307-315 | `a && b` is true if both are, both evaluated even if the first is false |
| Laws.NegationLaw | src/constraints/evaluator.ts:426-433 | `!a` is true exactly if a is one of the six values that count as false |
| Laws.ComparisonLaw | src/constraints/evaluator.ts:328-424 | the six comparisons of numbers, texts and integers, from whether the first is less and whether they are the same |
| Laws.IdentityLaw | src/constraints/evaluator.ts:328-424 | values without an order are equal if identical, and no comparison of order is true of them |
| Laws.NullLaw | src/constraints/evaluator.ts:329-343 | comparing with null on either side asks whether a value is null or undefined |
| BuiltinLaws.NumberLaw | src/constraints/evaluator.ts:472-477 | digits stand for the number they spell, digits behind a dot for as many tenths of tenths |
| BuiltinLaws.TextLaw | src/constraints/evaluator.ts:479-483 | a quoted text stands for itself |
| BuiltinLaws.PathLaw | src/constraints/evaluator.ts:551-602 | a path behind a dot is followed in the object the path before it leads to, and leads nowhere if there is none |
| BuiltinLaws.LengthLaw | src/constraints/evaluator.ts:557-564 | `.length` counts elements or code units; of anything else it is zero |
| BuiltinLaws.ArrayLaw | src/constraints/evaluator.ts:449-470 | an array literal holds the values of its elements in order |
| BuiltinLaws.EveryHoldsLaw | src/constraints/evaluator.ts:566-591 | `path.every(p => body)` is true of an array if the body is true with p bound to each element, and false of what is no array |
| BuiltinLaws.EveryStopsLaw | src/constraints/evaluator.ts:566-591 | the first element for which the body is not true decides, or its error; what comes after is not looked at |
| BuiltinLaws.BigintLaw | src/constraints/evaluator.ts:768-820 | `bigint_gte`, `bigint_gt`, `bigint_eq`, `bigint_sub` and `bigint_add` of two texts that stand for integers m and n |
| BuiltinLaws.NoIntegerLaw | src/constraints/evaluator.ts:768-820 | the same if one of the two stands for no integer: false, and zero |
| BuiltinLaws.EqLaw | src/constraints/evaluator.ts:789-797 | `eq` asks for identity and converts nothing |
| BuiltinLaws.LenLaw | src/constraints/evaluator.ts:1322-1332 | `len` counts elements, code units or properties |
| BuiltinLaws.SumLaw | src/constraints/evaluator.ts:619-667 | `bigint_sum` of an array of integers is their sum, what is missing counting as zero |
| BuiltinLaws.NoSumLaw | src/constraints/evaluator.ts:619-667 | one element that is no integer makes the sum zero, and so does an argument that is no array |
| BuiltinLaws.SumFieldLaw | src/constraints/evaluator.ts:638-651 | the sum over a field of the objects in an array |
| BuiltinLaws.SumNestedLaw | src/constraints/evaluator.ts:638-651 | the sum over a field of a field |
| BuiltinLaws.TemporalLaw | src/constraints/evaluator.ts:678-748 | with a record before: `changed` denies identity, `previous` gives what was, `delta` how much an integer has grown |
| BuiltinLaws.FractionLaw | src/constraints/evaluator.ts:735-741 | `delta` of numbers that are not whole is their difference as numbers |
| BuiltinLaws.NothingBeforeLaw | src/constraints/evaluator.ts:678-748 | with no record before, nothing has changed or grown |
| Constraints.DividendLaw | constraints/CommonsDividend.constraints.json:36 | the shipped constraint, for any names and any total: true if there is no distribution, and otherwise exactly if the shares add up |
| Constraints.TransferLaw | constraints/InterAgentTransactionAudit.constraints.json:10 | the shipped constraint, for any paths: true exactly if the balance before less the amount is the balance after |
| Constraints.SagaLaw | constraints/SagaContext.constraints.json:10 | the shipped constraint, for any names: true exactly if there is no record before, the step is the same or has grown, or the direction is the given one |
| Evaluator.Parser.ParseExpr | src/constraints/evaluator.ts:282-295 | implication: both sides are evaluated; value, stop position and depth are those of the reference tree |
| Evaluator.Parser.ParseOr | src/constraints/evaluator.ts:297-305 | the loop over `\|\|` equals the left-nested tree, every operand evaluated |
| Evaluator.Parser.ParseAnd | src/constraints/evaluator.ts:307-315 | the loop over `&&` equals the left-nested tree, every operand evaluated |
| Evaluator.Parser.ParseComparison | src/constraints/evaluator.ts:317-326 | at most one comparison, of two unary operands |
| Evaluator.Parser.ParseUnary | src/constraints/evaluator.ts:426-433 | negation of the truth value of its operand |
| Evaluator.Parser.ParsePrimary | src/constraints/evaluator.ts:435-512 | parentheses, array literals, literals, calls and field paths, as the reference reads and means them |
| Evaluator.Parser.ParseElements | src/constraints/evaluator.ts:450-469 | the elements of an array literal, up to the closing bracket, commas being optional |
| Evaluator.Parser.ParseElement | src/constraints/evaluator.ts:453-466 | an element is a text, a number or a field path |
| Evaluator.Parser.ParseFieldPath | src/constraints/evaluator.ts:550-602 | dotted path, `.length` and `.every`, each stopping where the reference stops whatever the data |
| Evaluator.Parser.FindMatchingParen | src/constraints/evaluator.ts:608-617 | the position of the parenthesis that closes the one already open, or the end of the tokens |
| Evaluator.Parser.ParseEvery | src/constraints/evaluator.ts:566-591 | the lambda is cut out once; its value is that of the tree read once, applied to each element with the parameter in scope |
| Evaluator.Parser.ParseLambdaBody | src/constraints/evaluator.ts:574-591 | the body ends at the matching parenthesis, and its evaluation leaves position and depth alone |
| Evaluator.Parser.EveryItem | src/constraints/evaluator.ts:586-591 | true if the body is truthy for every element, stopping at the first that is not, with errors in between |
| Evaluator.Parser.ParseBigintSum | src/constraints/evaluator.ts:619-667 | both forms of the sum, and zero for anything that is no array |
| Evaluator.AddUp | src/constraints/evaluator.ts:655-664 | the sum of the elements that are not nullish, zero if one is no integer |
| Evaluator.AddUpField | src/constraints/evaluator.ts:638-651 | the same over one field of each element |
| Evaluator.Parser.ParseTwoArguments | src/constraints/evaluator.ts:768-820 | `bigint_gte`, `bigint_gt`, `bigint_eq`, `eq`, `bigint_sub` and `bigint_add` mean what the reference says of their two arguments |
| Evaluator.Parser.ParseLen | src/constraints/evaluator.ts:1322-1332 | the length of an array or text, else zero |
| Evaluator.Parser.ParseTemporal | src/constraints/evaluator.ts:678-748 | `changed`, `previous` and `delta` against the `_previous` record |
| Evaluator.Parser.ParseFieldPathString | src/constraints/evaluator.ts:750-766 | the plain path a temporal operator takes |
| Evaluator.EvaluateConstraint | src/constraints/evaluator.ts:2282-2292 | tokenize, parse and evaluate in one pass equals tokenize, read a tree, evaluate it, take its truth value |
| Printing.ShowAppend | src/constraints/evaluator.ts:282-606 | what is printed for a tree does not depend on what follows it |
| Printing.ShowSkips | src/constraints/evaluator.ts:608-617 | what is printed for a tree has balanced parentheses, so the evaluator's search for the closing one passes over it |
| RoundTrip.ReadShownExpr | src/constraints/evaluator.ts:282-606 | reading the symbols of any printable tree within the depth limit gives that tree, and leaves what follows |
| RoundTrip.TextTokens | src/constraints/tokenizer.ts:31-157 | tokenizing the text of a tree gives its symbols |
| RoundTrip.TextMeansTree | src/constraints/evaluator.ts:2282-2292 | the text of a tree, tokenized and evaluated, has the value of the tree on every input |
| Texts.ImplicationText | src/constraints/evaluator.ts:282-295 | the text of an implication: the texts of its sides around an arrow, in parentheses if they are implications |
| Texts.EveryText | src/constraints/evaluator.ts:566-591 | the text of a quantifier |
| Texts.CallText | src/constraints/evaluator.ts:768-820 | the text of a call of two arguments |
| Breakdown.EmptyExpression | src/constraints/evaluator.ts:436-437 | nothing is no expression, to either parser |
| Breakdown.NoStart | src/constraints/evaluator.ts:511 | a symbol that starts no operand is unexpected, to either parser |
| Breakdown.TooManyClosed | src/constraints/evaluator.ts:2282-2292 | a closing parenthesis or bracket behind any expression is ignored by the evaluator, and an error at its place to the validator |
| Breakdown.Unclosed | src/constraints/evaluator.ts:439-445 | an opening parenthesis in front of any expression: its value is computed, then the closing one is asked for |
| Breakdown.UnclosedCall | src/constraints/evaluator.ts:619-819 | the same of every call, and the validator asks for it too if it knows the call |
| Breakdown.UnclosedArray | src/constraints/evaluator.ts:449-470 | the same of array literals |
| Breakdown.MissingArgument | src/constraints/evaluator.ts:768-819 | a function of two arguments with one asks for a comma behind it |
| Breakdown.BareName | src/constraints/evaluator.ts:501-505 | the name of a function standing alone asks for its arguments; the validator agrees if it knows the function |
| Breakdown.EmptyTemporal | src/constraints/evaluator.ts:750-766 | a temporal operator without a path asks for a name |
| Breakdown.MissingName | src/constraints/evaluator.ts:552-569 | a path that ends in a dot, or in `.every` |
| Breakdown.MissingLambda | src/constraints/evaluator.ts:567-575 | a quantifier that breaks off behind its parenthesis asks for a parameter, and behind the parameter for an arrow |
| Breakdown.DotWithoutName | src/constraints/evaluator.ts:593-602 | behind a path, a dot and a quoted text are ignored by the evaluator; the validator asks for a name |
| Breakdown.CommaIsOptional | src/constraints/evaluator.ts:466 | with or without a comma behind an element, last or not, either parser goes on alike |
| DepthLimit.NestingLimit | src/constraints/evaluator.ts:282-286 | a name in up to 31 pairs of parentheses means what the name means; with more, both parsers report the depth limit, the validator at offset 32 |
| Grammar.SyntaxValidator.ParseExpr | src/constraints/grammar.ts:72-87 | follows the reference check; depth is raised and lowered again |
| Grammar.SyntaxValidator.ParseOr | src/constraints/grammar.ts:89-95 | follows the reference check of a disjunction |
| Grammar.SyntaxValidator.ParseAnd | src/constraints/grammar.ts:97-103 | follows the reference check of a conjunction |
| Grammar.SyntaxValidator.ParseComparison | src/constraints/grammar.ts:105-112 | follows the reference check of a comparison |
| Grammar.SyntaxValidator.ParseUnary | src/constraints/grammar.ts:114-121 | follows the reference check of a negation |
| Grammar.SyntaxValidator.ParsePrimary | src/constraints/grammar.ts:123-194 | follows the reference check, which knows six names as calls |
| Grammar.SyntaxValidator.ParseElements | src/constraints/grammar.ts:137-146 | follows the reference check of array elements, all of them field paths |
| Grammar.SyntaxValidator.ParseFieldPath | src/constraints/grammar.ts:196-245 | follows the reference check of a path |
| Grammar.SyntaxValidator.ParseEvery | src/constraints/grammar.ts:216-240 | follows the reference check of a lambda |
| Grammar.SyntaxValidator.ParseBigintSumCall | src/constraints/grammar.ts:247-256 | follows the reference check of `bigint_sum` |
| Grammar.SyntaxValidator.ParseTwoArgCall | src/constraints/grammar.ts:259-266 | follows the reference check of the two-argument calls |
| Grammar.SyntaxValidator.ParseOneArgCall | src/constraints/grammar.ts:269-274 | follows the reference check of the temporal calls |
| Grammar.ValidateExpression | src/constraints/grammar.ts:299-317 | accepts exactly what the reference check accepts to the last symbol, and reports the position of the first error |
| Agreement.MatchExpr | src/constraints/grammar.ts:72-87 | what the validator or the check in full accepts, the evaluator reads to the same place; it does so without error exactly if the check in full accepts it and there is room for its depth, and the depth limit is the only error if the check in full accepts it |
| Agreement.ReadCutLambda | src/constraints/evaluator.ts:574-591 | a lambda body the validator accepted ends exactly where the evaluator's search for the closing parenthesis points |
| Agreement.CleanHasValue | src/constraints/evaluator.ts:282-606 | a tree without errors has a value on every input |
| Agreement.TooDeepIsTheOnlyError | src/constraints/evaluator.ts:282-286 | a tree whose only errors are depth errors evaluates to a value or to the depth error |
| Detailed.ReadsWhatIsAcceptedInFull | src/constraints/grammar.ts:72-285 | of what either check accepts, exactly what the check in full accepts within the depth limit is read without error, lambda bodies included, and to the last symbol |
| Detailed.EvaluableIsClean | src/constraints/detailed-evaluator.ts:49-61 | the same of expressions: no error in the tree exactly if that can be told from the text |
| Detailed.LambdaFreeExpressions | src/constraints/detailed-evaluator.ts:49-61 | a valid expression without lambdas evaluates, on any data, if and only if the check in full accepts it within the depth limit |
| Detailed.LinkedExpressions | src/constraints/evaluator.ts:566-591 | a valid expression with linked lambdas evaluates on all data if and only if the same holds |
| Detailed.PrintedTreeIsReadIfItFits | src/constraints/evaluator.ts:282-295 | the symbols of any printable tree are read without error if and only if the tree fits the depth limit |
| Detailed.PrintedTreeEvaluatesIfItFits | src/constraints/evaluator.ts:2282-2292 | without lambdas, the text of a printable tree evaluates, on any data, if and only if the tree fits the depth limit |
| Lambdas.LambdaFreeHasValue | src/constraints/evaluator.ts:282-433 | without lambdas a tree has a value if and only if there is no error in it: no operand is skipped |
| Lambdas.LinkedHasValues | src/constraints/evaluator.ts:566-591 | with linked lambdas a tree has a value on all data if and only if there is no error in it: some data reaches every body |
| Acceptance.PriceIsDepth | src/constraints/evaluator.ts:282-286 | the depth counted on the symbols of a printed tree is within the limit if and only if the tree fits it |
| Acceptance.CheckableTreesAreValid | src/constraints/grammar.ts:72-285 | the validator accepts the text of every printable tree that uses its six calls, fields as array elements, and no deeper nesting than its limit |
| Refusal.ValidIfCheckable | src/constraints/grammar.ts:72-285 | the validator accepts the text of a printable tree if and only if it is such a tree |
| Breakdown.UnknownTwoArguments | src/constraints/grammar.ts:166-191 | of the functions of two arguments the validator accepts two, and rejects every call of the others at its parenthesis |
| Disagreements.FunctionNameIsNoField | src/constraints/grammar.ts:166-191 | the name of any function the validator does not know is valid on its own, not acceptable in full, and fails on all data |
| Disagreements.UnreachedErrorEvaluates | src/constraints/evaluator.ts:566-591 | a valid expression whose inner lambda body is an error that is never reached has a value on all data |
| Detailed.EvaluateConstraintDetailed | src/constraints/detailed-evaluator.ts:35-72 | version check, then the validator's verdict, then the evaluator's value or error |
| Detailed.VersionsAre | src/constraints/types.ts:171-178 | versions one and two are supported, whatever follows a dot |
| Detailed.ValidatedExpressionsEvaluate | src/constraints/detailed-evaluator.ts:49-61 | with lambdas of any kind, an expression the check in full accepts evaluates on every input to a value, or to the depth error if its depth is beyond the limit |
| Detailed.OthersAreMisread | src/constraints/detailed-evaluator.ts:49-61 | the tree of any other expression the validator accepts has an error in it, reached or not |
| Factories.SumTextIsText | src/commons/conservation-law-factories.ts:52-65 | the text of a sum invariant is the printed form of its tree |
| Factories.SumInvariantMeans | src/commons/conservation-law-factories.ts:52-65 | its exact meaning on any data |
| Factories.SumInvariantOnDigits | src/commons/conservation-law-factories.ts:52-65 | for any number of fields holding digits it is true exactly when they add up to the total |
| Factories.SumInvariantOnGarbage | src/commons/conservation-law-factories.ts:52-65 | with a field that is no integer, a total of zero passes |
| Factories.SumInvariantIsRejected | src/constraints/grammar.ts:166-191 | the validator rejects it, at position 9 |
| Factories.NonNegativeTextIsText | src/commons/conservation-law-factories.ts:86-98 | the text of a non-negative invariant is the printed form of its tree |
| Factories.NonNegativeInvariantMeans | src/commons/conservation-law-factories.ts:86-98 | for up to fifteen fields it is true exactly when every field is at least zero |
| Factories.NonNegativeInvariantFails | src/commons/conservation-law-factories.ts:86-98 | from sixteen fields on it raises the depth error on every input |
| Factories.NonNegativeInvariantIsAccepted | src/constraints/grammar.ts:172-176 | the validator accepts it for any number of fields |
| FactoryCounters.LawFactory.NextFactoryId | src/commons/conservation-law-factories.ts:19-22 | the counter goes up by one, and the id is its padded text |
| FactoryCounters.LawFactory.CreateBalanceConservation | src/commons/conservation-law-factories.ts:159-173 | a per-entry law of two error-level invariants with fresh, different ids over the sum text and the non-negative text of all fields |
| FactoryCounters.FactoryIdsDiffer | src/commons/conservation-law-factories.ts:14-22 | ids of different counter values differ, padding included |
| FactoryCounters.BalanceLawOnDigits | src/commons/conservation-law-factories.ts:159-173 | up to fourteen summed fields on digits, the law passes exactly when the fields add up |
| FactoryCounters.BalanceLawNeverPasses | src/commons/conservation-law-factories.ts:159-173 | from fifteen on it never passes |
| Dag.ExtractPathLoop | src/constraints/is-valid-dag.ts:104-119 | a path is followed through objects only, brackets and empty segments giving undefined |
| Dag.ExtractName | src/constraints/is-valid-dag.ts:104-119 | a path of one name leads to what an object holds under it |
| Dag.ExtractNested | src/constraints/is-valid-dag.ts:104-119 | what stands behind a dot is followed in what the path before it leads to, for any two bracket-free paths |
| Dag.UnusablePaths | src/constraints/is-valid-dag.ts:104-119 | paths that are empty, hold a bracket, or start or end in a dot lead nowhere |
| Dag.BuildIndex | src/constraints/is-valid-dag.ts:185-259 | indexes every item, or reports the first that has no id, an id that is no string, or one seen before |
| Dag.DagSearch.Enter | src/constraints/is-valid-dag.ts:273-297 | the path is exactly the on-stack set, so a cycle diagnostic is a walk along references that closes |
| Dag.DagSearch.Visit | src/constraints/is-valid-dag.ts:273-356 | finish order stays a topological order; the operations spent are paid for by the items newly visited |
| Dag.DagSearch.ResolveRefs | src/constraints/is-valid-dag.ts:312-352 | all references of an item lead to finished items, or a justified diagnostic is set |
| Dag.DagSearch.FollowRef | src/constraints/is-valid-dag.ts:313-351 | one reference: absent, dangling, or followed |
| Dag.DagSearch.Run | src/constraints/is-valid-dag.ts:358-370 | no diagnostic means the items form a DAG; operations are at most 2·N·(1+k) |
| Dag.EvaluateIsValidDag | src/constraints/is-valid-dag.ts:141-371 | on arrays within the caps, valid only for DAGs with present, distinct string ids and resolving references, and otherwise a justified diagnostic; exactly for those, and never out of operations, with up to four reference fields or 2·N·(1+k) within the cap |
| Dag.UnderCap | src/constraints/is-valid-dag.ts:33-47 | within the item cap and four reference fields the operation cap is out of reach |
| Dag.JustifiedRefutes | src/constraints/is-valid-dag.ts:196-356 | every diagnostic that is not about a cap shows that the items are no DAG |
| Dag.ClosingWalkIsCyclic | src/constraints/is-valid-dag.ts:286-296 | a reported walk whose last node occurs earlier in it contains a cycle |
| Dag.WalksGoBack | src/constraints/is-valid-dag.ts:354-355 | every walk goes back in finish order |
| Dag.OrderedIsDag | src/constraints/is-valid-dag.ts:354-370 | items all standing in such an order form a DAG |
| Dag.NestedSelfReferenceIsCyclic | src/constraints/is-valid-dag.ts:286-296 | items one of which names itself in a nested field are no DAG |
| Dag.NestedPairIsDag | src/constraints/is-valid-dag.ts:141-371 | two items, the second with a nested reference, are a DAG exactly if it is the first one's id or missing |
| CanonicalJson.CanonicalIsCanonical | scripts/cross-runner.ts:273-278 | equal texts exactly for values equal up to key order |
| CanonicalJson.EscapesAre | scripts/cross-runner.ts:274-277 | every character that is escaped, and how |
| CanonicalJson.ArrayText | scripts/cross-runner.ts:275 | the text of an array |
| CanonicalJson.ObjectText | scripts/cross-runner.ts:276-277 | the text of an object whose keys are in order |
| CanonicalJson.CanonicalDecodes | scripts/cross-runner.ts:273-278 | a canonical text is uniquely decodable from the left, whatever follows it |
| CanonicalJson.QuoteDecodes | scripts/cross-runner.ts:274-277 | so is a quoted and escaped string |
| CanonicalJson.EquivalentPrintsSame | scripts/cross-runner.ts:273-278 | key order does not show |
| CanonicalJson.SortSorts | scripts/cross-runner.ts:276 | sorting distinct keys gives the same keys in increasing order of their UTF-16 code units, astral characters included |
| Values.StringLessIsUnitsLess | src/constraints/evaluator.ts:376-385 | the order of strings by characters that keys and comparisons use is the order by UTF-16 code units |
| CanonicalJson.IncreasingIsUnique | scripts/cross-runner.ts:276 | there is only one such order |
| DomainTags.ValidateDomainTag | src/commons/chain-bound-hash.ts:54-84 | accepts exactly the tags of three or more good segments, and names the first bad one |
| DomainTags.SanitizeIsIdempotent | src/commons/audit-trail-hash.ts:54-61 | sanitizing twice is sanitizing once |
| DomainTags.SanitizeOne | src/commons/audit-trail-hash.ts:54-61 | what becomes of each character |
| DomainTags.SanitizeJoins | src/commons/audit-trail-hash.ts:54-61 | character by character |
| DomainTags.GrammarsAre | src/commons/audit-trail-hash.ts:27-41 | which schema ids and versions are admitted |
| DomainTags.BuiltTagsAreTags | src/commons/audit-trail-hash.ts:81-103 | a built tag splits into exactly four good segments and validates |
| DomainTags.TagHasNoBrace | src/commons/chain-bound-hash.ts:54-84 | a valid tag has no brace, which separates it from the JSON that follows |
| AuditTrails.FieldsDetermineContent | src/commons/audit-trail-hash.ts:126-143 | hashed fields that are equal as JSON come from the same content, optional fields included |
| AuditTrails.ContentHashText | src/commons/audit-trail-hash.ts:126-143 | the very text that is hashed: tag, then actor_id, entry_id, event_type, payload and timestamp in this order, each under its own name, the optional ones only if present |
| AuditTrails.LinkText | src/commons/chain-bound-hash.ts:100-135 | the text that a link hashes: the content hash, a colon and the predecessor; and what the genesis hash is |
| AuditTrails.HashesAre | src/commons/chain-bound-hash.ts:40-41 | what counts as a hash: the prefix and 64 small hexadecimal digits |
| AuditTrails.TagSplits | src/commons/audit-trail-hash.ts:126-143 | tag plus canonical JSON splits in one way only |
| AuditTrails.SameContentHashesSame | src/commons/audit-trail-hash.ts:126-143 | the same content hashes the same whatever the key order of the payload |
| AuditTrails.LinkBinds | src/commons/chain-bound-hash.ts:100-135 | equal links have the same tag, content and predecessor, or a collision is at hand |
| AuditTrails.ChainHashIsHash | src/commons/chain-bound-hash.ts:100-135 | folding succeeds exactly for good tags, each result being accepted as the next predecessor |
| AuditTrails.HistoryIsBound | src/commons/chain-bound-hash.ts:100-135 | histories of any lengths with the same final hash are the same, or a collision is at hand; genesis is no chain hash |
| AuditTrails.SameHistoryHashesSame | src/commons/chain-bound-hash.ts:100-135 | the same history has the same final hash |
| Checkpoints.VerifyAuditTrailIntegrity | src/commons/audit-trail-hash.ts:165-212 | valid exactly if every entry hashes to its hash and names its predecessor; a failure is the first, content before link, with the hash that was expected and the one that was found |
| Checkpoints.VerifyHolds | src/commons/audit-trail-hash.ts:165-212 | the same of the specification function |
| Checkpoints.CheckpointSplitsVerification | src/commons/audit-trail-checkpoint.ts:41-154 | a trail verifies exactly when its prefix up to the checkpoint and the pruned trail do |
| Checkpoints.CheckpointRecords | src/commons/audit-trail-checkpoint.ts:41-80 | a checkpoint records the hash and index of the entry it is taken at, the last one if none is given, and keeps the rest |
| Checkpoints.NoCheckpoint | src/commons/audit-trail-checkpoint.ts:41-80 | without entries, or beyond them, there is none |
| Checkpoints.WithoutCheckpoint | src/commons/audit-trail-checkpoint.ts:91-154 | without a checkpoint continuity holds and pruning changes nothing |
| Checkpoints.ContinuityIsPrunedVerification | src/commons/audit-trail-checkpoint.ts:91-124 | the continuity check and verifying the pruned trail agree on validity, and on the whole report if and only if no entry is left or the first one links to the checkpoint; what is reported otherwise |
| Checkpoints.VerifiedTrailCheckpoints | src/commons/audit-trail-checkpoint.ts:41-154 | a verified trail stays verified through checkpointing and pruning, and passes the continuity check |
| Checkpoints.PruneTwice | src/commons/audit-trail-checkpoint.ts:136-154 | pruning at i and then at j is pruning once at i+1+j |
| Checkpoints.EntryHashDoesNotBindHistory | src/commons/audit-trail-hash.ts:126-143 | any entry can follow any verified trail under the same entry hash |
| Trees.TreeBudgetConserved | src/constraints/evaluator.ts:1405-1449 | the stack loop equals the reference walk under the budget rule |
| Trees.TreeAuthorityNarrowing | src/constraints/evaluator.ts:1457-1510 | the stack loop equals the reference walk under the scope rule |
| Trees.SumChildren | src/constraints/evaluator.ts:1436-1439 | the sum of the children's budgets, or none if one is no integer |
| Trees.PushNarrower | src/constraints/evaluator.ts:1488-1506 | pushes all children exactly if every child's scope is within the parent's, each with its own scope |
| Trees.CheckDecidesFirstVisits | src/constraints/evaluator.ts:1405-1510 | whatever the ids, true exactly if the rule holds at the nodes first visited under their id and the limits hold for all nodes taken from the stack |
| Trees.WalkDecidesTour | src/constraints/evaluator.ts:1417-1448 | the same from any state of the loop |
| Trees.CheckDecidesRule | src/constraints/evaluator.ts:1405-1510 | with distinct ids, or none at all, true exactly if the rule holds recursively at every node, within depth 10 and 100 nodes |
| Trees.GoodTreesPass | src/constraints/evaluator.ts:1405-1510 | such trees pass whatever their ids |
| Trees.WalkMeans | src/constraints/evaluator.ts:1417-1448 | from any state of the loop with distinct ids, a pass means that all that is left on the stack obeys the rule |
| Trees.WalkPasses | src/constraints/evaluator.ts:1417-1448 | from any state of the loop, good trees on the stack pass |
| Trees.DecidableNeverThrows | src/constraints/evaluator.ts:1435-1439 | only a budget that is no integer makes a check throw |
| Trees.PassedBudgetsBoundLeaves | src/constraints/evaluator.ts:1399-1404 | in a passed tree the leaves below any node spend at most that node's budget |
| Trees.PassedScopesNarrow | src/constraints/evaluator.ts:1451-1456 | in a passed tree no node has authority that an ancestor lacks |
| TreeLaws.ScopesMean | src/constraints/evaluator.ts:1488-1506 | a node obeys the rule exactly if each child lists only scopes that the node lists too, capitals and small letters being the same |
| TreeLaws.AncestorsListIt | src/constraints/evaluator.ts:1451-1456 | in a passed tree, what a node lists every ancestor lists, up to capitals |
| TreeLaws.OneScopeEach | src/constraints/evaluator.ts:1457-1510 | a parent with one scope and one child with one: the check passes exactly if the two are the same in small letters |
| TreeLaws.BudgetsMean | src/constraints/evaluator.ts:1435-1445 | a node obeys the rule exactly if its children's integers add up to no more than its own |
| TreeLaws.OneBudgetEach | src/constraints/evaluator.ts:1405-1449 | a parent and one child with integer budgets: the check passes exactly if the child's is no larger |
| TreeLaws.BadBudgetThrows | src/constraints/evaluator.ts:1435-1439 | a child whose budget is no integer makes the check throw |
| TreeLaws.DepthLimit | src/constraints/evaluator.ts:1425 | a line of nodes passes exactly up to depth 10 |
| TreeLaws.NodeLimit | src/constraints/evaluator.ts:1424-1426 | a root with a row of children passes exactly up to 100 nodes |
| Trees.RepeatedIdHidesOverspending | src/constraints/evaluator.ts:1428-1430 | a child with its parent's id passes with any overspending below it |
| GovernedResources.GovernedResource.constructor | src/commons/governed-resource-runtime.ts:177-187 | the initial state is taken as it is, at version 0 |
| GovernedResources.GovernedResource.GetInvariants | src/commons/governed-resource-runtime.ts:257-262 | invariants are defined once per resource |
| GovernedResources.GovernedResource.Verify | src/commons/governed-resource-runtime.ts:264-271 | the check of that id on the current state, or a result that does not hold |
| GovernedResources.GovernedResource.VerifyAll | src/commons/governed-resource-runtime.ts:273-279 | every check in order, up to one that throws |
| GovernedResources.GovernedResource.Transition | src/commons/governed-resource-runtime.ts:194-225 | assign, verify and commit or roll back equals one step on values |
| GovernedResources.VerifyEachAgrees | src/commons/governed-resource-runtime.ts:264-279 | what `verifyAll` reports under an id is what `verify` reports for it |
| GovernedResources.NoViolations | src/commons/governed-resource-runtime.ts:201-203 | no violation exactly if every invariant holds |
| GovernedResources.StepCommitsOrKeeps | src/commons/governed-resource-runtime.ts:194-225 | commits exactly if the event applies and every invariant holds of its outcome, and then reports the new state and version; a roll-back changes nothing and reports the old ones; a throwing check leaves the candidate and passes on what it threw |
| GovernedResources.StepReports | src/commons/governed-resource-runtime.ts:194-225 | the violations of a transition are one text for each invariant that does not hold, in the order of the map |
| GovernedResources.ViolationsAre | src/commons/governed-resource-runtime.ts:201-212 | that text: the id, a colon, and the detail or "violated" |
| GovernedResources.UnknownIsReported | src/commons/governed-resource-runtime.ts:264-271 | an id that is not in the map is reported as unknown and not holding |
| GovernedResources.RunReplaysEffects | src/commons/governed-resource-runtime.ts:194-225 | over any run, version counts the commits and the state is the fold of the events that took effect |
| GovernedResources.RunKeepsInvariants | src/commons/governed-resource-runtime.ts:194-225 | over any run, the invariants hold exactly if the last event to take effect was committed, or held at the start if none did |
| GovernedResources.CommittedStatesAreGood | src/commons/governed-resource-runtime.ts:194-225 | as long as no check throws, a positive version or a good start means that every invariant holds |
| GovernedResources.BadStartStays | src/commons/governed-resource-runtime.ts:177-187 | a bad initial state survives a transition that does not mend it |
| GovernedResources.ThrowingCheckLeavesBadState | src/commons/governed-resource-runtime.ts:194-225 | with a check that throws, a run from a good start ends in a state that does not hold, behind a version that counts a commit |
| Dampening.AlphaInRange | src/commons/feedback-dampening.ts:120-121 | the rate stays between the two, never rises with the count, and reaches both ends of the ramp |
| Dampening.Defaults | src/commons/feedback-dampening.ts:93-125 | without a configuration the rate falls from one half to one tenth over fifty samples, and ten pseudo-samples draw a first score towards one half |
| Dampening.StepIsBounded | src/commons/feedback-dampening.ts:120-124 | a step moves towards the observation by between alpha_min and alpha_max times the gap |
| Dampening.ColdStartIsBounded | src/commons/feedback-dampening.ts:112-117 | a first score is the mean of prior halves and observations, between one half and the observation |
| Dampening.RunStaysInHull | src/commons/feedback-dampening.ts:93-125 | any run stays in the hull of its start and its observations |
| Dampening.RunsDifferByFactor | src/commons/feedback-dampening.ts:93-125 | two runs on the same observations differ by a factor that depends on neither start |
| Dampening.RunsContract | src/commons/feedback-dampening.ts:93-125 | that factor lies between (1 - alpha_max)^n and (1 - alpha_min)^n |
| CanonicalRuns.ValidateCanonicalRunCR1 | src/canonical/canonical-run.ts:252-390 | reports precondition failures, element errors and the first gap, and is valid exactly without errors |
| CanonicalRuns.CheckElements | src/canonical/canonical-run.ts:310-359 | one error per malformed phase and repeated index, with the set and count of the well-shaped |
| CanonicalRuns.ValidMeansCr1 | src/canonical/canonical-run.ts:310-389 | valid exactly if every phase is well shaped and the indices are a permutation of 0..n-1 |
| CanonicalRuns.RecordsMeetCr1 | src/canonical/canonical-run.ts:310-389 | phases that carry whole numbers are reported valid exactly if these are 0, ..., n - 1 in some order |
| CanonicalRuns.ShapeErrorsAre | src/canonical/canonical-run.ts:312-348 | what is wrong with a phase, kind by kind |
| CanonicalRuns.RepeatIsReported | src/canonical/canonical-run.ts:349-359 | a repeated index is reported at its position, with that index |
| CanonicalRuns.PermutationOfRange | src/canonical/canonical-run.ts:379-388 | the pigeonhole step, negative and large indices included |
| CanonicalRuns.NoElementErrors | src/canonical/canonical-run.ts:312-359 | no element error exactly if all are well shaped and no index is repeated |
| CanonicalRuns.ErrorsAreKept | src/canonical/canonical-run.ts:225-233 | errors found in a first part stay reported whatever follows |
| CanonicalRuns.MalformedIsReported | src/canonical/canonical-run.ts:313-348 | every malformed phase is reported at its position |
| CanonicalRuns.GapIsReported | src/canonical/canonical-run.ts:379-388 | the first missing index among the well-shaped is reported, malformed phases or not |
| AdvisoryLocks.ComputeAdvisoryLockKey | src/commons/advisory-lock.ts:38-51 | the signed 32-bit loop computes unsigned FNV-1a, read as two's complement |
| AdvisoryLocks.PublishedHashes | src/commons/advisory-lock.ts:38-51 | the published FNV-1a hashes of the empty text, of `a` and of `foobar` |
| AdvisoryLocks.SignedRound | src/commons/advisory-lock.ts:45-46 | one turn of the signed loop is one unsigned round |
| AdvisoryLocks.RoundIsBijection | src/commons/advisory-lock.ts:45-46 | for each byte a round is a bijection of the state |
| AdvisoryLocks.RoundTellsBytesApart | src/commons/advisory-lock.ts:45-46 | in one state different bytes lead to different states |
| AdvisoryLocks.SuffixCancels | src/commons/advisory-lock.ts:38-51 | a common ending neither causes nor cures a collision |
| AdvisoryLocks.OneByteChangesKey | src/commons/advisory-lock.ts:38-51 | byte strings of one length that differ in one byte have different keys |

## Left out

- Values: numbers are reals, so NaN, infinities, negative zero, rounding and the text `"Infinity"` are not modelled; lone surrogates, and so texts that are no sequence of characters, are not modelled; inherited properties and an object's own `toString` are not followed; `String(v)` of nested arrays is modelled as far as it can be an integer.
- Tokenizer.Tokenize: positions count characters, so behind a character outside the basic plane, which only a quoted text can hold, they fall short of the source's by one for each.
- CanonicalJson.SortSorts: keys that contain lone surrogates are not modelled.
- CanonicalJson.QuoteDecodes: lone surrogates, and the escapes that `JSON.stringify` writes for them, are not modelled.
- Evaluator.Parser.ParsePrimary: the other registered functions (timestamps, sagas, proposals, baskets, links, model routing, `is_valid_dag`, the tree checks and so on inside an expression) are reported as outside the fragment, because they are mostly one-branch checks; the two that are not are modelled on their own in `Dag.dfy` and `Trees.dfy`.
- Evaluator.Parser.ParseFieldPath: indexing, `field[N]`, is outside the fragment, because on a value that is no array it returns before consuming a following `.rest`, so its stop position depends on the data.
- Evaluator.EvaluateConstraint: the evaluation context and `now()` are not modelled; nor is `resolveConditionalExpression`.
- Grammar.ValidateExpression: the texts of error messages are not modelled, only their kinds and positions; the same holds for the evaluator.
- Detailed.EvaluateConstraintDetailed: the texts of the errors, and the position that the source searches for in the evaluator's message, are not modelled.
- Detailed.LinkedExpressions: with lambdas that are not linked, evaluation on all data is shown one way only, since it then depends on whether any data can reach the body at fault.
- Dag.EvaluateIsValidDag: the byte length of the serialized items is a parameter; the defensive branch for an id that is not indexed is unreachable and has no counterpart; where 2·N·(1+k) exceeds the operation cap and there are five or more reference fields, a DAG may be given up on with the operation diagnostic, and then nothing is claimed.
- FactoryCounters.LawFactory.CreateBalanceConservation: the other factories, for bounds and monotonicity, are not modelled; they print fixed texts of the same language.
- CanonicalJson.CanonicalIsCanonical: values that are no JSON (`undefined`, functions, cyclic objects) are not modelled, and a JSON number stands for its printed text.
- AuditTrails.HistoryIsBound: the `canonicalize` package is taken to print the canonical form of section 3.2.3 of RFC 8785, as `canonicalJson` does; SHA-256 is a parameter of which only the digest format is known; `canonicalize` failing on a value that is no JSON is not modelled.
- Checkpoints.VerifyAuditTrailIntegrity: the lookup of the schema's default tag and the wire format of timestamps are not modelled.
- DomainTags.SanitizeIsIdempotent: `toLowerCase` is modelled on ASCII letters, the only letters the input grammars admit.
- Trees.CheckDecidesRule: `String` and `toLowerCase` are parameters; ids need only be told apart by them.
- GovernedResources.GovernedResource.Transition: the asynchronous hooks, the mutation log and the audit trail field are not modelled; an event stands for an event with its context; concurrent transitions are excluded by the source's own contract.
- Dampening.StepIsBounded: scores are reals, so rounding is not modelled; the function itself is modelled for every configuration that does not make it divide by zero, where the source gets an infinity or NaN; the bounds are claimed within the ranges of the schema.
- AdvisoryLocks.ComputeAdvisoryLockKey: UTF-8 encoding is a parameter.
- CanonicalRuns.ValidateCanonicalRunCR1: warnings are always empty and are not modelled; CR-2 and CR-3 are left to consumers by the source.
- Schema declarations, constraint data files, generators, vector scripts, the type checker, the saga transition table and the validators that only delegate: data or plumbing, with nothing to prove beyond one branch.
