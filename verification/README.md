# DuckDB: grammar matcher, list lambdas, query cleaning, serialization and time arithmetic

This project models six parts of a vendored DuckDB whose correctness does not show in any one of their
functions, and proves what they are for.

1. **The PEG matcher** (`PegGraph` … `PegCache`). Rule tokens are compiled by a stack machine into a
   cyclic graph of matchers, and two backtracking interpreters run over the graph. Proved: the
   parse-tree interpreter computes exactly the PEG relation, given as derivation trees over what each leaf
   accepts in terms of characters and keyword tables; its trees cover the tokens; both interpreters terminate when no repeated element is nullable and no matcher comes back
   to itself before a token is consumed, and on every compiled grammar whose rule trees meet that
   condition; the autocomplete interpreter never reads past the tokens and agrees with
   the parser until the tokens run out, where it suggests the leaves that can come first; compiling a printed grammar rebuilds it, recursive rules
   included, if and only if no choice is handed to a rule that extends it, and then preserves its
   meaning; the stack machine never reaches its internal errors; the matcher
   cache is safe under every interleaving.
2. **Chunked list lambdas** (`LambdaFunctions`). Streaming many lists through fixed-size chunks with
   carried state equals mapping or filtering each list, for every chunk size.
3. **The Unicode space stripper** (`UnicodeSpaces`, `UnicodePieces`). The five-state byte machine and its
   splice; every text is cut into quotes, dollar quotes, comments, spaces and other bytes, and only the
   spaces change; idempotence on every byte string.
4. **The serialization generator** (`Serialization`, `SerializationGenerator`). The emitted read program
   undoes the emitted write program for every target version; properties belong to the class that declares
   them, and a deleted member may have handed its property on. The duplicate check is exact.
5. **Timestamp arithmetic** (`IcuArithmetic`). Truncating divisions, one carry, 32-bit steps and
   unsigned casts add up as long as the calendar's doubles hold every millisecond count met; where they
   do not, the exact condition.
6. **Skip-list cleanup** (`SkipCleanup`). Rewriting a forest of configurations keeps its meaning in any
   order; for cyclic inheritance, exactly when a run does.

Code that works step by step is modelled as classes and methods with loops, each proved against a
specification function (`…F`, `Scan`, `ReadProgram`, `Sum`, `Run`, …); the theorems are lemmas about
those functions. The interpreters' specifications take a bound on the depth of recursion (`fuel`), since
a matcher graph may make them diverge; results are stated for every bound or for some sufficient one.
On well-formed graphs `PegTermination` proves that one exists for `MatchParseResult` and
`PegMatchTermination` for `Match`, so that the entry methods `ParseStatement` and `SuggestCompletions`
are total; `PegRuleTermination` states the condition on the rule trees and makes `ParseWithGrammar` total
on compiled grammars, and `PegRuleSuggest` does so for `SuggestWithGrammar`.

## Findings

Where the code departs from what its comments or its purpose suggest, the code is modelled and the
difference is stated as a lemma.

- Subtracting timestamps is one millisecond too long exactly when the later timestamp lies strictly
  inside the first millisecond after the epoch and the earlier one's microseconds are larger
  (`IcuArithmetic.SubtractionIsExact`, `IcuArithmetic.BorrowLostAtEpoch`). The comment on the borrow
  (duckdb/extension/icu/icu-dateadd.cpp:160-161) says it always works.
- The calendar keeps milliseconds in a double, and beyond 2^53 of them odd ones are lost: adding nothing
  to a timestamp gives it back exactly when its millisecond is within 2^53 or even
  (`IcuArithmetic.NothingAddedIff`, `IcuArithmetic.RoundingLosesAMillisecond`).
- Subtracting an interval is exact, and takes back adding it, exactly when its days and microseconds have a
  negation in their width (`IcuArithmetic.IntervalSubtraction`, `IcuArithmetic.SubtractUndoesAdd`,
  `IcuArithmetic.LeastIntervalIsNotUndone`); the overflowing negation is modelled as wrapping around.
- A configuration on an inheritance cycle counts its own list as inherited, so cleaning it erases the list
  (`SkipCleanup.CycleErases`, `SkipCleanup.CycleLosesMeaning`), although the script guards against
  circular inheritance. `SkipCleanup.CleanupPreservesIff` has the exact condition for one cleaning and
  `SkipCleanup.RunPreservesIff` for whole runs: each path of a processed file on a cycle is also in a file
  of the cycle that is not processed.
- A matcher that is asked a second time counts as mandatory (duckdb/extension/autocomplete/matcher.cpp:23-27),
  so that in a list `r r x` with `r` optional `x` is not suggested although it can come first. For every list
  that begins with one matcher twice, everything that can come first is suggested if and only if the matcher
  may not be passed over or what follows can come first in it as well (`PegFirst.AskedTwiceIff`).
- A matcher whose making began before an invalidation of the cache can be published and returned after it
  (`PegCache.OvertakenIsStale`, `PegCache.StaleRun`). If no thread is making one whenever the cache is
  invalidated, every call returns a matcher made since (`PegCache.QuietIsFresh`).
- `/` directly after a parameter that stands for a choice extends the argument's own choice in place
  (`PegCompiler.OrSparesItsOperand`). `f(D) <- D D / x` called with `a / b` accepts `x x`: the compiled
  grammar means what its trees say if and only if `x` is already `a` or `b`
  (`PegSharedChoice.SharingKeepsMeaningIff`). A grammar is built as its trees say if and only if, among the
  rules that its root leads to, no call hands a choice to a rule that has a `/` after its parameter,
  directly or through other calls (`PegSparing.BuiltAsWrittenIff`).
- The postfix operators apply to the last matcher of the open list
  (duckdb/extension/autocomplete/matcher.cpp:1256-1292), which after `a / b` is the whole choice. The
  compiled rule means what the operator on `b` alone means if and only if the operator is `?`
  (`PegPostfix.PostfixMeansLastIff`); on the tokens `a a`, `a / b*` and `a / b+` pass both.
- A base-class member that is a set-parameter reaches the object if and only if the derived class's
  constructor takes it (`Serialization.SerializationRoundTrip`); `Serialization.ParameterIsLost` is an
  object that loses one.

## Model

| member | source | states |
|---|---|---|
| `PegLeaves.LeafAccepts` | duckdb/extension/autocomplete/matcher.cpp:575-960 | every leaf accepts exactly the tokens it is for: keywords up to ASCII case, names by first character or quotes and by the four keyword tables, string literals with their prefixes, numbers with at most one exponent and signs only behind it, operators by their characters; it throws exactly on a second exponent |
| `PegLeaves.NumberFrom` | duckdb/extension/autocomplete/matcher.cpp:786-806 | the number loop decides the shape of the whole text from any place up to which it is a number |
| `PegLeaves.ReservedWordIsNoName` | duckdb/extension/autocomplete/matcher.cpp:592-604 | a reserved word that is in no other table is no name of any kind, but is accepted where reserved words may be names |
| `PegLeaves.PlainNamesAreAccepted` | duckdb/extension/autocomplete/matcher.cpp:448-459 | a word of none of the banning tables, and a quoted text that is not itself such a word, is a name of every kind |
| `PegLeaves.TablesSeparate` | duckdb/extension/autocomplete/matcher.cpp:592-604 | a word that is in one of the two name tables alone names functions if and only if that is the function table |
| `PegParse.FuelMono` | duckdb/extension/autocomplete/matcher.cpp:170-188 | a run that finishes within a bound has the same outcome and high-water mark within every larger one |
| `PegParse.ParseYield` | duckdb/extension/autocomplete/matcher.cpp:63-75 | the leaf offsets of a successful run's tree, left to right through all node kinds, are the offsets of the tokens from start to end, each once |
| `PegRelation.LeafRuleIs` | duckdb/extension/autocomplete/matcher.cpp:575-960 | the leaf tests compute the relation's rule for leaves, which is stated over characters and tables |
| `PegRelation.Sound` | duckdb/extension/autocomplete/matcher.cpp:170-188 | every finished run of the parse-tree interpreter has a valid derivation with the same outcome |
| `PegRelation.Complete` | duckdb/extension/autocomplete/matcher.cpp:373-411 | every valid derivation is reached by a run with some bound |
| `PegRelation.ParseComputesPeg` | duckdb/extension/autocomplete/matcher.cpp:170-411 | for every graph, recursive or not, and every token list: the interpreter finishes with an outcome if and only if the PEG relation (sequence, first-match choice, option, greedy one-or-more) derives it |
| `PegRelation.PegDeterministic` | duckdb/extension/autocomplete/matcher.cpp:294-310 | a matcher has at most one outcome at a token |
| `PegRelation.PegYield` | duckdb/extension/autocomplete/matcher.cpp:469-491 | every success of the relation covers the tokens from its start to its end, each exactly once and in order |
| `PegRelation.TreeStarts` | duckdb/extension/autocomplete/matcher.cpp:170-188 | a tree that covers a token says that it starts at the offset of its first leaf |
| `PegTermination.EmptyMatchIsNullable` | duckdb/extension/autocomplete/matcher.cpp:242-256 | a matcher that succeeds without consuming a token is nullable |
| `PegTermination.RunFinishes` | duckdb/extension/autocomplete/matcher.cpp:178-184 | from any left-call path of a well-formed graph the interpreter finishes, by tokens left and then room left on the path |
| `PegTermination.WellFormedTerminates` | duckdb/extension/autocomplete/matcher.cpp:392-407 | if no repeated element is nullable and no left-call cycle exists, every matcher has an outcome at every token of every token list |
| `PegTermination.EmptyRepeatDiverges` | duckdb/extension/autocomplete/matcher.cpp:392-407 | a repeat whose element succeeds on an existing token without consuming it finishes within no bound |
| `PegTermination.LeftRecursionDiverges` | duckdb/extension/autocomplete/matcher.cpp:170-188 | matchers that call one another first of all, directly or mutually, finish within no bound |
| `PegMatch.MatchNeverCrashes` | duckdb/extension/autocomplete/matcher.cpp:119-168 | entered on a list, or on an existing token, no run of any graph on any token list reads past the tokens |
| `PegMatch.LeafAtEnd` | duckdb/extension/autocomplete/matcher.cpp:88-92 | entered at the end of the tokens, keyword and string leaves fail and the others read past it |
| `PegMatch.SuppressedListSuggestsNothing` | duckdb/extension/autocomplete/matcher.cpp:119-168 | a list that suppresses suggestions leaves the suggestions as they were, in a match and when asked for its own |
| `PegMatch.MatchAgreesWithParse` | duckdb/extension/autocomplete/matcher.cpp:230-371 | while the tokens are not exhausted, `Match` and `MatchParseResult` agree on the verdict, the final token index, the high-water mark and the bound they need |
| `PegMatch.MatchDecidesPeg` | duckdb/extension/autocomplete/matcher.cpp:119-168 | a `Match` run that does not exhaust the tokens decides the PEG relation |
| `PegFirst.SuggestionsComeFirst` | duckdb/extension/autocomplete/matcher.cpp:190-202 | for every graph: asking a list suggests only leaves that can come first in it - through every alternative, the child of an option or repeat, and in lists behind children that may be passed over - each once, and counts as optional only if all of it may be passed over |
| `PegFirst.SuggestsExactly` | duckdb/extension/autocomplete/matcher.cpp:190-317 | if no matcher that may be passed over can come first in two places, the suggestions are exactly the leaves that can come first, and the verdict is exact |
| `PegFirst.AskedTwiceIff` | duckdb/extension/autocomplete/matcher.cpp:23-30 | for a list that begins with one matcher twice, all that can come first is suggested if and only if the matcher may not be passed over or what follows can come first in it as well |
| `PegOffers.RunOffers` | duckdb/extension/autocomplete/matcher.cpp:119-371 | a run of `Match` suggests all that can come first wherever it comes to the end of the tokens, in failed alternatives and options too, if nothing was asked there before and nothing is met twice |
| `PegOffers.SuggestedAtEnd` | duckdb/extension/autocomplete/matcher.cpp:119-371 | every suggestion of a run can come first at a place where the run came to the end of the tokens, outside suppressing lists |
| `PegOffers.ExhaustedList` | duckdb/extension/autocomplete/matcher.cpp:125-149 | a list entered at the end of the tokens suggests exactly what can come first, each once, and succeeds if and only if all its children may be passed over |
| `PegOffers.ExhaustedRepeat` | duckdb/extension/autocomplete/matcher.cpp:353-371 | a repeat that has come to the end of the tokens succeeds, suggests its element once more and remembers what it asked |
| `PegMatchTermination.EmptySuccessIsNullable` | duckdb/extension/autocomplete/matcher.cpp:119-168 | a `Match` success that consumes nothing before the end of the tokens is of a nullable matcher |
| `PegMatchTermination.MatchTerminates` | duckdb/extension/autocomplete/matcher.cpp:119-371 | on a well-formed graph `Match` finishes without a crash from every list and from every matcher entered on an existing token, also when the tokens run out |
| `PegEngine.MatchState.Advance` | duckdb/extension/autocomplete/include/matcher.hpp:135-139 | moving to the next token raises the shared high-water mark to it |
| `PegEngine.MatchParseResult` | duckdb/extension/autocomplete/matcher.cpp:63-75 | the imperative interpreter realises its specification; a failed call leaves the token index unchanged |
| `PegEngine.ParseList` | duckdb/extension/autocomplete/matcher.cpp:170-188 | the loop over a copied state returns the specified tree and commits the index only on success |
| `PegEngine.ParseOptional` | duckdb/extension/autocomplete/matcher.cpp:242-256 | the option succeeds at the child's end or where it started |
| `PegEngine.ParseChoice` | duckdb/extension/autocomplete/matcher.cpp:294-310 | the loop commits the first alternative that succeeds |
| `PegEngine.ParseRepeat` | duckdb/extension/autocomplete/matcher.cpp:373-391 | a repeat fails with its first element, else goes on greedily |
| `PegEngine.ParseMore` | duckdb/extension/autocomplete/matcher.cpp:392-411 | the repeat loop stops at the end of the tokens or at the first failure and keeps the last committed index |
| `PegEngine.ParseFinishing` | duckdb/extension/autocomplete/transformer/peg_transformer_factory.cpp:38-41 | a run that finishes returns the relation's only outcome; its tree yields the tokens passed over, and a failure leaves the index |
| `PegEngine.ParseStatement` | duckdb/extension/autocomplete/transformer/peg_transformer_factory.cpp:38-41 | the same on every well-formed graph, without assuming that the run finishes |
| `PegEngine.AddSuggestion` | duckdb/extension/autocomplete/matcher.cpp:23-30 | suggestions and the set of matchers already asked follow the specification; it terminates on cyclic graphs |
| `PegEngine.SuggestUntilMandatory` | duckdb/extension/autocomplete/matcher.cpp:190-202 | children are asked up to the first mandatory one |
| `PegEngine.SuggestEach` | duckdb/extension/autocomplete/matcher.cpp:312-317 | every alternative is asked |
| `PegEngine.Match` | duckdb/extension/autocomplete/matcher.cpp:119-371 | for a run that finishes within the given bound - `MatchTerminates` provides one - verdict, committed state, suggestions and high-water mark follow the specification, with an existing token wherever a matcher other than a list is entered |
| `PegEngine.MatchList` | duckdb/extension/autocomplete/matcher.cpp:119-168 | the list loop, its exhaustion and its suppression of suggestions follow the specification |
| `PegEngine.MatchExhausted` | duckdb/extension/autocomplete/matcher.cpp:125-149 | a list that runs out of tokens suggests what could follow, and succeeds only if nothing mandatory is left |
| `PegEngine.MatchOptional` | duckdb/extension/autocomplete/matcher.cpp:230-240 | the option commits the child's index on success and keeps its suggestions either way |
| `PegEngine.MatchChoice` | duckdb/extension/autocomplete/matcher.cpp:281-292 | the first alternative that succeeds is committed; suggestions of failed ones stay |
| `PegEngine.MatchRepeat` | duckdb/extension/autocomplete/matcher.cpp:342-352 | a repeat fails with its first element |
| `PegEngine.MatchMore` | duckdb/extension/autocomplete/matcher.cpp:353-371 | the loop commits after each element, and at the end of the tokens asks the element for suggestions |
| `PegEngine.SuggestFinishing` | duckdb/extension/autocomplete/autocomplete_core.cpp:328-329 | a `Match` run that finishes is the specified one; unless the tokens were exhausted its verdict and token index are the PEG relation's, and entered at their end it suggests exactly the leaves that can come first |
| `PegEngine.SuggestCompletions` | duckdb/extension/autocomplete/autocomplete_core.cpp:328-329 | the same on every well-formed graph, without assuming that the run finishes |
| `PegCompiler.AddMatcherGood` | duckdb/extension/autocomplete/matcher.cpp:1125-1147 | on a well-formed stack adding a matcher always succeeds and keeps the stack well formed: a list at the bottom, only lists and choices, no two adjacent choices |
| `PegCompiler.PostfixGood` | duckdb/extension/autocomplete/matcher.cpp:1256-1292 | `?`, `*` and `+` keep the store and the stack well formed or report a user error |
| `PegCompiler.OrOperatorGood` | duckdb/extension/autocomplete/matcher.cpp:1293-1318 | `/` pushes one choice on a list and keeps the invariant, or reports a user error |
| `PegCompiler.OpenListGood` | duckdb/extension/autocomplete/matcher.cpp:1319-1324 | an opening bracket keeps the invariant |
| `PegCompiler.CreateF` | duckdb/extension/autocomplete/matcher.cpp:1195-1349 | for every token sequence, even an ill-formed one: compiling terminates, ends in a closed, only grown graph with the rule cached under its root, or in an error that is not an internal one |
| `PegCompiler.RunF` | duckdb/extension/autocomplete/matcher.cpp:1228-1346 | the token loop keeps the stack invariant and the bottom entry from any well-formed stack |
| `PegCompiler.CloseF` | duckdb/extension/autocomplete/matcher.cpp:1158-1187 | closing a bracket or a call keeps the invariant; calls terminate by rank |
| `PegCompiler.OrSparesItsOperand` | duckdb/extension/autocomplete/matcher.cpp:1303-1316 | the matcher before `/` is left as it was if and only if it is neither a choice nor the open list itself |
| `PegRuleProofs.CompileElem` | duckdb/extension/autocomplete/matcher.cpp:1228-1346 | running the printed tokens of an element appends one matcher to the open list, which represents the element |
| `PegRuleProofs.CompileAlt` | duckdb/extension/autocomplete/matcher.cpp:1293-1318 | a printed choice, with any number of alternatives, becomes one flat choice |
| `PegRuleProofs.CompileCall` | duckdb/extension/autocomplete/matcher.cpp:1170-1186 | a printed call becomes the called rule's body with its parameter replaced by the arguments |
| `PegRuleProofs.CompileRule` | duckdb/extension/autocomplete/matcher.cpp:1195-1217 | a rule in the cache is returned as it is; any other is built once, and old matchers are left alone |
| `PegRuleProofs.CompileGrammar` | duckdb/extension/autocomplete/matcher.cpp:1195-1349 | printing a well-formed grammar whose rules in use hand no choice to a rule with `/` after its parameter, and compiling its root, succeeds with the root alone on the stack; on return every cached rule is fully built as its tree says, rules handed out half filled included, and all rules it mentions are cached |
| `PegRuleProofs.BangIsIgnored` | duckdb/extension/autocomplete/matcher.cpp:1329-1334 | rule tokens with and without `!` compile alike, errors included |
| `PegSparing.FlatCreate` | duckdb/extension/autocomplete/matcher.cpp:1303-1316 | whatever tokens are compiled, no choice comes to begin with another choice |
| `PegSparing.RepIsFirm` | duckdb/extension/autocomplete/matcher.cpp:1170-1186 | where no choice begins with a choice, an element that is built as written hands no choice to a rule that extends its parameter |
| `PegSparing.BuiltAsWrittenIff` | duckdb/extension/autocomplete/matcher.cpp:1195-1349 | for every well-formed grammar: compiling the root builds every rule it caches as its tree says if and only if, among the rules the root leads to, none that has a `/` after its parameter, directly or through calls, is handed a choice |
| `PegMeaning.CompilingPreservesMeaning` | duckdb/extension/autocomplete/matcher.cpp:1195-1349 | running the compiled root recognises exactly what the rule trees mean, read directly with parameters bound by name, for every token list, token and bound |
| `PegSharedChoice.CompileSharing` | duckdb/extension/autocomplete/matcher.cpp:1293-1318 | the graph that compiling `f(D) <- D D / x`, `r <- f(a / b)` ends in: the argument's choice has gained `x` for both its uses |
| `PegSharedChoice.SharingIsNotSparing` | duckdb/extension/autocomplete/matcher.cpp:1303-1306 | that grammar is one that `Sparing` shuts out |
| `PegSharedChoice.SharingKeepsMeaningIff` | duckdb/extension/autocomplete/matcher.cpp:1303-1306 | its compiled form and its rule trees agree on all token lists if and only if `x` is `a` or `b` |
| `PegRuleTermination.ElemEnds` | duckdb/extension/autocomplete/matcher.cpp:170-411 | every reading of a progressive grammar's element finishes; a success goes forward and stays only if the element is nullable |
| `PegRuleTermination.CompiledGrammarTerminates` | duckdb/extension/autocomplete/matcher.cpp:1195-1349 | if, on the rule trees, no repeated element is nullable and rules entered at their first token come in an order, the interpreter finishes on the compiled grammar for every token list, with the trees' meaning |
| `PegRuleTermination.ParseWithGrammar` | duckdb/extension/autocomplete/transformer/peg_transformer_factory.cpp:38-41 | parsing with a compiled progressive grammar is total: the relation's only outcome, equal to the trees' meaning, with a tree over exactly the tokens passed |
| `PegRuleSuggest.ElemMatches` | duckdb/extension/autocomplete/matcher.cpp:119-371 | on a compiled progressive grammar `Match` finishes on every element's matcher, also when the tokens run out; a success that consumes nothing is of a nullable element |
| `PegRuleSuggest.CompiledGrammarSuggests` | duckdb/extension/autocomplete/matcher.cpp:1195-1349 | `Match` finishes on the compiled root of a progressive grammar for every token list and state |
| `PegRuleSuggest.SuggestWithGrammar` | duckdb/extension/autocomplete/autocomplete_core.cpp:328-329 | autocompletion with a compiled progressive grammar is total: the run is the specified one, and unless the tokens were exhausted its verdict and token index are the PEG relation's |
| `PegPostfix.WholeTokens` | duckdb/extension/autocomplete/matcher.cpp:1256-1292 | the rule tree with the operator on the whole choice has the tokens `a / b` followed by the operator |
| `PegPostfix.CompiledWhole` | duckdb/extension/autocomplete/matcher.cpp:1256-1292 | the compiled rule agrees with the operator on `b` alone at a token exactly when the operator on the whole choice does |
| `PegPostfix.PostfixMeansLastIff` | duckdb/extension/autocomplete/matcher.cpp:1256-1292 | for all keywords: the compiled rule means what the operator on `b` alone means, at every token of every token list, if and only if the operator is `?` |
| `PegFactory.MatcherFactory.CreateMatcher` | duckdb/extension/autocomplete/matcher.cpp:1195-1349 | the imperative factory leaves the store and returns the matcher or error of `CreateF`, and terminates by uncached rules, rank and tokens left |
| `PegFactory.MatcherFactory.Fill` | duckdb/extension/autocomplete/matcher.cpp:1228-1346 | the token loop follows `RunF` |
| `PegFactory.MatcherFactory.CloseBracket` | duckdb/extension/autocomplete/matcher.cpp:1158-1187 | closing a bracket or call follows `CloseF` |
| `PegFactory.MatcherFactory.AddTo` | duckdb/extension/autocomplete/matcher.cpp:1125-1147 | the open list or choice gains the matcher; a choice is popped |
| `PegFactory.MatcherFactory.ApplyPostfix` | duckdb/extension/autocomplete/matcher.cpp:1256-1292 | the last matcher of the open list is wrapped in place |
| `PegFactory.MatcherFactory.ApplyOr` | duckdb/extension/autocomplete/matcher.cpp:1293-1318 | a choice is opened over the last matcher, or reopened |
| `PegCache.StepKeepsExclusive` | duckdb/extension/autocomplete/matcher.cpp:1413-1442 | in every step exactly the lock holder is in a critical section |
| `PegCache.StepKeepsComplete` | duckdb/extension/autocomplete/matcher.cpp:1419-1436 | only fully built matchers are published, and a matcher is there when it is read for returning |
| `PegCache.StepKeepsLog` | duckdb/extension/autocomplete/matcher.cpp:1413-1442 | returns logged since the last invalidation carry the cached object |
| `PegCache.StepKeepsOwn` | duckdb/extension/autocomplete/matcher.cpp:1413-1436 | a matcher in the making belongs to one thread, is not in the cache and was never returned |
| `PegCache.StepKeepsApart` | duckdb/extension/autocomplete/matcher.cpp:1439-1442 | what was returned before an invalidation is neither in the cache nor returned after it |
| `PegCache.QuietIsFresh` | duckdb/extension/autocomplete/matcher.cpp:1413-1442 | if no thread is making a matcher whenever the cache is invalidated, every call returns one whose making began after the last invalidation |
| `PegCache.OvertakenIsStale` | duckdb/extension/autocomplete/matcher.cpp:1432-1442 | if a thread is, the run can go on so that the next call returns a matcher older than the invalidation |
| `PegCache.StaleRun` | duckdb/extension/autocomplete/matcher.cpp:1413-1442 | the concrete run of two threads |
| `PegCache.CacheIsSafe` | duckdb/extension/autocomplete/matcher.cpp:1413-1442 | for every interleaving of any number of calls: mutual exclusion, never a null result, only complete matchers, and two calls return the same object if and only if no invalidation lies between them |
| `LambdaFunctions.RowInputIs` | duckdb/extension/core_functions/lambda_functions.cpp:319-340 | element k of row r is read at the row's own offset, with the position k + 1 if the lambda has an index, and with each captured column's single value or its value in row r; NULL rows have no elements |
| `LambdaFunctions.KeptSelects` | duckdb/extension/core_functions/lambda_functions.cpp:104-159 | filtering keeps the elements for which the predicate holds, all of them and in order |
| `LambdaFunctions.FilteredRowIs` | duckdb/extension/core_functions/lambda_functions.cpp:125-129 | a filtered row has the elements for which the lambda's value is valid and true, in order |
| `LambdaFunctions.MappedRowIs` | duckdb/extension/core_functions/lambda_functions.cpp:75-85 | a transformed row has the lambda's value for each element, in order |
| `LambdaFunctions.RowSlice` | duckdb/extension/core_functions/lambda_functions.cpp:297-340 | a row's inputs are the slice of all inputs between its start and the next row's |
| `LambdaFunctions.SkipEmptyLists` | duckdb/extension/core_functions/lambda_functions.cpp:119-123 | empty lists in front are entered and the carried state stays sound |
| `LambdaFunctions.CountElement` | duckdb/extension/core_functions/lambda_functions.cpp:126-145 | one more element keeps the carried counters equal to the processed and kept elements of the row in progress, and enters the row when it is complete |
| `LambdaFunctions.AppendFiltered` | duckdb/extension/core_functions/lambda_functions.cpp:104-159 | one chunk: the row index stays in bounds, the state is sound after it, and the child vector is the filtered inputs so far |
| `LambdaFunctions.PushLength` | duckdb/extension/core_functions/lambda_functions.cpp:94-102 | a further source list keeps the carried state |
| `LambdaFunctions.Chunk.InputAt` | duckdb/extension/core_functions/lambda_functions.cpp:183-214 | the input built from the chunk's own selection and index vectors is the one that the element of that row is to have |
| `LambdaFunctions.Chunk.Execute` | duckdb/extension/core_functions/lambda_functions.cpp:183-217 | a chunk is evaluated on its elements, indexes and captured values in order, each execution on record in the executor's trace |
| `LambdaFunctions.StreamRow` | duckdb/extension/core_functions/lambda_functions.cpp:319-344 | the elements of one list pass through the chunk once, in order, flushing when it is full |
| `LambdaFunctions.BeginRow` | duckdb/extension/core_functions/lambda_functions.cpp:300-317 | NULL rows are marked and get no elements; the functor is told each length |
| `LambdaFunctions.FilterCuts` | duckdb/extension/core_functions/lambda_functions.cpp:104-159 | the entry of a row cuts out of the filtered child vector exactly that row's filtered list |
| `LambdaFunctions.TransformCuts` | duckdb/extension/core_functions/lambda_functions.cpp:75-85 | the entry of a row cuts out of the mapped child vector exactly that row's mapped list |
| `LambdaFunctions.AllEntered` | duckdb/extension/core_functions/lambda_functions.cpp:115-152 | after the last flush the row index is the row count, both counters are zero and every row is entered |
| `LambdaFunctions.ExecuteLambda` | duckdb/extension/core_functions/lambda_functions.cpp:271-356 | for every chunk size, mix of NULL, empty and long lists and three-valued predicate: the executor's trace is exactly the rows' inputs in order - each element once, with its 1-based index and its row's captured values - and the result is per row; NULL rows are exactly the invalid ones |
| `LambdaFunctions.ResultIsCorrect` | duckdb/extension/core_functions/lambda_functions.cpp:346-352 | when all inputs are flushed the child vector is the concatenation of the per-row results and each entry cuts out its own row |
| `UnicodeSpaces.StripUnicodeSpaces` | duckdb/extension/autocomplete/autocomplete_core.cpp:185-292 | the machine terminates, reports whether a span was found, and returns the cleaned text |
| `UnicodeSpaces.TakeTurn` | duckdb/extension/autocomplete/autocomplete_core.cpp:185-292 | each pass of the five states jumps as the turn function says |
| `UnicodeSpaces.ReplaceUnicodeSpaces` | duckdb/extension/autocomplete/autocomplete_core.cpp:157-170 | the loop splices one space for each span |
| `UnicodePieces.SpaceIsReplaced` | duckdb/extension/autocomplete/autocomplete_core.cpp:195-230 | the UTF-8 form of a listed code point, two bytes after its first, is recorded and becomes one 0x20 |
| `UnicodePieces.PieceIsKept` | duckdb/extension/autocomplete/autocomplete_core.cpp:231-287 | quoted text up to the first quote that is not doubled, a comment up to the end of its line, what a dollar sign opens up to its closing delimiter, and every other byte are kept as they are and hold no span |
| `UnicodePieces.PieceExists` | duckdb/extension/autocomplete/autocomplete_core.cpp:185-287 | every text begins with a space or with one of those pieces |
| `UnicodePieces.StripsSpaces` | duckdb/extension/autocomplete/autocomplete_core.cpp:185-292 | however a text is cut into pieces: the recorded spans are exactly the spaces between the other pieces, and the cleaned text is the pieces with one space for each |
| `UnicodePieces.SpansAreOccurrences` | duckdb/extension/autocomplete/autocomplete_core.cpp:185-292 | in a text without quotes, dollar signs and double dashes the spans are exactly the occurrences of the listed code points that have two bytes after their first |
| `UnicodeSpaces.SpaceIsSkipped` | duckdb/extension/autocomplete/autocomplete_core.cpp:195-230 | the bytes inside a recorded span start nothing of their own |
| `UnicodeSpaces.SpansOrdered` | duckdb/extension/autocomplete/autocomplete_core.cpp:185-292 | recorded spans are increasing, disjoint, two or three bytes long and in bounds |
| `UnicodeSpaces.SplicedIsCleaned` | duckdb/extension/autocomplete/autocomplete_core.cpp:157-170 | splicing the recorded spans is the one-pass cleaning of the text |
| `UnicodeSpaces.StripLength` | duckdb/extension/autocomplete/autocomplete_core.cpp:157-170 | the text shrinks by the sum of bytes - 1 over the spans |
| `UnicodeSpaces.NothingLeft` | duckdb/extension/autocomplete/autocomplete_core.cpp:185-292 | from every lexical state, a run on cleaned text records no span |
| `UnicodeSpaces.StripIdempotent` | duckdb/extension/autocomplete/autocomplete_core.cpp:185-292 | a second run records nothing and changes nothing |
| `Serialization.CanWriteIff` | duckdb/scripts/generate_serialization.py:506-543 | the element refers to the member's property unless the member was dropped for good, when it is but a remark: such objects need no longer have the property |
| `Serialization.CarriedIff` | duckdb/scripts/generate_serialization.py:530-541 | an existing member is in the stream from the version that brought it on, a dropped one before the version that dropped it |
| `Serialization.NewerTargets` | duckdb/scripts/generate_serialization.py:530-541 | a newer target carries every existing member that an older one does, and no dropped member that the older one does not |
| `Serialization.DefaultIs` | duckdb/scripts/generate_serialization.py:506-522 | a default given with the member goes before that of its type |
| `Serialization.ElementWrites` | duckdb/scripts/generate_serialization.py:506-543 | a member writes its one field exactly when its version covers it and it is not a skipped default |
| `Serialization.ElementRoundTrip` | duckdb/scripts/generate_serialization.py:222-258 | reading one member back succeeds if and only if it was carried, has a default or is deleted, and gives its value |
| `Serialization.MembersRoundTrip` | duckdb/scripts/generate_serialization.py:736-769 | a sequence of members with distinct ids is read back one by one, leaving the rest of the stream |
| `Serialization.ClassRoundTrip` | duckdb/scripts/generate_serialization.py:668-773 | a class's read program succeeds exactly when every member without a default is carried; then it restores every existing member, those read before the constructor included, and passes exactly the base parameters its constructor takes; nothing else is in the object, so deleted members are dropped, also one whose property another member took over |
| `Serialization.SerializationRoundTrip` | duckdb/scripts/generate_serialization.py:557-645 | base then derived: the same for the whole object; a base member is in it if and only if it exists and is plain or a set-parameter that the constructor takes, and then has its value; properties of base and derived class may share a name |
| `Serialization.ReusedIsSound` | duckdb/src/include/duckdb/storage/serialization/create_info.json:88-127 | a class with a deleted member whose property its replacement has, and with a property named like the base class's tag, meets the round trip's conditions |
| `Serialization.ReusedRoundTrip` | duckdb/src/include/duckdb/storage/serialization/create_info.json:88-127 | for every target version and all values such an object comes back with exactly its two properties |
| `Serialization.ParameterIsLost` | duckdb/scripts/generate_serialization.py:598-608 | a concrete base, class and object whose set-parameter is written, read and missing from the result |
| `SerializationGenerator.WritesRun` | duckdb/scripts/generate_serialization.py:736-769 | running the emitted write program leaves the members' stream |
| `SerializationGenerator.ConstructorCall` | duckdb/scripts/generate_serialization.py:676-717 | the nested loops find the constructor's arguments and its last member, or stop on an unknown name |
| `SerializationGenerator.GenerateClassCode` | duckdb/scripts/generate_serialization.py:668-773 | the loops emit the write and read programs of the round trip, and stop exactly on an unknown constructor name or a read-only member without a default |
| `SerializationGenerator.GenerateBaseCode` | duckdb/scripts/generate_serialization.py:557-645 | the base class's three programs: writes, reads with parameters, final assignments |
| `SerializationGenerator.CheckChildrenForDuplicateMembers` | duckdb/scripts/generate_serialization.py:808-826 | the recursion with copied sets accepts as specified |
| `SerializationGenerator.AcceptsIffDistinct` | duckdb/scripts/generate_serialization.py:808-826 | a class tree is accepted if and only if no walk from the root down repeats a member name or id |
| `SerializationGenerator.AcceptedPair` | duckdb/scripts/generate_serialization.py:808-826 | an accepted base and any derived class have distinct ids and distinct names together, as the round trip asks of them |
| `IcuArithmetic.DoublesAreFaithful` | duckdb/extension/icu/icu-datefunc.cpp:105-110 | rounding to the nearest double keeps every millisecond count up to 2^53 and lets no other in among them |
| `IcuArithmetic.CalendarAddHour` | duckdb/extension/icu/icu-dateadd.cpp:47-65 | any 64-bit number of hours is added in steps that fit 32 bits, as `Hours` specifies |
| `IcuArithmetic.HoursAddUp` | duckdb/extension/icu/icu-dateadd.cpp:47-65 | between representable times the steps add up to exactly the hours |
| `IcuArithmetic.AddInterval` | duckdb/extension/icu/icu-dateadd.cpp:68-133 | the step-by-step addition computes `Sum`, errors included |
| `IcuArithmetic.AddParts` | duckdb/extension/icu/icu-dateadd.cpp:96-130 | the parts move the calendar as specified in either order |
| `IcuArithmetic.SubDayAddsUp` | duckdb/extension/icu/icu-dateadd.cpp:96-130 | between representable times the units of the sub-day part add up in either order |
| `IcuArithmetic.AdditionIsExact` | duckdb/extension/icu/icu-dateadd.cpp:68-133 | while the calendar's milliseconds stay within 2^53 - where it is set, in the middle and at the end - the sum without months is exactly timestamp + days + microseconds; infinite timestamps stay |
| `IcuArithmetic.SubDayAddition` | duckdb/extension/icu/icu-dateadd.cpp:68-133 | adding microseconds of either sign between timestamps within 2^53 - 4 milliseconds gives exactly the sum |
| `IcuArithmetic.NothingAddedIff` | duckdb/extension/icu/icu-datefunc.cpp:105-110 | on doubles, adding nothing to any timestamp in range gives it back if and only if its millisecond is within 2^53 or even |
| `IcuArithmetic.RoundingLosesAMillisecond` | duckdb/extension/icu/icu-datefunc.cpp:105-110 | the concrete loss at 2^53 + 1 milliseconds |
| `IcuArithmetic.RangeChecksAreExact` | duckdb/extension/icu/icu-dateadd.cpp:68-133 | on a calendar of exact integers the result is the sum, or an error exactly outside the stated range condition |
| `IcuArithmetic.RangeOfSubDayAddition` | duckdb/extension/icu/icu-dateadd.cpp:68-133 | on such a calendar adding microseconds to a timestamp in range succeeds if and only if the sum is in range |
| `IcuArithmetic.SubtractInterval` | duckdb/extension/icu/icu-dateadd.cpp:140-144 | subtracting an interval computes `Less` |
| `IcuArithmetic.NegatedIs` | duckdb/extension/icu/icu-dateadd.cpp:142-142 | each part of the negated interval is the negation, or the least number of its width again |
| `IcuArithmetic.SumModulo` | duckdb/extension/icu/icu-dateadd.cpp:76-86 | whatever the calendar does, the microseconds below the millisecond add up |
| `IcuArithmetic.IntervalSubtraction` | duckdb/extension/icu/icu-dateadd.cpp:140-144 | while the calendar stays representable, timestamp - interval is exactly the difference for days and microseconds of any sign if and only if both have a negation |
| `IcuArithmetic.MonthsInOrder` | duckdb/extension/icu/icu-dateadd.cpp:96-130 | with months: the calendar moves by its own rule before the days, after the sub-day part if a part is negative and before it otherwise, and the sum is exact around that |
| `IcuArithmetic.MonthsAlone` | duckdb/extension/icu/icu-dateadd.cpp:96-144 | months alone: adding moves the calendar forward by them and subtracting moves it back, unless they have no negation |
| `IcuArithmetic.InfinityStays` | duckdb/extension/icu/icu-dateadd.cpp:69-71 | no interval moves the two infinite timestamps |
| `IcuArithmetic.InfiniteDifference` | duckdb/extension/icu/icu-dateadd.cpp:147-149 | a difference is an error exactly if one of the timestamps is infinite |
| `IcuArithmetic.SubtractUndoesAdd` | duckdb/extension/icu/icu-dateadd.cpp:140-144 | subtracting an interval of microseconds takes back adding it if and only if the microseconds are not the least 64-bit number |
| `IcuArithmetic.LeastIntervalIsNotUndone` | duckdb/extension/icu/icu-dateadd.cpp:140-144 | the concrete failure: the least interval on a timestamp of 10^18 microseconds |
| `IcuArithmetic.LastCheck` | duckdb/extension/icu/icu-datefunc.cpp:102-125 | taking the time out of the calendar succeeds exactly in the stated range, also with a negative carry |
| `IcuArithmetic.SetTime` | duckdb/extension/icu/icu-datefunc.cpp:134-149 | the calendar is set to the floor in milliseconds, as it stores them, with 0 to 999 microseconds left |
| `IcuArithmetic.SubtractField` | duckdb/extension/icu/icu-datefunc.cpp:160-169 | the whole units toward the truncated end, by which the calendar advances |
| `IcuArithmetic.SubtractForward` | duckdb/extension/icu/icu-dateadd.cpp:155-180 | borrow, five field differences and unsigned casts compute `Forward` |
| `IcuArithmetic.SubtractTimestamps` | duckdb/extension/icu/icu-dateadd.cpp:146-180 | infinite timestamps are an error; a later start gives the negated interval |
| `IcuArithmetic.FieldsAddUp` | duckdb/extension/icu/icu-dateadd.cpp:167-175 | between representable times days, hours, minutes, seconds and milliseconds, each taken off the rest, add up again |
| `IcuArithmetic.ForwardIsExact` | duckdb/extension/icu/icu-dateadd.cpp:155-180 | between representable times days and microseconds add up to end - start, plus one millisecond in exactly the lost-borrow family |
| `IcuArithmetic.SubtractionIsExact` | duckdb/extension/icu/icu-dateadd.cpp:146-180 | between representable times the difference is exact if and only if no borrow is lost |
| `IcuArithmetic.NoBorrowLost` | duckdb/extension/icu/icu-dateadd.cpp:157-165 | a start at or after the epoch, or an end outside its first millisecond, is exact |
| `IcuArithmetic.BorrowLostAtEpoch` | duckdb/extension/icu/icu-dateadd.cpp:157-165 | the concrete failure: 1 µs minus -1 µs gives 1002 µs |
| `IcuArithmetic.ForwardParts` | duckdb/extension/icu/icu-dateadd.cpp:167-179 | bounds of the parts; the days fit 32 bits |
| `IcuArithmetic.AddUndoesSubtract` | duckdb/extension/icu/icu-dateadd.cpp:146-180 | for timestamps within 2^53 - 4 milliseconds, start + (end - start) is end if and only if the difference is exact |
| `SkipCleanup.Repository.GetInheritedSkipTests` | duckdb/scripts/cleanup_config_skip_tests.py:27-63 | the recursion with its visited set terminates and computes `Inherited` |
| `SkipCleanup.InheritedIsAncestors` | duckdb/scripts/cleanup_config_skip_tests.py:27-63 | it collects exactly the lists of all ancestors, on cyclic inheritance too |
| `SkipCleanup.FilterGroups` | duckdb/scripts/cleanup_config_skip_tests.py:85-106 | the loop keeps what is left of each group and tells whether anything was removed |
| `SkipCleanup.CleanIs` | duckdb/scripts/cleanup_config_skip_tests.py:66-124 | cleaning removes exactly the inherited paths and is idempotent |
| `SkipCleanup.GroupsSurvive` | duckdb/scripts/cleanup_config_skip_tests.py:85-106 | the groups left over are, in order, those that have no paths or one that is not inherited, each with its other keys and with its paths that are not inherited, in order and as often as they occur |
| `SkipCleanup.CleanLeaves` | duckdb/scripts/cleanup_config_skip_tests.py:66-124 | the same for a configuration that lists an inherited path, whose list goes when no group is left; any other configuration is left as it is |
| `SkipCleanup.PathlessKept` | duckdb/scripts/cleanup_config_skip_tests.py:87-90 | groups without paths are kept in order |
| `SkipCleanup.Repository.CleanupConfig` | duckdb/scripts/cleanup_config_skip_tests.py:66-124 | the file is rewritten as specified exactly when it lists an inherited path and it is no dry run |
| `SkipCleanup.CleanupPreservesIff` | duckdb/scripts/cleanup_config_skip_tests.py:66-124 | cleaning one configuration keeps what every configuration skips if and only if each dropped path stays in another configuration up the chain |
| `SkipCleanup.CycleErases` | duckdb/scripts/cleanup_config_skip_tests.py:35-39 | a configuration on a cycle loses its whole list |
| `SkipCleanup.CycleLosesMeaning` | duckdb/scripts/cleanup_config_skip_tests.py:35-39 | the concrete failure on two files that inherit from each other |
| `SkipCleanup.RunIsCleanAll` | duckdb/scripts/cleanup_config_skip_tests.py:178-182 | on acyclic inheritance a run in any order, with repetitions, equals cleaning all its files at once by what they inherited before, and every effective skip set is unchanged |
| `SkipCleanup.OrderDoesNotMatter` | duckdb/scripts/cleanup_config_skip_tests.py:178-182 | the final files depend only on which files were processed |
| `SkipCleanup.NothingRedundant` | duckdb/scripts/cleanup_config_skip_tests.py:178-182 | a processed configuration keeps a path if and only if it had it and no ancestor has it |
| `SkipCleanup.RunErases` | duckdb/scripts/cleanup_config_skip_tests.py:178-182 | whatever the order, a processed configuration on a cycle ends up with no path |
| `SkipCleanup.RunPreservesIff` | duckdb/scripts/cleanup_config_skip_tests.py:178-182 | on any inheritance, a run in any order keeps what every configuration skips if and only if each path of a processed configuration on a cycle is also in one up its chain that is not processed |
| `SkipCleanup.Repository.CleanAllConfigs` | duckdb/scripts/cleanup_config_skip_tests.py:178-182 | the driver loop performs that run and counts the changed files; a count of zero means nothing changed |

## Left out

- The JIT profiler, dispatcher, compiler and cache: their sources are not part of the repository's files.
- The `!` operator: the compiler ignores it (duckdb/extension/autocomplete/matcher.cpp:1329-1334), and so does the model.
- The grammar file parser and the SQL tokenizer: a rule is its token list, a call token includes its opening bracket.
- Rules with more than one parameter: refused by the code and by the model.
- Identifier normalisation, token-type side effects, suggestion ranking and catalog lookups: they do not affect what is matched.
- A number literal that the code refuses with an exception: an outcome of its own (`Thrown`), without its message.
- Agreement of the two interpreters after the tokens run out: the suggestion path differs on purpose.
- PegFirst.SuggestsExactly: where a matcher that may be passed over is met twice the suggestions may be fewer than can come first; the exact condition is given for lists that begin with one matcher twice, not for every graph, where it depends on the order of the whole search.
- PegOffers.RunOffers: an end at which a repeat has asked its element before is left to `PegOffers.ExhaustedRepeat`.
- PegTermination.WellFormedTerminates: the converse is proved for repeats that do succeed on nothing and for matchers that call one another first of all; a left-call cycle through an optional prefix diverges only on some token lists.
- PegMeaning.CompilingPreservesMeaning: grammars that hand a choice to a rule with `/` after its parameter are never built as written (`PegSparing.BuiltAsWrittenIff`), but may mean the same by accident, when the added alternative is already there (`PegSharedChoice.SharingKeepsMeaningIff`).
- PegRuleTermination.CompiledGrammarTerminates: the condition on rule trees is sufficient; for graphs `PegTermination` also shows divergence.
- PegCache.CacheIsSafe: memory ordering below the mutex is not modelled; steps between lock operations are single accesses.
- Vector formats, constant-vector marking, volatile lambdas and bind data of the list functions: vectors are sequences, selection vectors arrays.
- Dollar-quote and comment rules of SQL beyond the stripper's own lexical states; a space in the last two bytes lies outside its scan bound.
- Emitted C++ text, templates, custom code, `$` and `?` constructor entries, parameters set by a derived class and base classes of base classes: emitted lines are instructions on a stream of (id, value) fields.
- SerializationGenerator.ConstructorCall: the rewriting of dots in a property that a constructor takes is not modelled; properties have no dots.
- ICU calendars, time zones, daylight saving and month lengths: the calendar adds units linearly and stores each time through a rounding function, months go by an arbitrary function.
- IcuArithmetic.RangeChecksAreExact: the range boundaries lie beyond 2^53 milliseconds, so this is about a calendar of integers, not of doubles.
- IcuArithmetic.SubtractForward: `end_date.value -= 1000` is not wrapped; it cannot overflow for timestamps in range.
- `ICUCalendarAge`: for the Gregorian calendar it delegates to code outside the modelled files.
- Path resolution, JSON parsing and messages of the cleanup script: file names are taken as resolved, a file that cannot be loaded is skipped.
