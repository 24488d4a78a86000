# Verified model of TinyDuckDB

TinyDuckDB is a small analytical database written in C++, with a lake table written in Python
beside it. This project models the parts of it that carry an algorithm, and proves what they
promise:

- the packrat PEG engine: the compiler from grammar text to expression trees, and the
  backtracking matcher with its memo table and farthest-failure mark (`peg_*.dfy`). What a
  grammar means is a function (`peg_semantics.dfy`); `peg_laws.dfy` pins it down construct by
  construct. Which texts are grammars is said by layouts (`peg_layouts.dfy`), whose texts are
  proved to be exactly those that compile (`peg_roundtrip.dfy`, `peg_texts.dfy`,
  `peg_errors.dfy`);
- the execution engine: cutting a plan into pipelines, the worker protocol, the drain loop, the
  morsel dispenser, and the way from a sorted sink to the user's rows (`plans.dfy`,
  `plan_shapes.dfy`, `drain.dfy`, `operators.dfy`, `machines.dfy`, `restarts.dfy`,
  `lost_rows.dfy`, `endless_drain.dfy`, `pipeline_workers.dfy`, `pipeline_progress.dfy`,
  `deliveries.dfy`, `morsels.dfy`, `results.dfy`, and `execution.dfy`, which puts them together,
  with `lost_query.dfy`, on top of `rows.dfy`);
- predicate pushdown, and the value order it rests on (`values.dfy`, `value_order.dfy`,
  `pushdown.dfy`, `plan_generator.dfy`);
- the aggregate's group hash table, the packed validity mask with the vectors and chunks built
  on it, and the lake table's transaction log (`group_table.dfy`, `vectors.dfy`,
  `data_chunks.dfy`, `lake_log.dfy`, `lake_replay.dfy`).

Code that updates things in place is a class or a loop here too, and is proved against a
function; what the function means is then proved about the function, against a description that
does not mention it. `dafny verify
dfyconfig.toml` checks everything.

## Where the code departs from what one would expect

Each of these is a theorem here, with the exact condition under which the expectation holds.

- `e+` is not `e e*`: a first match that consumes nothing is dropped, so `e+` fails where `e`
  matches the empty string (`PlusNeedsProgress`, `PlusDeparture`).
- The drain loop restarts the chain at operator 0 on the previous output, and an operator with
  pending output ignores its input. A filter keeps rows by the columns of its child, a projection
  gives one row for each, and a join puts build columns behind probe columns and stops when its
  output chunk is full. Whatever the filters keep, the projections compute and the joins find,
  every finalized run of a pipeline delivers what its operators compute, if and only if the
  pipeline has at most one join, and that leads the chain, or there is no filter, or it ends the
  chain and there is no projection (`DrainConservesIff`, `DeliversIff`; for plans `SafePlanIff`,
  `AllPipelinesDeliverIff`). This holds for every capacity of a chunk from two rows on, and so for
  2048. The plans that the binder describes for SELECT keep WHERE above the join, so there the join
  leads and all of them are safe (`SelectPlansAreSafe`). A filter below a join that ends its
  pipeline is safe as well, as in the plan of docs/lab3.md:233-241, because a joined row still
  passes the filter on its probe columns (`JoinedIsKept`, `SafeOrNot`). A filter, a join and a
  projection in this order lose rows once a probe chunk has more matches than fit into one output
  chunk (`FilterJoinProjectionLosesRows`: 2046 of 4094 answers), and so do two joins in one chain;
  on one full chunk of 2048 rows these may even keep the loop running for ever (`DrainMayNotEnd`).
- A worker stops at the first empty chunk it is handed, even in the middle of the source. The
  source is processed to its end if and only if fewer chunks before the last are empty than there
  are workers (`FinalizedHasTakenRowsOnce`, `ReachesEndIff`). This is why a scan that prunes
  a morsel must go on to the next one instead of returning nothing.
- `GREATER_THAN` is computed as "neither equal nor less", so with a NaN `5 > x` is true while
  the flipped filter `x < 5` is false. A pushed filter admits every selected row if and only if
  no `constant > column` conjunct meets two unordered values (`FlipAgreesIff`,
  `PushdownIsSoundIff`). A query that does not throw keeps its result under all sound zone maps if
  and only if every row group with a selected row has, for each pushed filter, some row which that
  filter admits (`PruningPreservesResultIff`, `PruningMayLoseNaN`).
- A scan that skips a row group also skips the errors its rows would have raised. The pruned query
  gives the result of the full one whenever that has a result; it hides an error exactly when a row
  of a skipped group makes the filter throw and no row of a scanned one does (`PruningAgreesIff`,
  `PruningMayHideError`).
- Two keys are in one group if and only if they are equal, but a key with a NaN is equal to
  nothing, itself included, and founds a new group at every lookup (`SameGroupIff`,
  `KeysEqualIsReflexiveIff`). Integers are compared as doubles, so two different BIGINTs can be
  equal (`DistinctBigIntsMayBeEqual`).
- Vacuum keeps time travel to exactly those versions whose parquet files are all in the newest
  snapshot (`VacuumAndTimeTravel`). A commit can be read if and only if its replay goes through and
  every file it makes live was written and not deleted by a vacuum since (`CommitIsReadableIff`); an
  append is broken exactly by a vacuum between its two steps that finds the file to be parquet and
  not live (`AppendIsReadableIff`, `VacuumDuringAppendLosesData`).
- A failed `AppendRow` or `Slice` leaves the rows of the chunk as they were, although the former
  may already have written cells.

## Model

| member | source | states |
|---|---|---|
| `PegSyntax.LookupIsFirst` | src/parser/peg.cpp:432-439 | a name denotes the first rule that bears it |
| `PegSemantics.SkipSpaces` | src/parser/peg.cpp:63-67 | the loop stops at the first character that is not whitespace |
| `PegSemantics.Eval` | src/parser/peg.cpp:384-518 | matching without a memo ends on every well-formed grammar; a match never goes backwards or beyond the input, and one that consumes nothing is statically nullable |
| `PegSemantics.EvalRule` | src/parser/peg.cpp:346-382 | a rule that matches yields exactly one node; an empty match only if the certificate calls the rule nullable |
| `PegSemantics.EvalSequence` | src/parser/peg.cpp:440-454 | an empty match of a sequence needs every element nullable, whitespace skipping notwithstanding |
| `PegSemantics.EvalChoice` | src/parser/peg.cpp:455-466 | an empty match of a choice needs a nullable alternative |
| `PegSemantics.EvalRepeat` | src/parser/peg.cpp:492-502 | a repetition ends and cannot fail |
| `PegPackrat.KeyIsPacked` | src/parser/peg.cpp:346-358 | the memo key is rule * (length + 1) + position |
| `PegPackrat.KeyInjective` | src/parser/peg.cpp:346-358 | different pairs of rule and position have different memo keys |
| `PegPackrat.KeyInRange` | src/parser/peg.cpp:346-358 | memo keys stay below rules * (length + 1) |
| `PegPackrat.OnceIsShort` | src/parser/peg.cpp:346-382 | a log of keys in which none occurs twice is no longer than the key range |
| `PegPackrat.MatchCharClass` | src/parser/peg.cpp:322-344 | the class loop, with ranges and negation, accepts exactly the characters some item covers, or does not cover when negated |
| `PegPackrat.RepeatStep` | src/parser/peg.cpp:492-515 | one advancing turn of a repetition composes with the rest of it |
| `PegPackrat.Matcher.constructor` | src/parser/peg.cpp:78-84 | a parse starts with an empty memo and no failure |
| `PegPackrat.Matcher.FailAt` | src/parser/peg.cpp:406-420 | the farthest failure is a running maximum |
| `PegPackrat.Matcher.MatchLiteral` | src/parser/peg.cpp:388-414 | case-insensitive literal with its word boundary, as the memo-free meaning says; failure leaves the position alone |
| `PegPackrat.Matcher.MatchRule` | src/parser/peg.cpp:346-382 | memo hit or evaluation: same success, end, single appended node and farthest failure as the memo-free rule; every memo entry stays true, no key is entered while in progress, and no body is evaluated twice |
| `PegPackrat.Matcher.Leave` | src/parser/peg.cpp:359-382 | recording a true entry keeps every entry true and closes the key |
| `PegPackrat.Matcher.MatchReference` | src/parser/peg.cpp:432-439 | an unknown rule is an error, a known one is matched as a rule |
| `PegPackrat.Matcher.Match` | src/parser/peg.cpp:384-518 | for all expressions the memoised matcher agrees with the memo-free meaning on success, position, appended nodes and farthest failure; a failure restores position and node list |
| `PegPackrat.Matcher.MatchElement` | src/parser/peg.cpp:444-448 | whitespace is skipped in front of an element unless it starts with a character class |
| `PegPackrat.Matcher.MatchSequence` | src/parser/peg.cpp:440-454 | the loop over elements means the sequence; a failing element undoes all |
| `PegPackrat.Matcher.MatchChoice` | src/parser/peg.cpp:455-466 | the loop over alternatives means the ordered choice |
| `PegPackrat.Matcher.Iterate` | src/parser/peg.cpp:492-511 | a turn that fails or does not advance is undone |
| `PegPackrat.Matcher.MatchStar` | src/parser/peg.cpp:492-502 | the star loop ends and means the repetition |
| `PegPackrat.Matcher.MatchPlus` | src/parser/peg.cpp:503-515 | the plus loop means one advancing match and the repetition behind it |
| `PegPackrat.Parse` | src/parser/peg.cpp:78-108 | result, error line and error column are those of the memo-free meaning, and rule bodies are evaluated at most rules * (length + 1) times |
| `PegCertificates.CertifiesIff` | src/parser/peg.cpp:384-518 | a certificate is one whose rules demand no more of rank and nullability than it grants |
| `PegCertificates.DenseCertifies` | src/parser/peg.cpp:384-518 | ranks may be replaced by the number of rules ranked lower |
| `PegCertificates.WellFormedIffInferred` | src/parser/peg.cpp:384-518 | whether the engine is covered by these results can be computed from the grammar: it is well-formed exactly when the inferred certificate certifies it |
| `PegCertificates.LeftRankIff` | src/parser/peg.cpp:384-518 | the rank an expression demands bounds exactly the ranks of the rules it may enter before consuming anything |
| `PegCertificates.LeastIsSettled` | src/parser/peg.cpp:384-518 | the least nullability is reached after as many rounds as there are rules |
| `PegCertificates.LeftRecursionIsNotWellFormed` | src/parser/peg.cpp:432-439 | a rule that can reach itself before anything is consumed, through any number of rules and past anything that may be empty, has no certificate |
| `PegCertificates.WellFormedIffNotLeftRecursive` | src/parser/peg.cpp:346-518 | the grammars covered are exactly those of the right shape in which no rule reaches itself before anything is consumed |
| `PegCertificates.GuardedRecursionIsWellFormed` | src/parser/peg.cpp:432-439 | recursion behind any expression that consumes something is covered, whatever follows it |
| `PegTheorems.MatchBuildsForest` | src/parser/peg.cpp:384-518 | every match yields ordered, disjoint, nested nodes within the matched span, each of which is itself the parse of its rule there |
| `PegTheorems.RuleBuildsTree` | src/parser/peg.cpp:360-380 | a rule's node spans the match and its children lie in order inside it |
| `PegTheorems.SequenceBuildsForest` | src/parser/peg.cpp:440-454 | the nodes of a sequence are in order and disjoint |
| `PegTheorems.ChoiceBuildsForest` | src/parser/peg.cpp:455-466 | the nodes of a choice are those of the alternative taken |
| `PegTheorems.RepeatBuildsForest` | src/parser/peg.cpp:492-502 | the nodes of a repetition are in order and disjoint |
| `PegTheorems.ParsedTreeCoversInput` | src/parser/peg.cpp:78-108 | a successful parse is a tree of the first rule that covers the input up to whitespace at both ends |
| `PegTheorems.StarIsMaximal` | src/parser/peg.cpp:492-502 | where a star stops, its operand cannot advance |
| `PegTheorems.PlusNeedsProgress` | src/parser/peg.cpp:503-515 | plus succeeds exactly when its operand first matches and advances; so it agrees with its operand exactly when that match is not empty |
| `PegTheorems.PlusOfNonNullable` | src/parser/peg.cpp:503-515 | for an operand that is not nullable plus succeeds exactly when the operand does |
| `PegTheorems.PlusDeparture` | src/parser/peg.cpp:508-511 | an operand and input on which e+ fails and e e* succeeds |
| `PegTheorems.ChoiceTakesFirst` | src/parser/peg.cpp:455-466 | the result is that of the first alternative that matches |
| `PegLaws.CharacterTable` | src/parser/peg.cpp:63-69 | whitespace, letters and identifier characters as character codes |
| `PegLaws.LiteralLaw` | src/parser/peg.cpp:388-414 | a literal matches exactly its own text in any case where it does not split a word, and fails at its own position |
| `PegLaws.EveryTextHasItems` | src/parser/peg.cpp:322-344 | every class text is written by single characters and ranges in one unambiguous way of reading |
| `PegLaws.ClassLaw` | src/parser/peg.cpp:415-424 | a class matches one character that an item includes, and with a caret one that none includes |
| `PegLaws.DotLaw` | src/parser/peg.cpp:425-431 | a dot matches any one character and records no failure |
| `PegLaws.NotLaw` | src/parser/peg.cpp:475-482 | a not-predicate matches, taking nothing, exactly where its operand fails |
| `PegLaws.AndIsNotNot` | src/parser/peg.cpp:467-482 | an and-predicate is a double negation |
| `PegLaws.OptionIsChoice` | src/parser/peg.cpp:483-491 | an option matches as the choice between its operand and nothing does |
| `PegLaws.ChoiceLaw` | src/parser/peg.cpp:455-466 | a choice tries its alternatives in order at one place and answers as the first that does not fail; the failure mark is the rightmost of those met |
| `PegLaws.ChoiceFailsIff` | src/parser/peg.cpp:455-466 | a choice fails exactly when all its alternatives fail |
| `PegLaws.ElementIff` | src/parser/peg.cpp:444-448 | an element starts behind the whitespace, unless it starts with a character class |
| `PegLaws.SequenceLaw` | src/parser/peg.cpp:440-454 | a sequence has a given outcome exactly when there are cut points between which its elements match; its nodes are theirs in order, and it fails as the first element that does |
| `PegLaws.StartsWithCharClassIff` | src/parser/peg.cpp:296-320 | whitespace is not skipped exactly before what a character class or dot may come first in |
| `PegLaws.RepetitionLaw` | src/parser/peg.cpp:492-515 | star and plus have a given outcome exactly when there are cut points of advancing turns up to one that does not advance, whose nodes are dropped |
| `PegLaws.ReferenceLaw` | src/parser/peg.cpp:346-439 | a reference is the first rule of its name with its match wrapped in one node; without such a rule it is an error |
| `PegLaws.ParseLaw` | src/parser/peg.cpp:78-108 | a parse is the first rule's match with nothing but whitespace around it, or trailing input, or a syntax error at the line and column of the rightmost failure |
| `PegGrammar.SkipInlineWhitespace` | src/parser/peg.cpp:14-18 | skips blanks, tabs and carriage returns, not newlines |
| `PegGrammar.ScanIdentifier` | src/parser/peg.cpp:69-69 | the longest run of identifier characters |
| `PegGrammar.ReadTerm` | src/parser/peg.cpp:225-286 | reading a term advances and gives a printable tree |
| `PegGrammar.ReadElements` | src/parser/peg.cpp:169-192 | reading elements stays in the text and advances with every element |
| `PegGrammar.ReadChoice` | src/parser/peg.cpp:148-167 | reading a choice advances and gives a printable tree |
| `PegGrammar.ParseTerm` | src/parser/peg.cpp:225-286 | parentheses, literals, classes, dot and names, with the four ways to fail |
| `PegGrammar.ParseSuffix` | src/parser/peg.cpp:206-223 | at most one suffix operator |
| `PegGrammar.ParsePrefix` | src/parser/peg.cpp:194-204 | prefix operators nest |
| `PegGrammar.ParseSequence` | src/parser/peg.cpp:169-192 | the loop reads the elements up to newline, slash, parenthesis or comment; none is an error, one stands for itself |
| `PegGrammar.ParseChoice` | src/parser/peg.cpp:148-167 | the loop reads alternatives as long as a slash follows |
| `PegGrammar.ParseGrammar` | src/parser/peg.cpp:114-146 | the loop over comments and rules reads what the recursive description says, and ends |
| `PegRoundTrip.TermReads` | src/parser/peg.cpp:225-286 | a term in either quote, a class, a dot, a name or any group of alternatives is read back, and reading stops right behind it |
| `PegRoundTrip.ElementReads` | src/parser/peg.cpp:194-223 | an element with any prefixes and at most one suffix is read back |
| `PegRoundTrip.ElementsRead` | src/parser/peg.cpp:169-192 | elements behind any gaps of blanks, tabs and carriage returns are read back one by one, up to a line end, slash, parenthesis, comment or the end |
| `PegRoundTrip.AlternativesRead` | src/parser/peg.cpp:148-167 | alternatives separated by slashes are read back one by one |
| `PegRoundTrip.PiecesRead` | src/parser/peg.cpp:117-127 | whitespace and comments between rules, and a comment up to the end of the text, make no difference |
| `PegRoundTrip.RuleReads` | src/parser/peg.cpp:128-143 | a rule is read back in front of the rules behind it |
| `PegRoundTrip.LayoutReads` | src/parser/peg.cpp:114-146 | however rules are laid out, with comments, blank lines, gaps, either quote and needless parentheses, compiling the text gives them back |
| `PegTexts.TermFound` | src/parser/peg.cpp:225-286 | whatever is read as a term was written as one that means it |
| `PegTexts.ElementsFound` | src/parser/peg.cpp:169-192 | the elements that are read were written one by one, names kept apart |
| `PegTexts.RulesFound` | src/parser/peg.cpp:114-146 | the rest of a text that compiles is the text of rules laid out in some way |
| `PegTexts.CompilesIff` | src/parser/peg.cpp:71-76 | a text compiles to given rules exactly when it is the text of a layout that means them |
| `PegTexts.PrintableHasLayout` | src/parser/peg.cpp:114-286 | every printable rule list can be laid out |
| `PegTexts.ReadableIffPrintable` | src/parser/peg.cpp:71-76 | the rule lists some grammar text denotes are exactly the printable ones |
| `PegTexts.ReadTreesAreShapedIff` | src/parser/peg.cpp:225-286 | what the parser reads is fit for the matcher exactly when it holds no empty literal |
| `PegErrors.TermError` | src/parser/peg.cpp:225-286 | a term that fails reports what is so: no closing parenthesis there, a quote or bracket open to the end, or a character that starts no term |
| `PegErrors.ErrorsAreTrue` | src/parser/peg.cpp:71-76 | every compilation error says something true of the text, and a text without rules holds only whitespace and comments |
| `Plans.PipelineBuilder.BuildRecursive` | src/execution/pipeline.cpp:124-164 | appends exactly the pipelines of the recursive description, all freshly made, and fills the current one as it says |
| `Plans.PipelineBuilder.BuildInto` | src/execution/pipeline.cpp:149-160 | a dedicated pipeline drains the child into the sink and is listed behind the pipelines it needs |
| `Plans.PipelineBuilder.BuildAll` | src/execution/pipeline.cpp:117-122 | the list of pipelines of a plan |
| `Plans.CompileDelivers` | src/execution/pipeline.cpp:124-164 | in pipelines that pass on the chain of their row functions, running the completed ones makes the current one yield the operator's rows, whatever later pipelines do elsewhere |
| `Plans.JoinDelivers` | src/execution/pipeline.cpp:138-148 | the build pipeline runs before the probe, for joins nested on either side, in pipelines that pass on the chain of their row functions |
| `Plans.PipelinesComputePlan` | src/execution/pipeline.cpp:117-164 | cutting a plan into pipelines keeps its meaning: pipelines that pass on the chain of their row functions, run in list order, give the collector the rows of direct recursive evaluation; which pipelines do pass it on is the subject of the rows below |
| `Plans.StreamRows` | src/execution/pipeline.cpp:136-140 | a filter keeps the rows that pass, each as often as it was there; a projection computes one row from each, in order |
| `Plans.JoinRows` | src/execution/pipeline.cpp:141-152 | the rows of a join are the rows of its left child with matching rows, found in what it made of its right child, behind them |
| `Plans.EveryRoleOnce` | src/execution/pipeline.cpp:124-164 | every node is source, operator and sink as often as its kind demands, and nothing else is |
| `Plans.DistinctRoles` | src/execution/pipeline.cpp:124-164 | with distinct nodes that is at most once each |
| `Plans.BuildIsScheduled` | src/execution/pipeline.cpp:117-164 | every pipeline has a source and a sink, and a breaker used as source or a join used as operator is the sink of a strictly earlier pipeline |
| `PlanShapes.SafePlanIff` | src/execution/pipeline.cpp:124-164 | every pipeline of a plan has at most one join, which leads it, or has no filter beside it, or ends it without a projection, exactly when that holds of what feeds each sink of the plan |
| `PlanShapes.SelectPlansAreSafe` | src/binder/binder.cpp:178-187 | in the plans the binder describes for SELECT the join leads its pipeline, so all of them are safe |
| `PlanShapes.BuildOwnsSinks` | src/execution/pipeline.cpp:124-164 | no two pipelines share a sink |
| `PlanShapes.BuildSettles` | src/execution/pipeline.cpp:124-164 | if every sink of the plan looks at bags only, but for limits over what is in order, the same holds pipeline by pipeline |
| `Workers.ThreadCount` | src/execution/pipeline.cpp:18-18 | no more threads than asked for, no more than the source admits, and one of the two numbers, but at least one thread |
| `Workers.NextInv` | src/execution/pipeline.cpp:25-60 | every atomic step of every thread keeps the invariant: each row taken is in the sink or in one worker's hands, as often as it was made |
| `Workers.PassDelivers` | src/execution/pipeline.cpp:90-106 | one pass over the operators moves rows from what is still to come to the local sink, in order |
| `Workers.FinalizedHasTakenRowsOnce` | src/execution/pipeline.cpp:74-110 | under every interleaving of pulls, passes and combines a finalized sink holds what the operators make of the chunks handed out, exactly once; how many were handed out depends on the source and thread count alone; one thread keeps the order |
| `Workers.ReachesEndIff` | src/execution/pipeline.cpp:81-83 | the source is read to its end exactly when fewer chunks before the last are empty than there are workers |
| `Workers.FinalizedHasEveryRowOnce` | src/execution/pipeline.cpp:14-111 | without empty chunks a finalized sink holds every row's results exactly once |
| `Workers.RunsAgree` | src/execution/pipeline.cpp:14-111 | two finalized runs on any thread counts that get equally far agree as bags |
| `Workers.FailureIsNotSwallowed` | src/execution/pipeline.cpp:37-57 | once a worker has thrown the sink is never finalized |
| `Workers.RethrownIsFirst` | src/execution/pipeline.cpp:31-55 | after all workers have ended the main thread's own exception is rethrown, or else the first one thrown |
| `Progress.EveryRunEnds` | src/execution/pipeline.cpp:49-60 | runs are bounded by the chunks and the passes they take, and until the main thread has joined some thread can make a step that is no exception: no deadlock |
| `Deliveries.SafeIsRight` | src/execution/pipeline.cpp:63-111 | on a safely arranged pipeline a finalized run on any number of threads has delivered the rows of its operators, on one thread in order |
| `Deliveries.RunOfLoop` | src/execution/pipeline.cpp:63-111 | one worker on one chunk can always finish with what the drain loop sinks, right or wrong |
| `Deliveries.DeliversIff` | src/execution/pipeline.cpp:63-111 | for every chunk capacity every finalized run on any number of threads delivers what the operators compute, whatever the filters keep, the projections compute and the joins find, exactly when they are arranged safely |
| `Drain.OnePass` | src/execution/pipeline.cpp:92-102 | the for loop over operators, with its early exit, is one pass |
| `Drain.PassStep` | src/execution/pipeline.cpp:89-106 | one pass delivers the next part of what is to come, and either nothing is left or the loop will get to the rest, in fewer passes |
| `Drain.DrainChunk` | src/execution/pipeline.cpp:89-106 | when one operator resumes and its outputs bring the loop back to it, the loop ends, the sink gets exactly the chain applied to all outputs, and nothing stays pending |
| `Drain.IdealIsChain` | src/execution/pipeline.cpp:89-106 | however operators cut their output, what the sink should get is the composition of their row functions |
| `Drain.RestartableConserves` | src/include/tiny_duckdb/execution/operator/physical_hash_join.hpp:32-34 | an operator that ignores its input while pending loses nothing when the loop comes back to it for each of its outputs but the last |
| `Restarts.JoinedIsKept` | src/execution/operator/physical_hash_join.cpp:15-15 | a joined row begins with its probe row, so the filters in front of the join keep it |
| `Restarts.SafeRestarts` | src/execution/pipeline.cpp:84-106 | filters, projections and a join arranged safely bring the loop back to the join until it has nothing left |
| `LostRows.FilterBehindLoses` | src/execution/pipeline.cpp:94-101 | a filter anywhere behind a join that does not lead the chain: for every chunk capacity an input on which a joined row is never fetched |
| `LostRows.CountingUpLoses` | src/execution/pipeline.cpp:94-101 | a filter in front of the join and a projection anywhere: for every chunk capacity an input on which the joined rows come back as other rows, are dropped, and the next one is stranded |
| `LostRows.FanningOutLoses` | src/execution/pipeline.cpp:92-102 | two joins anywhere in the chain: for every chunk capacity an input on which the second pass meets the empty chunk a full join still holds, and the last joined row is lost |
| `LostRows.UnsafeLoses` | src/execution/pipeline.cpp:84-106 | every arrangement that is not safe loses rows of a chunk of at most two rows through some operators of these kinds, whatever the chunk capacity |
| `Machines.CutIsWhole` | docs/lab3.md:740-773 | a join that stops when its output chunk is full emits all its rows in order, and no chunk but the last is empty |
| `Machines.MachinesCompute` | docs/lab3.md:740-773 | so the operators of these inputs compute their rows on every chunk, and only joins cut their output |
| `EndlessDrain.DrainMayNotEnd` | src/execution/pipeline.cpp:89-106 | two joins in one chain, each appending build columns to its probe rows and stopping at a full chunk, and a full source chunk on which no number of passes is enough, for chunks of 2048 rows and of any other multiple of 8 |
| `LostRows.DrainConservesIff` | src/execution/pipeline.cpp:89-106 | for every chunk capacity the loop ends and delivers the rows, whatever the filters, projections and joins compute, exactly when they are arranged safely |
| `Execution.ExecuteWorker` | src/execution/pipeline.cpp:63-111 | one worker alone: pull, drain, sink, up to the first empty chunk |
| `Execution.ScanSupplies` | src/storage/table_data.cpp:9-32 | the chunks of a scan's morsels are the table's rows in order, none empty |
| `Execution.TableChunks` | src/storage/table_data.cpp:9-32 | calling the dispenser until it says no gives one chunk for each morsel |
| `Execution.EmitterSupplies` | src/execution/operator/physical_order_by.cpp:81-95 | the chunks a materialized sink emits are its rows in order, none empty |
| `Execution.ParallelRunDelivers` | src/execution/pipeline.cpp:14-111 | any finalized run of the workers, pass by pass, on a safely arranged pipeline hands the sink the rows of the pipeline, exactly once, and in order from a sorted or limited source |
| `Execution.OrderedSourceKeepsOrder` | src/include/tiny_duckdb/execution/operator/physical_order_by.hpp:33-54 | whatever thread count is asked for, a sorted or limited source is drained by one worker, in order |
| `Execution.AllPipelinesDeliverIff` | src/execution/pipeline.cpp:63-164 | for every chunk capacity all pipelines of a plan deliver what their filters, projections and joins compute, in every run, exactly when the plan is safe |
| `Execution.EveryExecutionComputesPlan` | src/execution/executor.cpp:7-13 | every execution of a safe plan, on any thread counts and under every interleaving, leaves the collector with the bag of rows of direct evaluation; with the very sequence after a sort without ties or a limit over one |
| `LostQuery.FilterJoinProjectionLosesRows` | src/execution/pipeline.cpp:89-106 | a whole execution of SELECT v FROM a JOIN b ON a.k = b.k WHERE a.k = 0, filtered below the join, that ends with the first chunk of answers alone, for every chunk capacity |
| `LostQuery.SafeOrNot` | docs/lab3.md:233-241 | that plan is not safe, while the documented plan with the same join below a GROUP BY is |
| `Execution.RunPipeline` | src/execution/pipeline.cpp:14-61 | whichever worker goes next, the loop ends and has made a finalized run |
| `Execution.ExecutePipeline` | src/execution/pipeline.cpp:14-61 | morsels or slices of the source, operators and threads of one pipeline, up to the finished sink |
| `Execution.Execute` | src/execution/executor.cpp:7-13 | builds the pipelines and runs them one after the other, workers and drain loop included; the collector then holds the rows of the plan |
| `Execution.SchedulingDoesNotShow` | src/execution/pipeline.cpp:14-111 | two executions of a plan, however scheduled, give the same bag, and the same sequence where the plan determines the order |
| `Morsels.ParallelTableScanState.Initialize` | src/storage/table_data.cpp:9-23 | the nested loops cut the row groups as the recursive description says |
| `Morsels.ParallelTableScanState.NextMorsel` | src/storage/table_data.cpp:25-32 | each call takes the next index; past the last one it says no, for ever |
| `Morsels.ExactlyOnce` | src/storage/table_data.cpp:9-32 | every row of every row group is in exactly one morsel, and a morsel has 1 to 2048 rows |
| `Morsels.MorselsAreFull` | src/storage/table_data.cpp:9-23 | a morsel has 2048 rows unless it is the last of its row group |
| `Morsels.CallInTurn` | src/storage/table_data.cpp:25-32 | calls by any threads in any order are given the morsels one by one, and nothing once they are used up |
| `Morsels.ThreadsShareTheTable` | src/storage/table_data.cpp:9-32 | the threads together are given no row twice, and every row exactly once after as many calls as there are morsels |
| `Morsels.MorselsReadTable` | src/storage/table_data.cpp:9-32 | the morsels in order read the table in order |
| `Results.Emitter.EmitRows` | src/execution/operator/physical_order_by.cpp:81-95 | a caller gets the slice at the offset it found |
| `Results.PulledIsAll` | src/execution/operator/physical_order_by.cpp:81-95 | the slices concatenate to all rows, and none before the end is empty |
| `Results.QueryResult.RowCount` | src/main/tiny_duckdb.cpp:27-33 | the number of rows ToRows lists |
| `Results.QueryResult.GetValue` | src/main/tiny_duckdb.cpp:35-43 | the cell ToRows shows there; an error exactly when there is no such row |
| `Results.QueryResult.ToRows` | src/main/tiny_duckdb.cpp:45-57 | all rows of all chunks, in order |
| `Results.ResultCollector.Combine` | src/execution/operator/physical_result_collector.cpp:46-54 | the local chunks go behind the global ones, in order |
| `Results.ResultCollector.Finalize` | src/execution/operator/physical_result_collector.cpp:56-61 | the result receives the chunks in order |
| `Results.DrainOrdered` | src/include/tiny_duckdb/execution/operator/physical_order_by.hpp:33-34 | drained by one thread, a sorted sink reaches the user in order, every row once |
| `Values.EqualsIsPartialEquivalence` | src/common/value.cpp:171-188 | equality is symmetric and transitive across numeric types, NULLs, strings and vectors |
| `Values.EqualsIsReflexiveIff` | src/common/value.cpp:171-188 | a value equals itself exactly when it holds no NaN |
| `Values.NaNEqualsNothing` | src/common/value.cpp:171-188 | a value with a NaN equals nothing |
| `Values.DistinctBigIntsMayBeEqual` | src/common/value.cpp:108-119 | two different BIGINTs that round to one double are equal |
| `Values.Trichotomy` | src/common/value.cpp:190-207 | without NaN two comparable values are less, greater or equal, exactly one of the three |
| `Values.LessThanIsTransitive` | src/common/value.cpp:190-207 | without NaN less-than is transitive, also through NULLs and lexicographically |
| `Values.UnorderedIsNoRelation` | src/common/value.cpp:171-207 | when exactly two comparable values are neither less, greater nor equal |
| `Values.FlipAgreesIff` | src/execution/physical_plan_generator.cpp:17-30 | swapping the operands and flipping the comparison gives the same answer exactly for equality tests and ordered values |
| `Values.EqualValuesHashAlike` | src/common/value.cpp:209-227 | equal values have equal hashes, whatever the element hash |
| `ValueOrder.RoundedIsNearest` | src/common/value.cpp:108-119 | the double a BIGINT becomes has a 53-bit mantissa, and no other such number is nearer |
| `ValueOrder.TiesGoToEven` | src/common/value.cpp:108-119 | halfway between two doubles the even one is taken |
| `ValueOrder.RoundedIsMonotone` | src/common/value.cpp:108-119 | rounding keeps the order |
| `ValueOrder.BigIntsCompare` | src/common/value.cpp:171-196 | BIGINTs never compare the wrong way round, and exactly within 2^53 of zero |
| `ValueOrder.StringOrder` | src/common/value.cpp:206-206 | a string is less exactly when at the first difference it ends or has the lesser character |
| `ValueOrder.VectorOrder` | src/common/value.cpp:203-205 | a vector is less exactly when it has the lesser number at the first place where the two hold different numbers |
| `ValueOrder.OrderTable` | src/common/value.cpp:190-207 | the order for every pair of types: NULL first, false before true, integers, doubles with infinities, strings and vectors; which pairs are an error |
| `ValueOrder.EqualityTable` | src/common/value.cpp:171-188 | equality for every pair of types |
| `ValueOrder.OperatorTable` | src/execution/expression_executor.cpp:57-76 | the six operators against equality and order, with what NaN does to them and when they throw |
| `ValueOrder.OneOfThree` | src/execution/expression_executor.cpp:57-76 | without NaN exactly one of less, equal and greater holds, and each operator is the opposite of another |
| `ValueOrder.IntegerOperators` | src/execution/expression_executor.cpp:57-76 | on integers the operators are those of arithmetic |
| `ValueOrder.MixInTwo` | src/common/value.cpp:219-225 | hashing a vector goes on where hashing its first part stopped |
| `ValueOrder.HashTellsApart` | src/common/value.cpp:209-227 | the hash of a value tells apart what the hash of its contents tells apart; the last component of a vector is mixed into the hash of the others |
| `Pushdown.BooleanTable` | src/execution/expression_executor.cpp:25-32 | AND selects when both sides do, OR when one does; either throws when a side throws or is no condition |
| `Pushdown.ComparisonTable` | src/execution/expression_executor.cpp:57-76 | what a comparison of a column with a constant says of a row, NULLs and missing columns included |
| `Pushdown.SelectsIff` | src/execution/physical_plan_generator.cpp:35-45 | a condition selects a row exactly when all its conjuncts do |
| `Pushdown.FilterOfIff` | src/execution/physical_plan_generator.cpp:46-68 | a filter is made exactly for a comparison of a scanned column with a constant that is not NULL, turned round when the constant is on the left |
| `Pushdown.FilteredIsSelection` | src/execution/expression_executor.cpp:42-51 | what a filter keeps are exactly the selected rows, each once and in order |
| `Pushdown.ExtractTableFilters` | src/execution/physical_plan_generator.cpp:35-69 | appends the filters of all conjuncts, left to right, and nothing else |
| `Pushdown.FiltersAre` | src/execution/physical_plan_generator.cpp:35-69 | a filter is extracted exactly when some conjunct gives rise to it |
| `Pushdown.ConjunctFilter` | src/execution/physical_plan_generator.cpp:46-68 | a selected conjunct's filter admits the table row unless the flipped constant meets an unordered value |
| `Pushdown.PushdownIsSoundIff` | src/execution/physical_plan_generator.cpp:35-69 | all extracted filters admit a selected row exactly when no flipped greater-than conjunct meets an unordered value |
| `Pushdown.ScanSkipsIff` | src/execution/operator/physical_table_scan.cpp:23-36 | a row group is skipped exactly when the zone maps rule out some filter |
| `Pushdown.SkippedGroupIsIrrelevant` | src/execution/operator/physical_table_scan.cpp:23-36 | filtering a row group that a sound zone map rules out would give nothing, or throw when one of its rows does |
| `Pushdown.NoBetrayalWitnesses` | src/execution/operator/physical_table_scan.cpp:23-36 | where every selected row is admitted by every filter, the condition for pruning holds |
| `Pushdown.PruningPreservesResultIff` | src/execution/operator/physical_table_scan.cpp:30-36 | a query that runs without pruning runs with all sound zone maps and gives the same rows in the same order, exactly when every row group with a selected row has a row for each pushed filter |
| `Pushdown.ThrowsIff` | src/execution/expression_executor.cpp:46-51 | a filter throws exactly when it throws on one of the rows |
| `Pushdown.PruningAgreesIff` | src/execution/operator/physical_table_scan.cpp:30-36 | pruned and full scan agree, results and errors, unless a row of a skipped group throws and none of a scanned one does |
| `Pushdown.PruningMayHideError` | src/common/value.cpp:197-199 | a query that throws on the full scan and returns nothing on the pruned one |
| `Pushdown.NoNaNNoBetrayal` | src/execution/expression_executor.cpp:58-76 | data and constants without NaN meet the condition for pruning |
| `Pushdown.PruningMayLoseNaN` | src/execution/expression_executor.cpp:69-70 | a table and a query on which a sound zone map loses a row with a NaN, which is safe beside a row that the filter admits |
| `PlanGenerator.CreatePlanPreservesMeaning` | src/execution/physical_plan_generator.cpp:77-136 | whenever the logical plan has a result, the physical plan with its pushed filters computes it; and a result of the physical plan is the logical plan's exactly when no scan hides an error |
| `PlanGenerator.CreatePlanPushes` | src/execution/physical_plan_generator.cpp:77-136 | a filter keeps its condition, and a scan directly below it is handed a filter for each conjunct that gives rise to one |
| `GroupTable.KeysEqualInParts` | src/execution/operator/physical_hash_aggregate.cpp:115-127 | keys are equal exactly when they are equally long and equal part by part |
| `GroupTable.KeyHashIsPolynomial` | src/execution/operator/physical_hash_aggregate.cpp:105-113 | the hash code is a polynomial in 31 over the parts' codes, wrapped to 64 bits once |
| `GroupTable.EqualKeysHashAlike` | src/execution/operator/physical_hash_aggregate.cpp:105-113 | keys that are equal hash alike, with the 64-bit wrap-around |
| `GroupTable.KeysEqualIsPartialEquivalence` | src/execution/operator/physical_hash_aggregate.cpp:115-127 | key equality is symmetric and transitive |
| `GroupTable.KeysEqualIsReflexiveIff` | src/execution/operator/physical_hash_aggregate.cpp:115-127 | a key equals itself exactly when no component holds a NaN |
| `GroupTable.GroupByHashTable.Find` | src/execution/operator/physical_hash_aggregate.cpp:132-135 | looking in one bucket finds what a search of all keys finds |
| `GroupTable.GroupByHashTable.FindOrCreate` | src/execution/operator/physical_hash_aggregate.cpp:131-144 | an equal key keeps its group and nothing changes; another one gets the next group with fresh states; the index stays the inverse of the key list |
| `GroupTable.LookUpAll` | src/execution/operator/physical_hash_aggregate.cpp:131-144 | any series of lookups goes where a first-seen list would send it |
| `GroupTable.SeenIsApart` | src/execution/operator/physical_hash_aggregate.cpp:150-155 | the keys of different groups are never equal |
| `GroupTable.GroupKey` | src/execution/operator/physical_hash_aggregate.cpp:131-144 | the group's key equals the lookup, or is it |
| `GroupTable.SameGroupIff` | src/execution/operator/physical_hash_aggregate.cpp:131-144 | two lookups reach one group exactly when their keys are equal |
| `GroupTable.GroupsAreNumbered` | src/execution/operator/physical_hash_aggregate.cpp:131-144 | a key equal to no earlier one gets as its number how many groups were met before |
| `Vectors.ValidityMask.Reset` | src/common/vector.cpp:11-15 | all 2048 bits become valid |
| `Vectors.ValidityMask.SetValid` | src/common/vector.cpp:17-17 | the bit at the index becomes true, all others stay |
| `Vectors.ValidityMask.SetInvalid` | src/common/vector.cpp:19-19 | the bit at the index becomes false, all others stay |
| `Vectors.BlankIsLeast` | src/common/vector.cpp:65-75 | an untouched slot holds zero, false or nothing of its type |
| `Vectors.CountTrueIsMultiplicity` | src/common/vector.cpp:34-42 | the count of set bits is how often true is among them |
| `Vectors.PlaceIsInjective` | src/common/vector.cpp:17-23 | rows of one word have different bits |
| `Vectors.ValidityMask.AllValid` | src/common/vector.cpp:25-32 | true exactly when the first bits are all set |
| `Vectors.ValidityMask.CountValid` | src/common/vector.cpp:34-42 | the number of set bits among the first |
| `Vectors.ColumnVector.GetValue` | src/common/vector.cpp:95-117 | the slot's value or NULL; an error past the end and on an untouched VECTOR slot |
| `Vectors.ColumnVector.SetValue` | src/common/vector.cpp:119-153 | one slot changes and no other; past the end or with another type nothing does |
| `Vectors.ColumnVector.Reset` | src/common/vector.cpp:85-93 | everything valid, strings and vectors emptied, fixed-size data left as it is |
| `Vectors.StoreThenLoad` | src/common/vector.cpp:95-153 | a stored value or NULL is read back, and the other slots are as before |
| `DataChunks.DataChunk.Initialize` | src/common/data_chunk.cpp:10-17 | fresh, separate, blank columns of the given types and no rows |
| `DataChunks.DataChunk.SetValue` | src/common/data_chunk.cpp:38-38 | one cell of one column changes |
| `DataChunks.DataChunk.AppendRow` | src/common/data_chunk.cpp:52-63 | one more row at the end; the three ways to fail leave the rows as they were |
| `DataChunks.DataChunk.Slice` | src/common/data_chunk.cpp:40-50 | the rows become the selected rows in selection order; when it cannot, the chunk is untouched |
| `DataChunks.DataChunk.CopyFrom` | src/common/data_chunk.cpp:65-76 | both chunks then have the same types and rows, and share no storage |
| `DataChunks.DataChunk.Reset` | src/common/data_chunk.cpp:78-83 | no rows, and every column still of its type |
| `DataChunks.SelectedCell` | src/common/data_chunk.cpp:40-50 | the i-th row after slicing has the cells of the i-th selected slots |
| `DataChunks.ReadableIff` | src/common/vector.cpp:95-117 | slicing fails exactly on a slot past the end or an embedding without components |
| `DataChunks.Gather` | src/common/data_chunk.cpp:45-47 | the column loop copies selected slots, and stops exactly when one cannot be read |
| `DataChunks.MaterializeChunk` | src/execution/operator/physical_order_by.cpp:63-71 | the rows of the chunk go to the end of the list, in order |
| `LakeLog.LakeTable.Version` | lab4_lakebase/lakebase/lake_table.py:115-119 | counting the .json names of the directory finds the newest version of a log without gaps, whatever temporary files lie about |
| `LakeLog.LakeTable.Commit` | lab4_lakebase/lakebase/lake_table.py:132-139 | the next log file appears whole, or after a crash only a temporary file does |
| `LakeLog.LakeTable.SnapshotFiles` | lab4_lakebase/lakebase/lake_table.py:141-151 | the nested loops replay commits 1 to the version; a missing commit or a removed path that is not live is an error |
| `LakeLog.LakeTable.Vacuum` | lab4_lakebase/lakebase/lake_table.py:97-110 | deletes exactly the parquet files outside the snapshot and returns them; when the log does not replay it deletes nothing |
| `LakeLog.ParquetIff` | lab4_lakebase/lakebase/lake_table.py:106-106 | a file counts as parquet exactly when its name is a stem with that ending |
| `LakeLog.StaleIsWhatGoes` | lab4_lakebase/lakebase/lake_table.py:97-110 | vacuum returns exactly the files that are gone afterwards, each once |
| `LakeReplay.SnapshotIsWhatRemains` | lab4_lakebase/lakebase/lake_table.py:141-151 | a version replays exactly when no commit is missing and every remove finds its path added more often than removed before; live are the adds that no remove has used up, in order, each path as often as added less removed |
| `LakeReplay.ReplayLeavesSurvivors` | lab4_lakebase/lakebase/lake_table.py:146-150 | the same for any list of actions |
| `LakeReplay.SnapshotErrorIsFirst` | lab4_lakebase/lakebase/lake_table.py:145-150 | a replay that fails names the first missing commit, or the first path removed while not live |
| `LakeLog.CountIsNext` | lab4_lakebase/lakebase/lake_table.py:115-119 | with log files 0 to n - 1 the number of them is n, temporary files not counted |
| `LakeLog.LogIsContiguous` | lab4_lakebase/lakebase/lake_table.py:132-139 | in every run with crashes the log files are 0 to the version without a gap |
| `LakeLog.HistoryIsImmutable` | lab4_lakebase/lakebase/lake_table.py:132-151 | a commit never changes, and replay at its version gives the same for ever |
| `LakeLog.NewestIsAlwaysReadable` | lab4_lakebase/lakebase/lake_table.py:97-151 | in every disciplined run the newest snapshot replays and all its files are on disk |
| `LakeLog.OnDiskIff` | lab4_lakebase/lakebase/lake_table.py:97-110 | at every point of every run the files on disk are those written and not deleted since |
| `LakeLog.PublishIsReadableIff` | lab4_lakebase/lakebase/lake_table.py:132-151 | a commit can be read exactly when it replays and what it makes live is on disk |
| `LakeLog.CommitIsReadableIff` | lab4_lakebase/lakebase/lake_table.py:97-151 | in every run: exactly when it replays and what it makes live was written and not deleted since |
| `LakeLog.AppendIsReadableIff` | lab4_lakebase/lakebase/lake_table.py:97-139 | a file written by one step and committed by a later one can be read exactly when no vacuum in between found it parquet and not live |
| `LakeLog.AlwaysReadableIff` | lab4_lakebase/lakebase/lake_table.py:97-151 | over a whole run that replays, the newest version is readable throughout exactly when every commit kept its files |
| `LakeLog.VacuumLeavesSnapshot` | lab4_lakebase/lakebase/lake_table.py:97-110 | afterwards the parquet files on disk are exactly those of the snapshot, and other files are untouched |
| `LakeLog.VacuumAndTimeTravel` | lab4_lakebase/lakebase/lake_table.py:98-103 | vacuum keeps a version readable exactly when its parquet files are all live |
| `LakeLog.VacuumDuringAppendLosesData` | lab4_lakebase/lakebase/lake_table.py:104-109 | creating, writing, vacuuming and committing in this order: the vacuum deletes the written file and the commit names it |

## Left out

- Grammars with left recursion, and empty literals: the engine may recurse without end on the former, and the last character of an empty literal is undefined (src/parser/peg.cpp:402); the matcher is modelled on well-formed grammars, and `PegCertificates.WellFormedIffInferred` says which those are.
- Characters above 127: the engine compares signed bytes; the model compares characters.
- 64-bit wrap-around of counters, positions, memo keys and atomic offsets; only the hash arithmetic of group keys wraps here.
- Parser.Transform and the SQL grammar itself, the transformer and the binder.
- Function bodies that only throw NotImplementedException: scans, filters, projections, joins, sorting, limits, aggregate updates, expression evaluation. They appear as arbitrary functions, filters, projections and joins as arbitrary functions of the form their comments describe; expression evaluation follows the contract its source documents, and the zone map check is any oracle that does not throw.
- How std::unordered_map rehashes: a table of buckets by full hash code stands for it, with an arbitrary element hash that maps equal doubles to equal codes.
- Double arithmetic: doubles are reals with infinities and NaN; BIGINT to double rounds to 53 bits, halves to even. Minus zero is zero.
- Threads and the C++ memory model: the atomic counters and the sections under a lock are single steps. PhysicalLimit's shared row budget is part of an unimplemented body.
- The result collector below the top of a plan: PipelineBuilder never meets one.
- Plans.CompileDelivers: assumes that plan nodes are distinct objects, as unique ownership guarantees.
- Plans.PipelinesComputePlan: says nothing about workers and the drain loop; Execution.EveryExecutionComputesPlan does.
- Execution.Execute: excludes plans that are not safe, because the drain loop need not end there, and it raises no exceptions; Workers has them.
- Operators that throw on rows of another schema: filters, projections and joins are total functions here. Where the drain loop feeds a join's output to an operator in front of it, the code may also throw; such a run is not finalized.
- One theorem from the logical plan to the executed rows: PlanGenerator and Plans describe the physical plan in types of their own, the one with expressions and errors, the other with row functions, and are not composed.
- Results.QueryResult.GetValue: a column beyond the width of a row is undefined behaviour in the source and is excluded.
- Results.Emitter.EmitRows: a chunk is the list of its rows there; that columns hold rows faithfully is the subject of DataChunks.
- DataChunks.DataChunk.CopyFrom: a chunk copied into itself is excluded; the source would empty it.
- LakeLog.LakeTable.Commit: file names are version numbers, not zero-padded text, and a commit's content is its list of actions; JSON, DuckDB and Parquet are not part of this model.
- Two writers that commit at the same time: rename would overwrite; the lake table promises nothing there.
- Vector distance kernels, catalog lookups, the shell, and everything that formats output.
