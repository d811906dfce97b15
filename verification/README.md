# ImpactOS: a Dafny model of its core and proofs about it

ImpactOS is an economic-impact platform around a Leontief input-output engine. This project models
five parts of it and proves properties of each for all inputs, all runs or all interleavings.

1. **The input-output core.** Flows are built from outputs, value-added ratios and weights, turned
   into technical coefficients A, and inverted. `Leontief` isolates one property of A,
   inverse-monotonicity (v >= A v forces v >= 0). It follows from column sums below 1 (the synthetic
   model) and, by a different argument, from A x <= 0.7 x alone (the capped fixtures). From it come
   existence (`Elimination`), uniqueness, two-sidedness and nonnegativity of the inverse and the
   bounds on multipliers. `Spectral` bounds every complex eigenvalue, under either condition, and the
   Neumann series. `ModelValidator` is the engine's check of a model and states exactly which models
   it accepts. `SyntheticModel`, `FixtureModel` and `VaRatios` model the scripts and carry these
   results to the run-time checks in them.
2. **The tool-call scanner.** `Scanner` is the brace scanner, `ScannerGrammar` shows that it accepts
   exactly a grammar of braced blocks, `JsonText` embeds every RFC 8259 object text in that grammar,
   `JsonMeaning` says what Python value a text stands for, `Copilot` is the outer parsing loop and
   `ConfirmationGate` the turn that follows.
3. **Append-only records.** `DecisionHistory` and `Decisions` model mapping decisions, bulk approval,
   the audit trail and the status counts; `Versions` models publishing as interleaved steps guarded
   only by the database's unique constraints.
4. **The LLM client.** `LlmClient` models routing, bounded retry with backoff and the usage log
   against an adversary who chooses what every attempt does.
5. **Ranking and rounding.** `Matching` models the library matcher (with `Strings` for splitting a
   text into words), `Divisions` the disaggregation of section outputs, with `Rounding` for Python's
   half-to-even `round` and `Sorting` for its `sorted`.

Vectors are sequences of exact reals, matrices sequences of rows. Code that changes state is a class
or a method over an array, specified by functions of the old state; the theorems are about those
functions.

## Where the code and its documentation differ

The code is followed in each case.

- The fixture script's row cap is said to leave room for value added, but it says nothing about the
  columns. The script succeeds exactly when every column of the capped matrix sums to less than 1
  (`FixtureModel.GenerateFixtures`); `FixtureModel.ExpensiveColumnRejected` is a nonnegative matrix
  with positive outputs that the validator rejects. Profiles whose columns all stay below 1, as the
  script's are meant to (0.65 at most), are accepted with every output vector
  (`FixtureModel.ProfileColumnsSuffice`).
- Bulk approval does not consult the transition table that single puts obey. Histories stay paths of
  the table when it lists AI_SUGGESTED to APPROVED, as the shipped one does
  (`Decisions.ShippedRunsKeepPaths`); under another table, without that entry, they do exactly when
  the approval takes nothing (`Decisions.BulkPathsExactly`).
- A put demands a sector code for an APPROVED decision; a bulk approval copies the suggested code even
  when there is none. `Decisions.BulkSoundExactly` states when it is harmless and
  `Decisions.UncodedApproval` reaches one where it is not by two requests to an empty store.
- RESTRICTED calls are documented as always routed to the local provider, but the table lookup comes
  first and fails for a table without that key (`LlmClient.RestrictedAnsweredExactly`,
  `LlmClient.RestrictedUnrouted`). They never reach an external provider in any case.
- A tool name that is a JSON list or object makes the validation raise TypeError and not the
  documented error. `ConfirmationGate.UnhashableExactly` says exactly which turns end so, and
  `ConfirmationGate.ListNamedRaises` gives a reply that does.
- A version publishes "a snapshot", but a publisher reads the entries before it reads the latest
  version, so a greater number can hold an older state of the library
  (`Versions.SnapshotsOutOfOrder`). It does exactly when its publisher was overtaken: another
  publisher read the entries and had its insert accepted between those two reads
  (`Versions.OvertakenExactly`).

## Model

| member | source | states |
|---|---|---|
| Leontief.ColumnMonotone | scripts/build_synthetic_model.py:294-300 | column sums of A below 1 make I - A inverse-monotone |
| Leontief.RowMonotone | scripts/generate_synthetic_fixtures.py:230-242 | A x <= rho x for one positive x and rho < 1, with no column condition, makes I - A inverse-monotone |
| Leontief.InverseEquation | scripts/build_synthetic_model.py:298-300 | the entrywise form of the solve is the matrix equation (I - A) B = I |
| Leontief.IMinusInjective | scripts/build_synthetic_model.py:299-300 | I - A maps no two vectors to the same image |
| Leontief.InverseNonnegative | scripts/build_synthetic_model.py:523-528 | any solution B of (I - A) B = I is nonnegative and dominates I, so the negative-entry exit is unreachable |
| Leontief.InverseTwoSided | scripts/build_synthetic_model.py:298-300 | a right inverse of I - A is a left inverse |
| Leontief.InverseUnique | scripts/build_synthetic_model.py:298-300 | the solve has one possible answer |
| Leontief.InverseUndoes | scripts/build_synthetic_model.py:298-307 | B and I - A undo each other on every vector |
| Leontief.InverseBoundsOutput | scripts/generate_synthetic_fixtures.py:313-320 | under A x <= rho x, (1 - rho) B x <= x |
| Leontief.MultipliersAtLeastOne | scripts/generate_synthetic_fixtures.py:319-334 | every Type I multiplier is at least 1 |
| Leontief.ValueAddedIdentity | scripts/build_synthetic_model.py:293-303 | value added embodied in one unit of final demand for any sector is exactly 1 |
| Leontief.MultipliersBounded | scripts/build_synthetic_model.py:302-303 | multipliers lie between 1 and 1 over the smallest value-added ratio |
| Elimination.SolutionExists | scripts/build_synthetic_model.py:298-300 | (I - A) y = f is solvable for every f |
| Elimination.InverseExists | scripts/build_synthetic_model.py:298-300 | the inverse exists, so the other results are not about an empty case |
| Spectral.PowerColumnSums | scripts/build_synthetic_model.py:290-295 | columns of A^k are nonnegative and sum to at most (1 - v)^k |
| Spectral.NeumannConverges | scripts/build_synthetic_model.py:298-303 | B minus I + A + ... + A^k is nonnegative with column sums at most (1 - v)^(k+1) / v |
| Spectral.SpectralRadiusBound | scripts/build_synthetic_model.py:290-292 | every complex eigenvalue has modulus at most 1 - v, below 1 |
| Spectral.RowSpectralBound | src/data/io_loader.py:466-472 | A x <= rho x for one positive x bounds the modulus of every complex eigenvalue by rho, with no column condition |
| ModelValidator.ValidateModel | src/data/io_loader.py:440-519 | the tests in order: the errors and warnings collected, and the empty model on which taking the largest eigenvalue raises |
| ModelValidator.ValidationMeans | src/data/io_loader.py:440-519 | which errors and warnings an outcome holds |
| ModelValidator.AcceptedExactly | src/data/io_loader.py:413-519 | a model is accepted exactly when it has a sector, shapes agree, flows are nonnegative, outputs positive and every sector's inputs cost less than its output: the radius and inverse tests reject nothing more |
| ModelValidator.RowContractionErrors | src/data/io_loader.py:466-494 | under A x <= rho x the value-added test is the only one that can fail, and it names exactly the failing columns |
| ModelValidator.NonpositiveAre | src/data/io_loader.py:447-486 | the sectors an error names are exactly the nonpositive ones, in order |
| ModelValidator.InputErrorsMean | src/data/io_loader.py:439-453 | each error on Z and x appears exactly when there is something to report, with its count or sectors |
| ModelValidator.CoefficientErrorsMean | src/data/io_loader.py:463-494 | so does each error on the coefficients; the inverse is reported on only when every eigenvalue lies inside the unit circle, below -1e-10 |
| ModelValidator.ErrorsInOrder | src/data/io_loader.py:436-494 | errors come in the order of the tests, each at most once |
| ModelValidator.WarningsMean | src/data/io_loader.py:496-511 | a sector draws a warning exactly when its column of the computed inverse sums to less than 1 or more than 5 |
| ModelValidator.AcceptedWarnings | src/data/io_loader.py:497-511 | an accepted model draws only warnings of multipliers above 5 |
| SyntheticModel.BuildFlows | scripts/build_synthetic_model.py:259-280 | the column loop computes the flow matrix in place |
| SyntheticModel.FlowColumnTotal | scripts/build_synthetic_model.py:271-278 | a column of Z adds up to x(1 - va), or to 0 when its weights do |
| SyntheticModel.FlowProportional | scripts/build_synthetic_model.py:273-276 | within a column, flows are in proportion to the weights |
| SyntheticModel.ValueAddedIsTarget | scripts/build_synthetic_model.py:288-296 | the value-added ratios recomputed from Z are the targets, or 1 for a column without weights |
| SyntheticModel.SyntheticContraction | scripts/build_synthetic_model.py:288-296 | valid inputs make A nonnegative with column sums at most 1 - v |
| SyntheticModel.SyntheticInverse | scripts/build_synthetic_model.py:283-307 | for valid inputs the inverse exists, is unique, two-sided and nonnegative, and maps final demand to output |
| SyntheticModel.OutputRoundTrip | scripts/build_synthetic_model.py:298-307 | B f = x exactly for f = x minus the row sums of Z, whatever the signs of f |
| SyntheticModel.ExpenditureEqualsIncome | scripts/build_synthetic_model.py:305-310 | total final demand equals total value added |
| SyntheticModel.ComputeMeans | scripts/build_synthetic_model.py:283-322 | each derived quantity in terms of Z, x and B |
| SyntheticModel.GatesExactly | scripts/build_synthetic_model.py:514-540 | which exit is taken, exactly: radius, then negative inverse entries, then value added |
| SyntheticModel.CheckMultiplierTargets | scripts/build_synthetic_model.py:332-360 | the two loops report exactly the target issues, then the range issues, in order |
| SyntheticModel.RangeIssuesExact | scripts/build_synthetic_model.py:352-358 | no range issue is reported exactly when every multiplier lies in [1, 5] |
| SyntheticModel.RangeIssuesAre | scripts/build_synthetic_model.py:352-358 | the range issues are exactly the multipliers below 1 or above 5 |
| SyntheticModel.TargetIssuesAre | scripts/build_synthetic_model.py:338-350 | the target issues are exactly the targets missed by their sector |
| SyntheticModel.RangeIssuesInOrder | scripts/build_synthetic_model.py:352-358 | range issues come in the order of the codes |
| SyntheticModel.TargetIssuesInOrder | scripts/build_synthetic_model.py:338-350 | target issues come in the order of the targets |
| SyntheticModel.NoRangeIssues | scripts/build_synthetic_model.py:352-358 | with all ratios at least 0.2 no range issue can be reported |
| SyntheticModel.GatesAlwaysPass | scripts/build_synthetic_model.py:512-535 | for valid inputs none of the script's exits is taken |
| FixtureModel.CapRows | scripts/generate_synthetic_fixtures.py:230-242 | the scaling loop turns A into the capped matrix, dividing only when sales exceed a limit |
| FixtureModel.CappedSales | scripts/generate_synthetic_fixtures.py:235-242 | a capped row sells the smaller of what it sold and 70% of output |
| FixtureModel.CappedProportional | scripts/generate_synthetic_fixtures.py:239-242 | a capped row keeps its proportions |
| FixtureModel.CappingIdempotent | scripts/generate_synthetic_fixtures.py:230-242 | capping twice is capping once |
| FixtureModel.CompliantRowsKept | scripts/generate_synthetic_fixtures.py:238-242 | a row is unchanged exactly when it was within its limit |
| FixtureModel.CoefficientsNotRaised | scripts/generate_synthetic_fixtures.py:239-242 | no coefficient grows or turns negative |
| FixtureModel.ColumnSumsNotRaised | scripts/generate_synthetic_fixtures.py:239-242 | no column sum grows |
| FixtureModel.BuildModel | scripts/generate_synthetic_fixtures.py:247-273 | reports the first sector whose deliveries exceed its output, else the validator's errors, else returns the flows |
| FixtureModel.CappedDeliveriesCovered | scripts/generate_synthetic_fixtures.py:258-265 | after capping the excess-deliveries error is unreachable |
| FixtureModel.BenchmarkInverse | scripts/generate_synthetic_fixtures.py:309-317 | for the capped model the inverse exists, is unique and nonnegative, and 0.3 B x <= x |
| FixtureModel.BuildBenchmark | scripts/generate_synthetic_fixtures.py:319-334 | returns the rounded multipliers, or the sectors whose rounded multiplier is below 1 |
| FixtureModel.BenchmarkNeverRaises | scripts/generate_synthetic_fixtures.py:319-334 | for the capped model every multiplier is at least 1 before and after rounding |
| FixtureModel.CappedErrors | scripts/generate_synthetic_fixtures.py:267-273 | on a capped model the validator's errors are none, or the one naming the columns that sum to 1 or more |
| FixtureModel.ProfileColumnsSuffice | scripts/generate_synthetic_fixtures.py:111-119 | a profile with every column sum below 1 keeps value added positive under every cap |
| FixtureModel.ExpensiveColumnRejected | scripts/generate_synthetic_fixtures.py:267-273 | a nonnegative matrix and positive outputs whose capped model the validator rejects |
| FixtureModel.GenerateFixtures | scripts/generate_synthetic_fixtures.py:230-343 | capping, flows, validation, inverse and benchmark composed: succeeds exactly when there is a sector and every capped column sums to less than 1, and then reports each column sum of the inverse of the capped matrix to the nearest 0.0001; otherwise the validator's value-added error is the only outcome |
| VaRatios.ComputeVaRatios | src/api/models.py:174-184 | on every matrix and output vector the ratios lie in [0, 1] |
| VaRatios.RatiosRoundTrip | src/api/models.py:174-184 | on synthetic flows the original ratios come back, and 1 for a column without weights |
| VaRatios.RatioMeaning | src/api/models.py:180-184 | the ratio is the share of output left exactly when inputs lie between 0 and output; 0 and 1 exactly at and beyond the ends |
| Scanner.ExtractBalancedBraces | src/agents/economist_copilot.py:98-136 | returns the shortest prefix whose string-aware depth returns to zero, and None exactly when there is none |
| Scanner.RunItems | src/agents/economist_copilot.py:111-134 | scanning well-formed items leaves the state as it was and never dips below the starting depth |
| Scanner.BracedIsBlock | src/agents/economist_copilot.py:98-136 | a braced well-formed block, whatever follows it, is exactly what is extracted |
| ScannerGrammar.BlockIsBraced | src/agents/economist_copilot.py:98-136 | everything extracted is a braced well-formed block |
| ScannerGrammar.BlockExactlyGrammar | src/agents/economist_copilot.py:98-136 | the scanner and the grammar agree on every text and position |
| JsonText.ValueItems | src/agents/economist_copilot.py:98-136 | every JSON value of RFC 8259 prints as well-formed items |
| JsonMeaning.FieldsKeys | src/agents/economist_copilot.py:83-88 | a parsed object has a key exactly when some member's key decodes to it |
| JsonMeaning.LastMemberWins | src/agents/economist_copilot.py:83-88 | the last member with a key gives its value |
| JsonMeaning.UnquotedDecodes | src/agents/economist_copilot.py:83-88 | a string without escapes decodes to its own code points |
| JsonMeaning.DecodeEscaped | src/agents/economist_copilot.py:83-88 | decoding the ASCII escapes of a string gives it back exactly when it has no high surrogate immediately before a low one |
| JsonMeaning.SlashDecodes | src/agents/economist_copilot.py:83-88 | the one short escape that escaping does not write, of the slash |
| JsonText.ObjectExtracted | src/agents/economist_copilot.py:98-136 | a JSON object text anywhere in a text is extracted exactly |
| Copilot.ParseToolCalls | src/agents/economist_copilot.py:69-95 | the loop terminates and returns the kept calls in order |
| Copilot.CallsFromSpans | src/agents/economist_copilot.py:77-93 | the calls are what the JSON library makes of the extracted spans |
| Copilot.SpansOrdered | src/agents/economist_copilot.py:77-93 | spans are blocks of the text, increasing and disjoint |
| Copilot.SpansMissNothing | src/agents/economist_copilot.py:77-93 | every block of the text is a span or starts inside an earlier one |
| Copilot.ReplyCalls | src/agents/economist_copilot.py:69-95 | for prose interleaved with JSON objects, exactly the object texts are parsed, in order |
| Copilot.KeptExactly | src/agents/economist_copilot.py:83-88 | a printed object is kept exactly when its decoded keys include "tool" and "arguments" |
| Copilot.ReplyRoundTrip | src/agents/economist_copilot.py:69-95 | when the library reads back the printed objects, the calls are the meanings of exactly those whose decoded keys include both, in order |
| ConfirmationGate.ProcessTurn | src/agents/economist_copilot.py:229-268 | the loop returns all calls, or the first refused or gated one decides the outcome |
| ConfirmationGate.TurnMeans | src/agents/economist_copilot.py:229-268 | which calls a turn returns, holds back or refuses, in terms of tool names, arguments and confirmation |
| ConfirmationGate.OutcomeUnique | src/agents/economist_copilot.py:229-268 | that description leaves one outcome |
| ConfirmationGate.NothingGatedUnconfirmed | src/agents/economist_copilot.py:238-259 | without confirmation no gated tool is returned; every returned call is known and has object arguments |
| ConfirmationGate.RefusalMeans | src/agents/economist_copilot.py:139-155 | a call is accepted exactly when it names one of the five tools and has object arguments; which refusal is raised otherwise |
| ConfirmationGate.AdmittedMeans | src/agents/economist_copilot.py:238-259 | without confirmation exactly the three ungated tools are let through |
| ConfirmationGate.UnhashableExactly | src/agents/economist_copilot.py:139-149 | a turn ends in the undocumented TypeError exactly when some call's name is a list or object and every earlier call was admitted |
| ConfirmationGate.ListNamedRaises | src/agents/economist_copilot.py:139-149 | on the reply `{"tool": [], "arguments": {}}` every turn ends so |
| ConfirmationGate.ConfirmationOnlyUnblocks | src/agents/economist_copilot.py:238-254 | confirmation changes exactly the pending outcomes |
| DecisionHistory.BulkHistory | src/api/compiler.py:877-913 | a bulk approval appends to a line item one approval exactly when its latest row is a confident suggestion |
| DecisionHistory.SuggestedAfterBulk | src/api/compiler.py:877-919 | the suggestions left afterwards are exactly those skipped |
| DecisionHistory.LatestMeans | src/api/compiler.py:806-807 | the latest row is the last of the line item's; none exactly when it has none |
| DecisionHistory.HistoryMeans | src/api/compiler.py:965-965 | the history holds each row of the line item, in order, and nothing else |
| DecisionHistory.SuggestedCount | src/api/compiler.py:877-881 | the list of suggestions has one row per line item whose latest row is one |
| Decisions.Store.PutDecision | src/api/compiler.py:766-843 | each answer with its condition on the request, the latest row and the table; when accepted exactly the requested row is appended |
| Decisions.Store.BulkApprove | src/api/compiler.py:866-919 | every line item whose latest row is a suggestion of confidence at least t is approved with the right code, every other keeps its latest row; the counts are numbers of line items |
| Decisions.Store.AuditTrail | src/api/compiler.py:954-981 | each entry carries its row and starts in the state the previous one reached |
| Decisions.Store.CountDecisions | src/api/compiler.py:650-675 | decided items and items per state are counted; no zero entries |
| Decisions.CountsAddUp | src/api/compiler.py:673-675 | the per-state counts add up to the decided count |
| Decisions.CountsAre | src/api/compiler.py:673-675 | the decided count and the count of a state are numbers of listed items |
| Decisions.AuditTrailReplays | src/api/compiler.py:967-981 | replaying the trail succeeds and ends in the latest state |
| Decisions.ActionNames | src/api/compiler.py:926-934 | the action of each state |
| Decisions.ActionsDiffer | src/api/compiler.py:926-934 | no two states share an action |
| Decisions.AppendOnly | src/api/compiler.py:824-837 | over every run earlier rows are never changed or dropped |
| Decisions.RunKeepsPaths | src/api/compiler.py:807-822 | over every run each line item's history is a path of the transition table |
| Decisions.RunFollowsTable | src/api/compiler.py:807-822 | from an empty store, consecutive rows of a history are transitions listed in the table |
| Decisions.ShippedRunsKeepPaths | src/compiler/mapping_state.py:33-66 | with the shipped table every history of every run is a path |
| Decisions.BulkPathsExactly | src/api/compiler.py:894-913 | when the table (not the shipped one) forbids approving suggestions, bulk approval keeps paths exactly when it takes nothing |
| Decisions.LatestAfterBulk | src/api/compiler.py:877-913 | the latest decision of every line item after a bulk approval |
| Decisions.BulkApproves | src/api/compiler.py:884-913 | what a bulk approval does to a line item, field by field |
| Decisions.BulkLeavesNone | src/api/compiler.py:884-889 | a suggestion that is left has a confidence below the threshold, or none |
| Decisions.BulkOrderIrrelevant | src/api/compiler.py:877-913 | two thresholds in either order, or the lower one alone, give the same states and codes |
| Decisions.PutKeepsSound | src/api/compiler.py:788-804 | puts keep approved rows coded and excluded rows justified |
| Decisions.BulkSoundExactly | src/api/compiler.py:902-905 | bulk approval keeps approved rows coded exactly when every row it takes has a code |
| Decisions.UncodedApproval | src/api/compiler.py:902-905 | a put and a bulk approval on an empty store, with the shipped table, approve a suggestion without a code |
| Versions.InsertExactly | src/api/libraries.py:309-319 | an insert gets in exactly when no version was inserted since its read, and continues the sequence |
| Versions.StepKeepsInv | src/api/libraries.py:295-320 | every step of every request keeps the stored versions consecutive |
| Versions.VersionsConsecutive | alembic/versions/004_knowledge_flywheel.py:47-50 | under every interleaving the stored versions of a key are exactly 1..n in order |
| Versions.SnapshotsKept | src/api/libraries.py:271-282 | stored versions never change, whatever is patched later |
| Versions.FirstInsertWins | alembic/versions/002_feasibility.py:33 | of two publishers with the same number the first gets in and the other is rejected |
| Versions.SnapshotsWitnessed | src/api/libraries.py:304-319 | every stored snapshot lists the entries published when its own publisher read them, and that publisher then read the version before it as the latest and inserted it |
| Versions.SnapshotOrderExactly | src/api/libraries.py:304-319 | a snapshot was read after all earlier versions were stored exactly when no insert was accepted between its publisher's two reads |
| Versions.SnapshotsInOrder | src/api/libraries.py:304-319 | then every earlier version's entries were read, and that version stored, before |
| Versions.EarlierStoredBeforeLatestRead | src/api/libraries.py:304-319 | a later version's publisher read the latest version only after every earlier one was stored |
| Versions.OvertakenExactly | src/api/libraries.py:304-319 | of two versions of a workspace, the greater number holds entries read no later exactly when the other's entries read and accepted insert both fall between its publisher's two reads |
| Versions.SnapshotsOutOfOrder | src/api/libraries.py:304-319 | a run that stores an older state of the library under the greater number |
| Versions.PublishedIdsAre | src/api/libraries.py:304-307 | a snapshot's ids are those of the workspace's published entries |
| Versions.NewestFirst | src/repositories/libraries.py:82-97 | an entry created later comes first in a snapshot |
| Versions.PatchedAre | src/api/libraries.py:271-282 | a patch gives the entry with the id its status and leaves all others |
| Versions.IdsDistinct | src/api/libraries.py:271-282 | no two entries ever share an id |
| Versions.Library.Patch | src/api/libraries.py:271-282 | changes one entry's status and no version; reports a missing entry |
| Versions.Library.Publish | src/api/libraries.py:456-476 | uninterrupted, it stores the next version with the published entries, as the three steps do |
| Versions.ConstraintSets.Create | src/api/feasibility.py:119-144 | stores the next version of a set, or version 1 of a new one |
| LlmClient.Client.Call | src/agents/llm_client.py:262-315 | routes, guards and dispatches; only an external response is logged (with CallRouted, LocalAnswer and ExternalAnswer for what each route gives) |
| LlmClient.Client.CallExternalWithRetry | src/agents/llm_client.py:343-380 | first good attempt k has slept base(2^k - 1); exhaustion after n attempts has slept base(2^(n-1) - 1) |
| LlmClient.CallRouted | src/agents/llm_client.py:278-300 | from the table and the keys: exactly when a call has no route, is answered locally, or lacks a key |
| LlmClient.LocalAnswer | src/agents/llm_client.py:382-421 | a local answer is empty without structure, the schema's defaults with it |
| LlmClient.ExternalAnswer | src/agents/llm_client.py:343-380 | the first usable reply within max_retries attempts answers, with its text, parsed value and usage; the sleep is the sum of the delays in between |
| LlmClient.DelaysDouble | src/agents/llm_client.py:240-242 | delays start at the base delay and double |
| LlmClient.SleptIsDelays | src/agents/llm_client.py:356-375 | the closed form of the time slept is the sum of the delays |
| LlmClient.RestrictedStaysLocal | src/agents/llm_client.py:280-282 | RESTRICTED data is never dispatched externally, for any table and keys |
| LlmClient.RestrictedAnsweredExactly | src/agents/llm_client.py:278-293 | RESTRICTED calls are answered exactly when the table has the key and the schema accepts the defaults |
| LlmClient.RestrictedUnrouted | src/agents/llm_client.py:149-151 | a table without the key leaves them unanswered |
| LlmClient.DispatchDisciplined | src/agents/llm_client.py:295-305 | dispatches go to the routed provider with a key, at most max_retries times; answered exactly when some attempt is good |
| LlmClient.EffectUnique | src/agents/llm_client.py:343-380 | the outcomes determine the call's effect |
| LlmClient.UsageSinceReset | src/agents/llm_client.py:246-258 | cumulative usage is that of the external responses since the last reset |
| LlmClient.Drive | src/agents/llm_client.py:240-380 | a new client driven through any calls and resets: each event is what its action does, and the usage reported is that of the external responses since the last reset |
| LlmClient.RunUnique | src/agents/llm_client.py:262-380 | actions and outcomes determine a run |
| LlmClient.RunDisciplined | src/agents/llm_client.py:262-305 | over every run no RESTRICTED event dispatches and all dispatches are bounded and keyed |
| LlmClient.CallBudget | src/agents/llm_client.py:356-375 | one call makes at most max_retries provider calls and sleeps at most base(2^(max_retries-1) - 1); a RESTRICTED one neither |
| LlmClient.RunBudget | src/agents/llm_client.py:262-380 | over every run provider calls and sleeping are bounded by the number of unrestricted calls |
| Strings.SplitAtSpace | src/agents/mapping_agent.py:52-52 | a text splits at white space into the words before and after |
| Strings.SplitSpaceless | src/agents/mapping_agent.py:52-52 | a text without white space is its only word |
| Strings.SplitAre | src/agents/mapping_agent.py:52-52 | no word is empty or holds white space |
| Strings.BlankHasNoWords | src/api/compiler.py:799-799 | a text is blank exactly when it has no words |
| Strings.SpacesAre | src/api/compiler.py:799-799 | the white-space characters |
| Matching.TokensAre | src/agents/mapping_agent.py:49-56 | a token is a cleaned word of the lower-cased text with two characters or more that is no stop word |
| Matching.CleanedConcat | src/agents/mapping_agent.py:53-53 | cleaning works piece by piece |
| Matching.CleanedStretch | src/agents/mapping_agent.py:53-53 | alphanumeric pieces are kept, others dropped |
| Matching.Tokenize | src/agents/mapping_agent.py:49-56 | lower-cases, splits and collects exactly the cleaned words that are tokens |
| Matching.OverlapBounds | src/agents/mapping_agent.py:59-68 | overlap lies in [0, 1], is 1 exactly on full recall and positive exactly on a shared token |
| Matching.SortedStable | src/agents/mapping_agent.py:113-113 | sorting keeps the entries, ordered by score with ties by position |
| Matching.SuggestOne | src/agents/mapping_agent.py:95-132 | in terms of token counts and confidences: matched exactly above 0.1, the earliest entry of greatest weighted share, 1.2 times that share capped at 1 to the nearest 0.001, else the fallback |
| Matching.SuggestionUnique | src/agents/mapping_agent.py:101-132 | item, library and taxonomy determine the suggestion, ties included |
| Matching.TextAdded | src/agents/mapping_agent.py:52-52 | text added after white space adds its words |
| Matching.ConfidenceNeverFalls | src/agents/mapping_agent.py:95-132 | adding words to an item or entries to the library never lowers the confidence `suggest_one` returns |
| Matching.FewShotExamples | src/agents/mapping_agent.py:151-166 | returns the first k (Python slice) of the ranking by overlap |
| Matching.FewShotMeans | src/agents/mapping_agent.py:151-166 | in terms of token counts: the first k entries by share of the pattern, ties by position |
| Matching.FewShotUnique | src/agents/mapping_agent.py:160-166 | text, library and k determine the examples, ties by position |
| Matching.TakenIsTop | src/agents/mapping_agent.py:165-166 | what is taken comes before every entry left out |
| Divisions.GroupBySection | scripts/build_division_data.py:401-406 | the map holds each section's active codes in table order |
| Divisions.BuildConcordance | scripts/build_division_data.py:408-415 | one mapping per known section, sections and codes sorted, holding its active codes |
| Divisions.ConcordanceUnique | scripts/build_division_data.py:408-415 | tables and sections determine the concordance |
| Sorting.SortedIs | scripts/build_division_data.py:409-414 | sorting rearranges into ascending order |
| Sorting.AscendingUnique | scripts/build_division_data.py:409-414 | there is only one ascending arrangement |
| Divisions.ConcordancePlaces | scripts/build_division_data.py:399-415 | the concordance holds each active division of a known section once |
| Divisions.MappingsAre | scripts/build_division_data.py:401-415 | a mapping lists a code as often as its section has an active division with it |
| Divisions.KnownSectionsExactly | scripts/build_division_data.py:408-415 | no active division is lost exactly when every section is known |
| Divisions.BuildWeights | scripts/build_division_data.py:429-445 | one row per active division in table order: its section's output times its own weight, rounded half to even, in thousands; 0 without a weight |
| Divisions.OutputConserved | scripts/build_division_data.py:435-445 | a section's n outputs differ from 1000 times output times total weight by at most 500 n |
| Divisions.SectionSplitUp | scripts/build_division_data.py:435-445 | where a section's weights add up to 1, its n outputs add up to its own within 500 n |
| Divisions.Validate | scripts/build_division_data.py:485-551 | accepts exactly when none of the listed errors is present |
| Divisions.ValidationExact | scripts/build_division_data.py:485-551 | on built data it accepts exactly the tables with 97 distinct codes, 84 active, known sections and names |
| Divisions.CheckMeans | scripts/build_division_data.py:485-551 | what the check tests on any data, with its numbers written out |
| Divisions.SoundMeans | scripts/build_division_data.py:485-551 | what sound tables are, with the numbers written out |
| Divisions.Build | scripts/build_division_data.py:563-572 | concordance, weights and check composed: a KeyError exactly when a section has no output, otherwise accepted exactly when the tables are sound |
| Rounding.RoundIntUnique | scripts/build_division_data.py:437-437 | rounding gives the nearest integer, the even one on a tie, and nothing else |
| Rounding.RoundToNearest | scripts/generate_synthetic_fixtures.py:324-324 | rounding to decimals gives the nearest multiple, the even one of two, and nothing else |
| Rounding.RoundToMonotone | src/agents/mapping_agent.py:121-121 | rounding to a fixed number of decimals is monotone |

## Left out

- Floating point: arithmetic is on exact reals, so the -1e-10 tolerance of the build script's inverse
  gate (the validator's is kept) and the four-decimal rounding of the written JSON do not appear. Rounding is kept for benchmark multipliers,
  mapping confidence and division outputs.
- The linear solver and the eigensolver: any matrix solving (I - A) B = I and any list of eigenvalues
  of A is accepted as their answer.
- SyntheticModel.Gates: the empty model, on which taking the largest eigenvalue would raise, is
  excluded by the positive sector count.
- The shipped tables (sector outputs, ratios, weights, profiles, divisions): every table meeting the
  stated conditions is covered. Filling the fixture matrix from its profile dictionary is not part of
  this model.
- ModelValidator.ValidateModel: the figures reported beside errors and warnings (radius, multipliers,
  ratios, totals) and the message texts.
- Import estimates, satellite coefficients, employment artifacts, report printing and file writing.
- Copilot.ParseToolCalls: `json.loads` is any function to a value or a decoding error; exceptions it
  does not document (recursion depth, oversized integers) are not modelled.
- JsonMeaning.Meaning: numbers keep their text and are not converted to Python's int and float.
- JsonText.ObjectExtracted: characters are Unicode scalar values, so Python strings holding lone
  surrogates are not covered.
- The system prompt, usage figures and narrative enrichment of a copilot turn.
- Matching.Tokenize: `str.lower` and `isalnum`, which depend on Unicode tables, are parameters.
- Prompt construction and batch suggestion, which maps `suggest_one` over the items.
- Decisions.Store.PutDecision: each endpoint call is one atomic step, since check and append have no
  guard in the database; identifiers and timestamps of rows are not modelled.
- Versions.Library.Create: the tags, confidence and other descriptive fields of an entry.
- Scenario patterns, listings and statistics of the libraries.
- LlmClient.Client.Call: prompts, models, keys' values, latency and logging; a reply that cannot be
  read counts as an attempt that raises. Concurrent calls are not interleaved.
- Divisions.Validate: the within-section weight warning, which does not affect the result, and the
  taxonomy update of the section file.
- HTTP routing, authentication, repositories' SQL, and the endpoints not named above.
