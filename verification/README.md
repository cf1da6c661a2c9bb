# StatGuardian: a verified model

StatGuardian is a data-quality engine.  A contract compiles to a list of check nodes; the nodes are
optimised, run column by column and merged with directly interpreted checks into one report.  A
streaming front end reads newline-delimited JSON with bounded memory, sanitises each record and
validates micro-batches.  Beside them stand statistics, an agent guard, lineage graphs, event windows,
a Delta log reader and a cardinality sketch.

The modules follow these components.  Code that updates state in the source is a `class` or a method
with loops here, proved against a specification function; the laws of each component are lemmas about
the specification functions.

| files | component |
|---|---|
| `Ndjson.dfy`, `NdjsonLaws.dfy` | the capped line reader over a buffer that returns arbitrary pieces, and what each line becomes |
| `StreamRun.dfy`, `StreamLaws.dfy`, `StreamFindings.dfy`, `StreamCuts.dfy`, `PlainText.dfy` | the run over a stream: limits, malformed policies, batches, report, and how streams can be cut |
| `RowChecks.dfy`, `BatchRuns.dfy`, `ContractChecks.dfy`, `BatchExamples.dfy` | when a stream may be cut into batches of any size |
| `Ast.dfy`, `Frames.dfy`, `Dag.dfy`, `Compiler.dfy`, `Optimizer.dfy`, `Schema.dfy`, `Executor.dfy` | contracts, frames, nodes, compilation, optimisation, direct interpretation, execution |
| `CheckMeanings.dfy` | what each constraint, node and rule finds, on the values in the cells |
| `CompilerLaws.dfy`, `ExecutorLaws.dfy`, `Verdicts.dfy`, `HiddenVerdict.dfy` | compiler correctness, order independence, when a verdict can be trusted |
| `Drift.dfy`, `Outliers.dfy` | the Kolmogorov-Smirnov statistic and the outlier rules, in exact arithmetic |
| `Sanitizer.dfy`, `SanitizerLaws.dfy`, `SanitizerFields.dfy`, `SanitizerSummary.dfy`, `Fnv.dfy`, `Bits.dfy` | redaction and normalisation of JSON records, event totals, the FNV-1a digest |
| `LeakSafety.dfy` | the sanitiser inside a stream run, and what diagnostics still show |
| `LoopDetection.dfy`, `Agent.dfy`, `AgentLaws.dfy` | the agent guard |
| `Lineage.dfy` | the lineage graph and its impact chains |
| `Windows.dfy` | tumbling and sliding event windows |
| `DeltaLog.dfy`, `DeltaOrder.dfy` | Delta log replay, time travel, and the order of the log directory |
| `Hll.dfy` | HyperLogLog registers |
| `StableSort.dfy`, `Sequences.dfy` | stable sorting and small vocabulary |

What the host program takes from libraries (UTF-8 and JSON decoding, text case and trimming, regular
expressions, casts and distinct counts of columns, the engine behind a stream run) enters as
function-valued fields or parameters, so every law holds for all of them.  Numbers with fractions are
`real`, counters are unbounded, and 64-bit arithmetic is written out where it matters (`Fnv`, `Hll`).

## Where the code and its documentation differ

The model follows the code.

- `crates/statguardian-stream/src/limits.rs:11` measures a line before its newline; the reader counts the
  newline (`Ndjson.CapCountsTheNewline`).
- `crates/statguardian-stream/src/sanitize.rs:32-33` and `43-44` give redaction and normalisation a
  recursive flag each; either flag makes both recurse (`Sanitizer.Policy.Deep`).
- `crates/statguardian-core/src/compiler/optimizer.rs:58-59` calls a completeness metric and a null check
  equivalent.  They are not, but the rule engine evaluates the same metric directly, so dropping the
  node loses no finding (`ExecutorLaws.DroppedNodesAreCovered`).
- `crates/statguardian-core/src/compiler/optimizer.rs:78` says that profile nodes always run last.  They have
  severity Info and cost 6, so an Info node of higher cost runs after them (`Optimizer.PlanIsOrdered`).
- A blocking check can fail in a report that passes: a softer violation with the same column and check
  comes first, and the blocking node aborts the column.  The `id` column of `examples/basic_validation.sg`
  is such a case (`HiddenVerdict.BlockingFailureCanPass`).  `Verdicts.VerdictOfContract` gives a condition
  on the contract under which no failure is hidden; for the labels that a contract's sources report under
  it is exact (`Verdicts.VerdictIsKeptExactly`).  `Verdicts.UniqueHidesUniquenessRules` gives the verdict,
  for every contract, where a unique constraint fails and no other name is out of order: the report fails
  exactly when a schema, rule or cross-column check blocks under another name, or the first node to block
  in some column does.  A Blocking node that the abort skips does not count.
- Which rows a stream run reports can depend on the batch size: `min` and `max` on a column share the name
  `range_check`, and a row that fails a Blocking check keeps the later checks of its column from running
  for the whole batch (`BatchExamples.MinAndMaxDependOnBatches`, `BatchExamples.BlockingChecksDependOnBatches`).
  The exact condition for a contract is that its checks are uniform over the consecutive records that runs
  accept (`ContractChecks.ContractBatchesExactly`).  This is about records whose columns have fixed types.
  The source infers columns and types from each batch
  (`crates/statguardian-stream/src/validator.rs:188-194`), which is another way in which the batch size can show.
- Redaction does not reach lines that are not JSON.  Their diagnostics quote the parser and, if raw
  diagnostics are allowed, the line (`LeakSafety.TruncatedRecordsLeak`, `LeakSafety.RawDiagnosticsQuote`).
- `crates/statguardian-core/src/streaming.rs:183-192` expects about `size / slide` open windows.  The walk
  stops at the oldest window still open, so at most two are held (`Windows.AtMostTwoWindows`) and later
  windows that cover an event are not returned (`Windows.MissesExactly`).
- Time travel to a moment before the first commit finds version 0
  (`DeltaLog.AsOfWasCommittedExactly`).
- The guard's advice can weaken when a trace reports a negative cost (`Agent.NegativeCostsCanWeaken`; exactly
  when is `Agent.NeverWeakensExactly`).
- Two files of the log directory can name one version; the snapshot then depends on the listing unless they
  agree (`DeltaOrder.OrderNeverMattersExactly`).

## Model

| member | source | states |
|---|---|---|
| `Ndjson.ReadLineCapped` | crates/statguardian-stream/src/ndjson.rs:115-161 | However the buffer cuts the input into pieces, one call consumes exactly the first line, reports its length, keeps at most the first cap bytes, and flags it exactly when it is longer than the cap |
| `Ndjson.NdjsonSource.NextLine` | crates/statguardian-stream/src/ndjson.rs:52-107 | The next non-blank line of the newline split with the next index, or nothing at the end; the byte count is always the input consumed so far |
| `Ndjson.ReadAll` | crates/statguardian-stream/src/ndjson.rs:52-107 | Reading to the end yields exactly the records of the newline split, for every way of cutting the input, and the byte counts add up to its length |
| `Ndjson.LinesSplit` | crates/statguardian-stream/src/ndjson.rs:115-161 | The specification of lines is the newline split: the lines concatenate to the input and each ends at its first newline |
| `Ndjson.NewlineSplitUnique` | crates/statguardian-stream/src/ndjson.rs:115-161 | There is only one newline split of an input |
| `NdjsonLaws.LinesBecomeRecords` | crates/statguardian-stream/src/ndjson.rs:52-107 | For any newline split, the records are exactly the lines that are not blank, each numbered by how many of them precede it, with its length and flags, and as text the line without the newlines and carriage returns at its end; a line is blank when it fits the cap, decodes, and that text is white space |
| `Ndjson.CapCountsTheNewline` | crates/statguardian-stream/src/limits.rs:11-14 | A line of exactly cap bytes is oversized with its newline and accepted without one |
| `StreamRun.ValidateReader` | crates/statguardian-stream/src/validator.rs:65-165 | For any cutting of any bytes, a run succeeds exactly when no line fails fast and every batch materialises, with the specified report; otherwise its error explains what failed first |
| `StreamRun.FailureIsDetermined` | crates/statguardian-stream/src/validator.rs:65-165 | A run that an error explains does not succeed, and no other error explains it: outcome and error are determined by the bytes |
| `StreamRun.ReadLines` | crates/statguardian-stream/src/validator.rs:71-158 | The read loop handles exactly the lines before the first limit, and leaves batches and counters as specified |
| `StreamRun.RunState.RejectLine` | crates/statguardian-stream/src/validator.rs:279-318 | Each rejection is counted, oversized ones separately; the diagnostic with its reason and preview is kept only under a collecting policy with room left |
| `StreamRun.RunState.FlushBatch` | crates/statguardian-stream/src/validator.rs:168-228 | A batch adds its violations as findings under the record numbers of its rows, or fails with the reason why it does not materialise; an empty batch adds nothing |
| `StreamRun.BatchesOfFull` | crates/statguardian-stream/src/validator.rs:154-160 | Flushing whenever the batch is full is cutting the accepted records into consecutive batches |
| `StreamRun.RecordNumbers` | crates/statguardian-stream/src/ndjson.rs:72-101 | Records are numbered 0, 1, 2 and so on |
| `StreamRun.DiagnosticsInOrder` | crates/statguardian-stream/src/validator.rs:306-328 | Diagnostics are already in record order, so the final sort leaves them alone |
| `StreamFindings.LineIsJudged` | crates/statguardian-stream/src/validator.rs:104-151 | A line is accepted with its sanitised value exactly when it fits, decodes and parses; otherwise the reason says which failed, and a raw preview, where allowed, is cut after 200 characters |
| `StreamFindings.FirstAreCollected` | crates/statguardian-stream/src/validator.rs:303-315 | With one maximum for both kinds of rejected lines the report lists the first ones up to it |
| `StreamFindings.OneMoreDiagnostic` | crates/statguardian-stream/src/validator.rs:303-315 | In general each rejected line joins the shared list under its own policy while the list is shorter than that maximum |
| `StreamFindings.ErrorNamesTheLine` | crates/statguardian-stream/src/validator.rs:289-300 | A run that fails on a line fails under the policy of its kind and names the record, and for text that is not JSON the parser's reason |
| `StreamFindings.FindingsTellViolations` | crates/statguardian-stream/src/validator.rs:196-223 | In a successful run a batch has a finding without a record exactly when the engine returns a violation with its key and no rows, and one for a record exactly when such a violation lists the record's row |
| `StreamFindings.FindingsAreCounted` | crates/statguardian-stream/src/validator.rs:196-223 | There is one finding for each violation without rows and one for each listed row within its batch, and no other |
| `StreamFindings.FailsExactly` | crates/statguardian-stream/src/validator.rs:330-333 | The run does not pass exactly when the engine returns a Blocking violation without rows, or with a row within its batch |
| `StreamFindings.ReportIsOrdered` | crates/statguardian-stream/src/validator.rs:321-327 | Findings without a record come first, the others by record; then by column, check and batch |
| `StreamFindings.ReportCounts` | crates/statguardian-stream/src/validator.rs:162-164 | Validated records are the processed lines that fit, decode and parse, malformed ones the others, and oversized ones those longer than the cap |
| `StreamFindings.ReportKeepsOrder` | crates/statguardian-stream/src/validator.rs:321-328 | Diagnostics and sanitising events are those of the processed lines, in their order |
| `StreamLaws.Accounting` | crates/statguardian-stream/src/validator.rs:162-164 | Records read are the validated and the malformed ones, and one more exactly when the run was truncated; a run that was not has read every record and consumed every byte |
| `StreamLaws.BatchCount` | crates/statguardian-stream/src/validator.rs:154-160 | The number of batches is the validated records divided by the batch size, rounded up, with size 0 acting as 1 |
| `StreamLaws.BatchesPartition` | crates/statguardian-stream/src/validator.rs:154-160 | The batches concatenate to the accepted records; none is empty or longer than the size |
| `StreamLaws.EveryLineIsJudged` | crates/statguardian-stream/src/validator.rs:104-154 | The accepted and the rejected lines add up to the processed ones |
| `StreamLaws.RecordLimit` | crates/statguardian-stream/src/validator.rs:74-85 | With only a record limit m over N records, exactly min(N, m) are validated or rejected, and the run is truncated exactly when N exceeds m |
| `StreamLaws.ByteLimit` | crates/statguardian-stream/src/validator.rs:86-97 | With only a byte limit, every processed record began before it, and a truncated run stopped at the first that did not and consumed one record more |
| `StreamLaws.LimitsStop` | crates/statguardian-stream/src/validator.rs:74-97 | Whatever limits are set, exactly the records up to the first that some limit forbids are processed, and a truncated run names that limit, the record limit before the byte limit |
| `StreamLaws.FindingsNameTheirLines` | crates/statguardian-stream/src/validator.rs:168-228 | For a row-local engine a record is reported with a key exactly when that source line was accepted and its own value is flagged, whatever was rejected in between |
| `StreamLaws.BatchSizeIsInvisible` | crates/statguardian-stream/src/validator.rs:155-160 | For a row-local engine the batch size changes no row finding |
| `StreamLaws.StreamOfLines` | crates/statguardian-stream/src/validator.rs:71-158 | A stream made of given non-blank lines has exactly these records, and without limits all are processed |
| `RowChecks.MarkedExactly` | crates/statguardian-engine/src/batch.rs:24-58 | With the per-column abort and the merge, a batch marks a row under a name exactly when the row fails a check of that name and no check that hides it fires: an earlier one of the name, or an earlier Blocking one of its column in the plan |
| `RowChecks.UniformChecksAreRowLocal` | crates/statguardian-engine/src/batch.rs:24-58 | If each failed check is hidden in a batch exactly when it is hidden from the row alone, the engine is row-local |
| `RowChecks.OnlyUniformChecksAreRowLocal` | crates/statguardian-engine/src/batch.rs:24-58 | Conversely, an engine that is row-local in any sense has such checks |
| `RowChecks.PairsDecide` | crates/statguardian-engine/src/batch.rs:24-58 | Among row checks the condition is about pairs of values: no value fails a check that hides what another value is reported for |
| `RowChecks.NothingHiddenIsUniform` | crates/statguardian-engine/src/batch.rs:24-58 | It holds when no row check follows a check of its name, or a Blocking check of its column in the plan |
| `RowChecks.CutOffByNeighbour` | crates/statguardian-engine/src/batch.rs:34-46 | A row that fails a Blocking check of the plan cuts off the later check that its neighbour fails |
| `BatchRuns.UniformChecksIgnoreBatches` | crates/statguardian-stream/src/validator.rs:168-228 | A run over such checks reports the same row findings for every batch size |
| `RowChecks.HiddenByNeighbour` | crates/statguardian-engine/src/batch.rs:48-58 | A row that fails an earlier check of a name hides the later check of that name that its neighbour fails |
| `StreamCuts.SliceIsAStream` | crates/statguardian-stream/src/validator.rs:71-160 | Under any limits, whatever consecutive records a run accepts are all that a run over some other stream accepts, so every batch is the whole of another run |
| `BatchRuns.BatchesShow` | crates/statguardian-stream/src/validator.rs:155-160 | A stream over whose accepted records the checks are not uniform is reported differently in one batch and in batches of one |
| `BatchRuns.BatchSizeNeverShowsExactly` | crates/statguardian-stream/src/validator.rs:155-160 | Under any limits, no run that succeeds shows its batch size in a row finding exactly when the checks are uniform over whatever consecutive records runs accept without failing fast |
| `ContractChecks.NodeIsCheck` | crates/statguardian-engine/src/batch.rs:94-421 | On records with typed columns each node but an outlier rule is a row check or a batch check |
| `ContractChecks.ConstraintIsCheck` | crates/statguardian-validators/src/schema.rs:79-318 | So is each interpreted schema constraint |
| `ContractChecks.ContractRunsItsChecks` | crates/statguardian-engine/src/batch.rs:16-58 | Executing a contract without outlier rules on such records is running its checks, abort and merge included |
| `ContractChecks.ContractBatchesExactly` | crates/statguardian-engine/src/batch.rs:16-58 | For every such contract and every pipeline over it, whatever its limits, no run that succeeds shows its batch size exactly when the contract's checks are uniform over the consecutive records that runs accept |
| `ContractChecks.BlockingRowCheckShows` | crates/statguardian-core/src/compiler/optimizer.rs:79-101 | In every contract a Blocking row node runs before each weaker one of its column, so the checks are not uniform when one value fails it and another is reported alone for the weaker one |
| `ContractChecks.SharedNameShows` | crates/statguardian-engine/src/batch.rs:48-58 | In every contract, two row nodes of one column and name make the checks not uniform when one value fails the earlier and another is reported alone for the later |
| `BatchExamples.MinAndMaxDependOnBatches` | crates/statguardian-core/src/compiler/mod.rs:65-76 | Every contract of a minimum and a maximum on one column: of two records, one below the minimum and one above the maximum, the second is reported in batches of one and not in a batch of two |
| `BatchExamples.BlockingChecksDependOnBatches` | crates/statguardian-core/src/compiler/mod.rs:139-143 | Every contract of an enumeration and a Blocking pattern on one column: of two records, one that breaks the pattern and one that keeps it and is not listed, the second is reported in batches of one and not in a batch of two |
| `BatchExamples.AgesDependOnBatches` | crates/statguardian-stream/src/validator.rs:155-160 | For example the JSON lines with age 5 and age 99 under a minimum of 10 and a maximum of 50 |
| `BatchExamples.CodesDependOnBatches` | crates/statguardian-stream/src/validator.rs:155-160 | For example the JSON lines with code X and code b, where a is listed and X breaks the pattern |
| `Optimizer.Deduplicate` | crates/statguardian-core/src/compiler/optimizer.rs:29-39 | Keeps the first occurrence of every node |
| `Optimizer.GroupByColumn` | crates/statguardian-core/src/compiler/optimizer.rs:104-110 | One group for each column of the plan, holding its nodes in plan order |
| `Optimizer.OptimizedKeeps` | crates/statguardian-core/src/compiler/optimizer.rs:21-101 | The plan holds each raw node exactly once, except completeness metrics on columns with a null check |
| `Optimizer.PlanHolds` | crates/statguardian-core/src/compiler/optimizer.rs:21-72 | A node is in the plan, once, exactly when it is raw and not a completeness metric on a column that some raw node checks for nulls |
| `Optimizer.PlanIsOrdered` | crates/statguardian-core/src/compiler/optimizer.rs:79-101 | Within a column, severities come Blocking first and costs ascend within a severity |
| `Optimizer.PlanTakesTurns` | crates/statguardian-core/src/compiler/optimizer.rs:79-101 | The plan lists nodes by column, Blocking first within a column, and within a severity by kind: types and nulls, numbers and lengths, enumerations and null anomalies, patterns, uniqueness and metrics, profiles and cardinality, drift, outliers and duplicates |
| `Ast.StringLeMeans` | crates/statguardian-core/src/compiler/optimizer.rs:81 | Columns and checks are ordered by their first differing character, a prefix first |
| `Optimizer.OptimizeIsIdempotent` | crates/statguardian-core/src/compiler/optimizer.rs:21-26 | Optimising a plan again changes nothing |
| `Compiler.Compile` | crates/statguardian-core/src/compiler/mod.rs:20-152 | Compilation yields the optimised raw nodes of the contract |
| `Compiler.CompileField` | crates/statguardian-core/src/compiler/mod.rs:24-94 | A field compiles to its profile and type nodes followed by its constraints' nodes, in order |
| `Dag.NodeReportsItsColumn` | crates/statguardian-engine/src/batch.rs:94-421 | A node reports at most one violation, on its own column, with its own severity or as Blocking |
| `Schema.CheckConstraints` | crates/statguardian-validators/src/schema.rs:79-318 | The interpreter's violations, constraint by constraint, in order |
| `Schema.Validate` | crates/statguardian-validators/src/schema.rs:9-34 | The interpreter's violations, field by field; a missing column is Blocking and its constraints are skipped |
| `Schema.SchemaMember` | crates/statguardian-validators/src/schema.rs:9-34 | A violation is found exactly when some field finds it |
| `CheckMeanings.RowConstraintFinds` | crates/statguardian-validators/src/schema.rs:98-318 | An interpreted constraint on values reports one Error that lists, in order, exactly the rows whose cell holds a number or text it forbids, or nothing when there is none |
| `CheckMeanings.OtherConstraintFinds` | crates/statguardian-validators/src/schema.rs:79-112 | A null constraint reports how many rows hold no value, exactly when some row does; a unique one the number of distinct values, exactly when two rows hold the same |
| `CheckMeanings.OneMoreConstraint` | crates/statguardian-validators/src/schema.rs:79-82 | Constraints are interpreted one after the other |
| `CheckMeanings.FieldFinds` | crates/statguardian-validators/src/schema.rs:9-77 | A field reports its missing column and nothing else, or else a column of another type and then its constraints |
| `CheckMeanings.RowNodeFinds` | crates/statguardian-engine/src/batch.rs:94-421 | A node on values lists, in order, exactly the rows whose cell holds a number or text it forbids, under its own severity |
| `CheckMeanings.OtherNodeFinds` | crates/statguardian-engine/src/batch.rs:94-421 | The other nodes: nulls are counted, repeated values compared, and cardinality is reported above 100 rows of which more than 95 percent differ |
| `CheckMeanings.NothingWithoutColumn` | crates/statguardian-engine/src/batch.rs:94-421 | On a missing column a quality metric reports the column as Blocking, and no other node anything |
| `CheckMeanings.RuleFinds` | crates/statguardian-validators/src/rules.rs:26-96 | A quality rule reports the share of present or of distinct values exactly when it is known and misses the threshold |
| `CheckMeanings.AnomalyRuleFinds` | crates/statguardian-core/src/compiler/mod.rs:117-147 | What compiled rules for nulls, duplicates and cardinality find |
| `CheckMeanings.PatternRuleFinds` | crates/statguardian-core/src/compiler/mod.rs:139-143 | A compiled pattern rule lists the rows whose text breaks its pattern, which is empty unless given |
| `CheckMeanings.OutlierRuleFinds` | crates/statguardian-core/src/compiler/mod.rs:117-128 | A compiled outlier rule lists the rows that its method flags; the method is iqr unless given |
| `Frames.FailingRows` | crates/statguardian-validators/src/schema.rs:79-318 | A row check lists exactly the rows whose value is present and bad |
| `CompilerLaws.ConstraintCompiles` | crates/statguardian-core/src/compiler/mod.rs:35-93 | For each constraint on a column that is there, the compiled node finds what the interpreter finds, under the node's name, exactly when both can count distinct values |
| `CompilerLaws.CompiledSchemaMatches` | crates/statguardian-core/src/compiler/mod.rs:24-94 | Compiling, optimising and executing a schema with the abort off finds exactly what interpreting its constraints finds |
| `CompilerLaws.ValidatorFinds` | crates/statguardian-validators/src/schema.rs:9-34 | The validator finds what some field's type or some constraint finds, and nothing else |
| `CompilerLaws.PlanMatchesValidator` | crates/statguardian-core/src/compiler/mod.rs:24-94 | The plan finds exactly the validator's constraint violations, under their node names |
| `CompilerLaws.MatchesExactlyWhenCountable` | crates/statguardian-validators/src/schema.rs:98-112 | The agreement fails exactly when a uniqueness constraint meets a non-empty column whose distinct values cannot be counted |
| `CompilerLaws.FullPlanCoversTheSchema` | crates/statguardian-core/src/compiler/mod.rs:20-152 | In any contract the plan finds all that the interpreter finds |
| `Executor.RunColumn` | crates/statguardian-engine/src/batch.rs:34-46 | One column's nodes run in plan order up to and including the first that blocks |
| `Executor.RunColumns` | crates/statguardian-engine/src/batch.rs:29-49 | Every column group runs once, in any given order |
| `Executor.Execute` | crates/statguardian-engine/src/batch.rs:16-78 | The report is the merge of schema, rule, cross-column and node violations, and passes when it holds no Blocking one |
| `ExecutorLaws.MergeKeepsFirsts` | crates/statguardian-engine/src/batch.rs:57-58 | The merge is sorted, has one violation per column and check, and each is the earliest with its key |
| `ExecutorLaws.MergedInOrder` | crates/statguardian-engine/src/batch.rs:57-58 | The report is ordered by column and check, and names no check of a column twice |
| `ExecutorLaws.MergeHolds` | crates/statguardian-engine/src/batch.rs:57-58 | A violation is in the report exactly when it is found and none of the same column and check is found before it |
| `ExecutorLaws.GroupOrderIsIrrelevant` | crates/statguardian-engine/src/batch.rs:29-58 | The merged list is the same for every order of the column groups |
| `ExecutorLaws.AbortKeepsBlocking` | crates/statguardian-engine/src/batch.rs:35-43 | Aborting a column loses no Blocking outcome |
| `ExecutorLaws.DroppedNodesAreCovered` | crates/statguardian-core/src/compiler/optimizer.rs:58-67 | Whatever a dropped completeness node finds, the rule engine finds as well |
| `ExecutorLaws.OptimisedPlanBlocksAlike` | crates/statguardian-core/src/compiler/optimizer.rs:21-101 | Before the merge, the optimised plan with abort blocks exactly when running every raw node does |
| `ExecutorLaws.OptimisedPlanFindsAlike` | crates/statguardian-core/src/compiler/optimizer.rs:21-101 | With the abort off, the optimised plan and the raw nodes give the same violations |
| `ExecutorLaws.VerdictWhenSeveritiesAgree` | crates/statguardian-engine/src/batch.rs:57-58 | When equal keys have equal severities, the merge hides no Blocking violation |
| `Verdicts.PreMergeFollows` | crates/statguardian-engine/src/batch.rs:24-56 | On every frame and in every order of the columns, what is found carries labels of the contract's sources, in their order |
| `Verdicts.VerdictOfContract` | crates/statguardian-engine/src/batch.rs:57-69 | If no source of the contract stands before a Blocking source of its name with a weaker severity, then on every frame the report fails exactly when some Blocking check fails |
| `Verdicts.VerdictIsKeptExactly` | crates/statguardian-engine/src/batch.rs:57-69 | Among all lists of violations that carry some of given labels in order, the merge never changes the verdict exactly when no label stands before a Blocking label of its name with a weaker severity |
| `Verdicts.FoundUnder` | crates/statguardian-engine/src/batch.rs:24-56 | A run finds a Blocking violation under another name than a given one exactly when a schema, rule or cross-column check reports one, or some column's first node that blocks does |
| `Verdicts.HiddenNameDecides` | crates/statguardian-engine/src/batch.rs:57-69 | With one name hidden by a weaker violation and all others in order, the report fails exactly when a Blocking violation has another name |
| `Verdicts.UniqueHidesUniquenessRules` | crates/statguardian-validators/src/schema.rs:98-112 | For every contract: where a unique constraint fails, the column's uniqueness is reported as an Error whatever its rules say, and if no other name is out of order the report fails exactly when a schema, rule or cross-column check blocks under another name, or the first node that blocks in some column does |
| `HiddenVerdict.BlockingFailureCanPass` | examples/basic_validation.sg:6-30 | For the id column of that contract, with all its constraints and rules, and two equal rows: blocking checks fail before the merge and the report passes |
| `Drift.MergeGaps` | crates/statguardian-stats/src/drift.rs:87-104 | The two-pointer merge ends and returns the largest gap between the two distribution functions, ties and infinities included |
| `Drift.KsStatistic` | crates/statguardian-stats/src/drift.rs:72-104 | For all samples, the largest absolute difference of the two fractions at most x over all x; 0 when a sample is empty |
| `Drift.KsIsSymmetric` | crates/statguardian-stats/src/drift.rs:72-104 | Exchanging reference and current does not change the statistic |
| `Drift.KsRange` | crates/statguardian-stats/src/drift.rs:72-104 | The statistic lies between 0 and 1 |
| `Drift.KsZeroMeansEqual` | crates/statguardian-stats/src/drift.rs:72-104 | It is 0 exactly when the two distribution functions agree everywhere |
| `Outliers.FlaggedRowsAre` | crates/statguardian-engine/src/batch.rs:442-481 | The flagged rows are exactly those whose value is present and passes the rule's test |
| `Outliers.IqrFlagsExactly` | crates/statguardian-engine/src/batch.rs:453-465 | The rule flags a value exactly when it lies beyond the first or third quartile, by sorted position, by more than one and a half times their distance |
| `Outliers.ZScoreFlagsExactly` | crates/statguardian-engine/src/batch.rs:466-481 | The rule flags a value exactly when its squared distance from the mean exceeds nine sample variances and nine squared machine epsilons; a single value is never flagged |
| `Outliers.MeanTimesCount` | crates/statguardian-engine/src/batch.rs:468 | The mean times the count is the sum |
| `Outliers.OtherMethodsFlagNothing` | crates/statguardian-engine/src/batch.rs:448-482 | Any other method, and a column without values, flags nothing |
| `Outliers.SquaresDecide` | crates/statguardian-engine/src/batch.rs:466-477 | Comparing squares decides the z-score test, for the real square root and its lower bound |
| `Outliers.IqrKeepsTheMiddle` | crates/statguardian-engine/src/batch.rs:453-463 | Values at the sorted positions n/4 to 3n/4 are never flagged |
| `Outliers.IqrFlagsAtMost` | crates/statguardian-engine/src/batch.rs:453-463 | The IQR rule flags at most n - (3n/4 - n/4 + 1) values |
| `Outliers.ZScoreFlagsAtMost` | crates/statguardian-engine/src/batch.rs:466-480 | If the z-score rule flags k values then k = 0 or 9k is below n - 1, so nothing up to ten values |
| `Outliers.ElevenValuesCanHaveAnOutlier` | crates/statguardian-engine/src/batch.rs:466-480 | Eleven values can have a flagged one, so the bound cannot be improved to exclude them |
| `Sanitizer.Walk` | crates/statguardian-stream/src/sanitize.rs:159-232 | The walk returns the specified value and appends the specified events at every depth it reaches |
| `Sanitizer.WalkObject` | crates/statguardian-stream/src/sanitize.rs:161-224 | Marking dropped members first and removing their keys afterwards is leaving them out |
| `Sanitizer.RemovingDropsIsSkippingThem` | crates/statguardian-stream/src/sanitize.rs:162-223 | Removing the collected keys leaves exactly the members without a drop rule, in order |
| `Sanitizer.NormalizeValue` | crates/statguardian-stream/src/sanitize.rs:234-276 | Trimming, lower and upper case apply in this order to strings of listed fields, with one event for each that changed the text |
| `SanitizerFields.ListedFieldShows` | crates/statguardian-stream/src/sanitize.rs:234-276 | At every reachable path an unredacted text shows what the lists that name its key ask for: trimmed, then in lower case, then in upper case |
| `SanitizerFields.EventsMemberByMember` | crates/statguardian-stream/src/sanitize.rs:158-225 | An object reports, member by member, one event of its kind for a redaction, one for each step that changes an unredacted text, and otherwise what a recursive policy reports inside the value |
| `SanitizerFields.EventsItemByItem` | crates/statguardian-stream/src/sanitize.rs:225-229 | An array reports item by item, under a recursive policy only |
| `Sequences.DecimalReads` | crates/statguardian-stream/src/sanitize.rs:227 | Positions are written in decimal digits |
| `Sanitizer.Sanitize` | crates/statguardian-stream/src/sanitize.rs:141-149 | With or without the short cut the result is that of the full walk |
| `Sanitizer.NoopWalkChangesNothing` | crates/statguardian-stream/src/sanitize.rs:132-149 | Under an empty policy the full walk changes nothing and reports nothing |
| `SanitizerLaws.Noninterference` | crates/statguardian-stream/src/sanitize.rs:159-232 | Records that agree outside masked, nulled and dropped fields, and in the digests of hashed ones, sanitise to the same output with the same events |
| `SanitizerLaws.WhatAPathHolds` | crates/statguardian-stream/src/sanitize.rs:159-232 | What every path of the output holds: nothing beyond a redacted key, otherwise the former value redacted, normalised or walked as its last step asks |
| `SanitizerLaws.RedactedEverywhere` | crates/statguardian-stream/src/sanitize.rs:151-224 | Wherever a redacted key occurs in the output it shows its token, null or sixteen hexadecimal digits, or is gone |
| `SanitizerLaws.UnnamedFieldsAreKept` | crates/statguardian-stream/src/sanitize.rs:159-232 | Off redacted paths the output has the same paths, and leaves of unlisted fields keep their values |
| `SanitizerLaws.ShallowPoliciesStopAtTheTop` | crates/statguardian-stream/src/sanitize.rs:217-225 | Without a recursive flag nothing below the top level changes except under redacted keys |
| `SanitizerLaws.NoSilentChange` | crates/statguardian-stream/src/sanitize.rs:159-276 | A record without events is unchanged |
| `SanitizerLaws.SanitizingTwice` | crates/statguardian-stream/src/sanitize.rs:159-276 | Without hashing and with stable normal forms, sanitising twice is sanitising once |
| `LeakSafety.SimilarOutcome` | crates/statguardian-stream/src/validator.rs:104-154 | Lines that are rejected for the same kind of reason, or sanitise alike, leave the same rows, events and counts |
| `LeakSafety.ReportsShowNothingRedacted` | crates/statguardian-stream/src/validator.rs:65-165 | Without a byte limit, two streams that differ only in redacted values or inside lines that are not JSON both succeed or both fail; their reports agree in every field but the byte count and the diagnostics, and in these exactly when each diagnosed line gets the same diagnosis |
| `LeakSafety.DiagnosesAgreeExactly` | crates/statguardian-stream/src/validator.rs:131-148 | Two such rejected lines are diagnosed alike exactly when the parser gives the same reason and, with raw diagnostics allowed, the previews are the same |
| `LeakSafety.NothingCollectedNothingShown` | crates/statguardian-stream/src/validator.rs:293-316 | If malformed lines are not collected, the reports agree in every field but the byte count |
| `LeakSafety.ErrorsShowNothingRedacted` | crates/statguardian-stream/src/validator.rs:293-304 | They fail for the same cause, with the same error unless it quotes why a line is not JSON |
| `LeakSafety.UnparsableLinesReportAlike` | crates/statguardian-stream/src/validator.rs:131-148 | Streams of one collected line that is not JSON are reported alike exactly when reasons and allowed previews are equal |
| `LeakSafety.RawDiagnosticsQuote` | crates/statguardian-stream/src/validator.rs:135-146 | A run that allows raw diagnostics quotes such a line, whatever the policy redacts |
| `LeakSafety.TruncatedRecordsLeak` | crates/statguardian-stream/src/validator.rs:131-148 | Two truncated records whose secrets have different lengths are reported differently, raw diagnostics or not |
| `SanitizerSummary.SanitizationSummary.Record` | crates/statguardian-stream/src/sanitize.rs:88-101 | One event raises the total and its kind's and field's counts by one |
| `SanitizerSummary.RecordingAddsUp` | crates/statguardian-stream/src/sanitize.rs:88-101 | Recording the events one by one arrives at their totals |
| `SanitizerSummary.OneEventIsCounted` | crates/statguardian-stream/src/sanitize.rs:64-100 | One event counts once in the total, under the name of its kind and under its leaf |
| `SanitizerSummary.HistogramCounts` | crates/statguardian-stream/src/sanitize.rs:90-100 | Each count is the number of events with that key, and keys that never occur have no entry |
| `SanitizerSummary.OrderOfEventsIsIrrelevant` | crates/statguardian-stream/src/sanitize.rs:88-101 | The totals depend on which events occurred, not on their order |
| `SanitizerSummary.LeafIsTheKeyExactly` | crates/statguardian-stream/src/sanitize.rs:94-100 | An event is counted under its key exactly when the key is not empty and has no separator, or is a top-level key of separators alone |
| `SanitizerSummary.OnlyNamedFieldsAreCounted` | crates/statguardian-stream/src/sanitize.rs:88-101 | Over plain keys every event of a walk is counted under a field that the policy names |
| `SanitizerSummary.DottedKeysAreMiscounted` | crates/statguardian-stream/src/sanitize.rs:94-100 | A key with a dot is counted under its last piece, which the policy need not name |
| `Fnv.Fnv1a64` | crates/statguardian-stream/src/sanitize.rs:280-287 | The loop computes the digest of the whole input |
| `Fnv.XorBit` | crates/statguardian-stream/src/sanitize.rs:283 | Each bit of the exclusive or says whether the bits differ |
| `Fnv.DigestReads` | crates/statguardian-stream/src/sanitize.rs:280-295 | The digest starts at the offset basis of 64-bit FNV-1a, and the printed digits stand for it |
| `Fnv.StepInjectiveInHash` | crates/statguardian-stream/src/sanitize.rs:283-284 | Each step is injective in the running hash |
| `Fnv.StepInjectiveInByte` | crates/statguardian-stream/src/sanitize.rs:283-284 | Each step is injective in the byte |
| `Fnv.OneDifferenceShows` | crates/statguardian-stream/src/sanitize.rs:280-287 | Byte strings of equal length that differ in exactly one position have different digests |
| `Fnv.CommonEndingIsIrrelevant` | crates/statguardian-stream/src/sanitize.rs:280-287 | A common ending neither makes nor breaks a collision |
| `Fnv.DigestTextsCollideWithDigests` | crates/statguardian-stream/src/sanitize.rs:289-295 | The sixteen printed digits are equal exactly when the digests are |
| `LoopDetection.DetectLoops` | crates/statguardian-stream/src/agent.rs:635-669 | The loop over the events returns the specified findings; a window or threshold of 0 finds nothing |
| `LoopDetection.LoopsAreExact` | crates/statguardian-stream/src/agent.rs:648-668 | Each signature is reported at most once, with the count and sequence number of its last hit and the earliest occurrence in its first hit's window |
| `LoopDetection.HitsAreBetween` | crates/statguardian-stream/src/agent.rs:648-668 | Every hit lies between the first and the last one |
| `LoopDetection.ReportedExactlyWhenRepeated` | crates/statguardian-stream/src/agent.rs:635-669 | A signature is reported exactly when some run of at most window consecutive signed events holds it at least threshold times |
| `LoopDetection.LoopsStay` | crates/statguardian-stream/src/agent.rs:635-669 | A reported loop stays reported, with the same first occurrence, as the run goes on |
| `LoopDetection.LoopsMean` | crates/statguardian-stream/src/agent.rs:648-668 | A reported loop counts its signature in the window of its last hit, by position, and names that hit; its first occurrence is the earliest in the window of its first hit |
| `LoopDetection.LoopsByFirstHit` | crates/statguardian-stream/src/agent.rs:655-667 | Loops are listed in the order of their first hits |
| `Agent.Aggregate` | crates/statguardian-stream/src/agent.rs:560-633 | Telemetry is the count of events by kind and the sum of each metric by provenance |
| `Agent.CheckBudgets` | crates/statguardian-stream/src/agent.rs:449-528 | The budget violations, in order, each a measured breach or else a suspicion from estimates |
| `Agent.Evaluate` | crates/statguardian-stream/src/agent.rs:449-557 | The report holds telemetry, budget violations, and one warning for each loop |
| `AgentLaws.TelemetryOfMore` | crates/statguardian-stream/src/agent.rs:560-633 | Telemetry starts at zero and each event adds one for its kind, its amounts by how they were obtained, and the number of its unknown readings |
| `AgentLaws.CallsAreCounted` | crates/statguardian-stream/src/agent.rs:560-633 | The tool calls counted are the events of that kind |
| `AgentLaws.SignedCallsOfOne` | crates/statguardian-stream/src/agent.rs:640-650 | The calls watched for loops are the events with a signature, under their sequence numbers |
| `AgentLaws.ReportLists` | crates/statguardian-stream/src/agent.rs:449-557 | A report lists a budget exactly when calls, tokens, cost or duration are strictly beyond its limit, as a breach when the measured total is, else as a warning when the estimates make it so, and a loop warning exactly when some signature repeats |
| `AgentLaws.ReportOrder` | crates/statguardian-stream/src/agent.rs:449-557 | Budgets come in order, each at most once, and then one warning for each loop |
| `AgentLaws.StopMeans` | crates/statguardian-stream/src/agent.rs:374-386 | Stop is advised exactly when enforcement is on and the tool calls, or the measured tokens, cost or duration, are strictly beyond their limit |
| `AgentLaws.ContinueMeans` | crates/statguardian-stream/src/agent.rs:374-386 | Continue is advised exactly when every total, estimates included, is at its limit or below and no signature repeats too often |
| `Agent.AdviceNeverWeakens` | crates/statguardian-stream/src/agent.rs:374-557 | For every trace and every extension of it without negative costs, the advice does not weaken |
| `Agent.NegativeCostsCanWeaken` | crates/statguardian-stream/src/agent.rs:245-263 | With a negative cost, which the parser accepts, Stop can turn into Continue |
| `Agent.NeverWeakensExactly` | crates/statguardian-stream/src/agent.rs:374-557 | For every trace and extension, the advice weakens under no policy exactly when neither the measured cost nor its peak with estimates falls |
| `Agent.EstimatesAndLoopsNeverStop` | crates/statguardian-stream/src/agent.rs:449-557 | Removing every estimate and signature from a trace never changes whether it is stopped |
| `Lineage.LineageGraph.ImpactChain` | python/statguardian/_lineage.py:134-151 | The queue version ends on every graph and lists exactly the reachable nodes, each once, in non-decreasing distance |
| `Lineage.LineageGraph.ImpactChainByStack` | crates/statguardian-lineage/src/model.rs:217-238 | The stack version ends on every graph and lists exactly the reachable nodes, each once |
| `Lineage.LineageGraph.GetDownstream` | crates/statguardian-lineage/src/model.rs:208-214 | The targets of the edges that leave a node, in edge order |
| `Lineage.LineageGraph.GetUpstream` | crates/statguardian-lineage/src/model.rs:199-205 | The sources of the edges that enter a node, in edge order |
| `Lineage.LineageGraph.AddNode` | crates/statguardian-lineage/src/model.rs:189-191 | Adds or replaces a node and leaves the edges alone |
| `Lineage.LineageGraph.AddEdge` | crates/statguardian-lineage/src/model.rs:194-196 | Appends an edge and leaves the nodes alone |
| `Lineage.DownstreamMember` | python/statguardian/_lineage.py:126-132 | A node is downstream exactly when an edge leads to it |
| `Lineage.UpstreamMember` | python/statguardian/_lineage.py:118-124 | A node is upstream exactly when an edge comes from it |
| `Lineage.WithinIsAPath` | python/statguardian/_lineage.py:134-151 | Being at most k edges away means that a path of at most k edges leads there |
| `Lineage.NearerIsVisited` | python/statguardian/_lineage.py:134-151 | When the queue is about to visit a node, everything nearer has been visited |
| `Lineage.ChainsArePermutations` | crates/statguardian-lineage/src/model.rs:217-238 | Two chains with the same nodes and no duplicates are permutations of each other, as the two versions are |
| `Lineage.NewEdgeExtendsChains` | python/statguardian/_lineage.py:114-116 | A new edge adds to a chain exactly what its end reaches, when its start was in the chain |
| `Windows.SlidingWindowExecutor.GetWindowsForEvent` | crates/statguardian-core/src/streaming.rs:146-193 | Refuses times before the epoch; otherwise the walk ends, returns the specified windows and leaves the specified map |
| `Windows.SlidingWindowExecutor.EvictExpired` | crates/statguardian-core/src/streaming.rs:198-213 | Keeps exactly the windows that do not end before the cutoff and returns the others, closed |
| `Windows.EvictionDivides` | crates/statguardian-core/src/streaming.rs:107-121 | A window is kept unless it ends before the cutoff, and exactly those that are not kept are returned, closed |
| `Windows.ReturnedExactly` | crates/statguardian-core/src/streaming.rs:154-181 | Every returned window covers the timestamp, and a covering window is returned exactly when it is not later than the oldest one still open |
| `Windows.MissesExactly` | crates/statguardian-core/src/streaming.rs:175-177 | Some covering window is missed exactly when the window after the oldest open one has begun |
| `Windows.NothingMissedWithoutOverlap` | crates/statguardian-core/src/streaming.rs:154-181 | Windows no longer than their slide are never missed |
| `Windows.OverlappingWindowsAreMissed` | crates/statguardian-core/src/streaming.rs:175-177 | One-minute windows every ten seconds: six cover second 65 and one is returned |
| `Windows.WalkWithoutSlideNeverEnds` | crates/statguardian-core/src/streaming.rs:154-181 | The walk has nowhere to stop exactly when the slide is below a second and the event is past the first window |
| `Windows.HoldsWhatWasReturned` | crates/statguardian-core/src/streaming.rs:183-192 | Over non-decreasing timestamps the map holds exactly the windows of the last call |
| `Windows.AtMostTwoWindows` | crates/statguardian-core/src/streaming.rs:183-192 | So the map never holds more than two windows |
| `Windows.TumblingWindowExecutor.GetWindowForEvent` | crates/statguardian-core/src/streaming.rs:85-105 | Opens the event's window if it is not open yet and names it |
| `Windows.TumblingWindowExecutor.CloseWindowsBefore` | crates/statguardian-core/src/streaming.rs:107-121 | Keeps exactly the windows that do not end before the cutoff and returns the others, closed |
| `Windows.TumblingWindowIsTheOne` | crates/statguardian-core/src/streaming.rs:91-101 | The window accepts the event, and with whole-second sizes it is the only one that has begun and not ended |
| `Windows.SlidingBySizeTumbles` | crates/statguardian-core/src/streaming.rs:146-181 | Sliding by the window size always includes the tumbling window |
| `DeltaLog.ResolveActiveFiles` | crates/statguardian-io/src/delta.rs:106-167 | The replay loops compute the snapshot of the commits up to the version, oldest first, unless one of them cannot be read |
| `DeltaLog.ReadVersion` | crates/statguardian-io/src/delta.rs:53-72 | Finding the files of a version fails exactly when there is no log, a commit up to the version cannot be read, or no file is active |
| `DeltaLog.SnapshotExactly` | crates/statguardian-io/src/delta.rs:129-166 | A path is active exactly when the last operation naming it up to the version is an add, and it resolves to its own file |
| `DeltaLog.ActionApplies` | crates/statguardian-io/src/delta.rs:139-163 | A line adds its file, under the name it resolves to, and then removes its other one |
| `DeltaLog.LinesApplyInTurn` | crates/statguardian-io/src/delta.rs:129-166 | Lines of a commit apply one after the other |
| `DeltaLog.CommitsApplyInTurn` | crates/statguardian-io/src/delta.rs:123-166 | So do commits |
| `DeltaLog.SnapshotsCompose` | crates/statguardian-io/src/delta.rs:123-166 | A later snapshot is the commits in between replayed on the earlier one |
| `DeltaLog.DirectoryOrderIsIrrelevant` | crates/statguardian-io/src/delta.rs:111-124 | With distinct versions the order of the directory does not matter |
| `DeltaOrder.OrderNeverMattersExactly` | crates/statguardian-io/src/delta.rs:111-127 | The order of the directory never changes a snapshot exactly when commits of one version agree on every path they both touch |
| `DeltaOrder.NewestDecides` | crates/statguardian-io/src/delta.rs:129-166 | Then the newest commit that touches a path decides about it |
| `DeltaOrder.ListedLastDecides` | crates/statguardian-io/src/delta.rs:123-127 | Of two commits of one version that are listed last, the later one decides about a path it touches |
| `DeltaLog.EqualVersionsDependOnTheOrder` | crates/statguardian-io/src/delta.rs:115-127 | Two files that name the same version make the snapshot depend on that order |
| `DeltaLog.FindVersionForTimestamp` | crates/statguardian-io/src/delta.rs:169-204 | The version of the last commit before the first later one in version order, or 0 |
| `DeltaLog.FoundVersionMeans` | crates/statguardian-io/src/delta.rs:169-204 | The version found is that of the last commit before the first, by version, whose file can be read and whose first time is after the requested one |
| `DeltaLog.AsOfDividesTheLog` | crates/statguardian-io/src/delta.rs:169-204 | If the oldest commit is not later than the time, and commits stay later once they are, a commit is later exactly when its version is above the one found |
| `DeltaLog.AsOfWasCommittedExactly` | crates/statguardian-io/src/delta.rs:188-203 | The found version is a commit that is not later exactly when the oldest commit is not later |
| `Hll.HyperLogLog.Add` | crates/statguardian-stats/src/hll.rs:26-32 | Raises the hash's register to the hash's rank and leaves the others alone |
| `Hll.HashSplits` | crates/statguardian-stats/src/hll.rs:26-30 | The register is chosen by what stands before the lower 50 bits of the hash |
| `Hll.RegistersAreLargestRanks` | crates/statguardian-stats/src/hll.rs:26-32 | Each register is the largest rank among the hashes that choose it, or 0 |
| `Hll.OnlyTheSetMatters` | crates/statguardian-stats/src/hll.rs:26-32 | Order and repetition of the inputs do not matter |
| `Hll.KnownHashChangesNothing` | crates/statguardian-stats/src/hll.rs:26-32 | Adding a hash again changes nothing |
| `Hll.UnionIsMaximum` | crates/statguardian-stats/src/hll.rs:26-32 | The sketch of two inputs together is the register-wise maximum |
| `Hll.RankMeaning` | crates/statguardian-stats/src/hll.rs:28-30 | The rank is 65 when the lower 50 bits are zero, otherwise 1 to 50 and it locates their highest bit |
| `Hll.RegisterValues` | crates/statguardian-stats/src/hll.rs:26-32 | Every register is 0, 1 to 50, or exactly 65, and each of these cases is characterised by the inputs |

## Left out

- Input and output: file, cloud, SQL and Iceberg readers, the command line, the HTTP server, connectors and glue; read errors and interruptions inside the line reader.
- The `.sg` parser, and JSON, UTF-8, regular-expression and column-engine internals, which are parameters.
- Message texts of findings, HTML, Prometheus and JSON rendering, clocks, durations and identifiers.
- Floating-point rounding, NaN and overflow of 64-bit counters; PSI and the HyperLogLog estimate need logarithms and error bounds.
- Cross-column rules: their violations are a parameter of `Executor.Execute`, because each is a lookup on one row.
- The drift results and the column profile of a report, which take no part in its verdict.
- Values that the source mutates in place through references (a JSON tree, telemetry counters) are passed and returned; aliasing between them is not modelled.  A JSON object lists each key once, in the order of its map.
- Hash-map order: the violations of column groups come in an arbitrary order (`order` in `Executor.Execute`); active files and evicted windows are sets and maps here, without an order.
- Window identifiers are the window numbers they are printed from, and the executors never add events to the windows they keep.
- The list of execution identifiers in the agent telemetry, and the parsing of agent events from JSON.
- The hash function of the cardinality sketch: `Hll.HyperLogLog.Add` takes the 64-bit hash of a value.
- DeltaLog.ReadVersion: returns the active files; reading and concatenating the Parquet files they name is left out.
- ContractChecks.NodeIsCheck: outlier rules are excluded, because the rows they list depend on the mean, spread or quartiles of the whole batch.
- Percent-decoding of paths and listing of the log directory, which are the `resolve` function and the `dir` parameter of `DeltaLog`.
- Windows.SlidingWindowExecutor.GetWindowsForEvent: requires a whole second of slide or an event inside the first window, because otherwise the source's loop does not end (`Windows.WalkWithoutSlideNeverEnds`).
- Windows.TumblingWindowExecutor.GetWindowForEvent: requires a size of at least one second, because the source divides by the whole seconds of the size.
- Schema-evolution diffs, health grades, referential integrity, personal-data scans, row buffers and the Python anomaly detectors: they would add easy members only.
