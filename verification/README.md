# proef: a verified model of the run edge

proef runs Gherkin scenarios whose steps are Hurl requests. This project models
the code around its runner: what decides which scenarios run and in what order,
what a run writes down, what later commands read back from it, and the few files
that several processes touch at once.

Each module follows one source file or one mechanism.

| Module | What it models |
|---|---|
| `Identity`, `Utf8`, `Arithmetic`, `Sequences` | the `(file, name)` identity and its order; the bytes a hash sees; products of unknowns; joining sequences |
| `Lpt`, `Timings`, `Saturation` | the duration-balanced split of `--shard --timings`, its approximation bound, and what saturating sums do to it |
| `Shards`, `ShardVectors` | the frozen hash, the shard filter, the seeded shuffle, a whole CI matrix; the published hash values |
| `Events`, `Records`, `Carried` | the event stream, and the two readers that fold it |
| `Rerun`, `Executions` | `--rerun` over chains of completed, cancelled and truncated records, and over the runs that write them |
| `Report`, `ChainReports` | the composed page of a chain of reruns; what it and the JUnit file cover |
| `PackFormat`, `FormatReference`, `FormatLaws`, `FormatSkeleton` | `proef fmt`; what it does to a block, line by line and spelled out; its laws; what it does to the YAML around its blocks |
| `Sinks`, `MaxFail` | the sinks a run emits through: slots, head and tail, phases, `--max-fail` |
| `Watch` | the watch loop against its interrupt handler |
| `Flaky`, `Sla` | the flakiness verdict over growing histories; the latency gate |
| `Assets`, `AssetLaws` | staging onto a filesystem where different names can be one file; which references resolve and when staging gets through |
| `KeyFile`, `SecretStore`, `SecretKeys` | the project key and the secret store under concurrent processes, each and together |
| `Commands`, `Paths` | the reproduction command and a shell that reads it back; relative links |

Code that updates things in place is a method or a class here, proved against a
function on values; what the source promises is then proved about that function.
Concurrent code is a state machine whose steps are the atomic actions of the
source, and the theorems range over every interleaving.

## Where the code and its promises part

Six promises hold only under a condition. Each has the condition, and an input
outside it.

- **`--rerun` after two interrupts.** The first interrupt drains the queue and
  records scenarios as skipped; the second exits before the tail. The record is
  truncated yet lists those scenarios as finished, so the rerun leaves them out
  (`Rerun.SecondInterruptLosesSkipped`). A rerun leaves out only proven scenarios
  if and only if the run closed all it selected, or was cut short with no such
  skip recorded (`Executions.LeavesOutOnlyProvenIffSound`).
- **`--rerun` after an aborted setup.** The guard still writes a tail, so the
  record reads as completed with no scenarios and the rerun reports nothing to do
  (`Rerun.AbortedSetupReadsAsDone`); the same condition fails.
- **The JUnit file of a rerun of a rerun.** The documentation (`docs/CI.md:120-123`)
  says a rerun's JUnit and page cover the whole suite. The page follows the whole
  chain and does (`ChainReports.PageCoversSuite`); the JUnit file carries outcomes
  from the immediate base only. It is whole if and only if that base was truncated
  or had itself executed the whole suite (`ChainReports.JUnitCoversIff`); on a chain
  of three runs it need not be (`ChainReports.ThirdJUnitIsPartial`).
- **`proef fmt` and the YAML skeleton.** The file comment says the skeleton is
  never touched. The formatter measures a block from the line's indentation, which
  in a list item is the dash's, so siblings of the `hurl` key count as body
  (`FormatSkeleton.SiblingKeyIsTrimmed`, `FormatSkeleton.SiblingsLoseBlank`); and
  it takes a `hurl` block shown in another key's text for one
  (`FormatSkeleton.ScalarTextTrimmed`). On every text the skeleton comes back whole
  and in order if and only if none of its lines had anything to normalize
  (`FormatSkeleton.SkeletonUntouchedIff`); without such list items and texts it
  always does (`FormatSkeleton.PlainPackKept`).
- **Staging over links.** An asset whose target already links to its source is
  skipped without being noted as landed, so a second spelling of the same file is
  copied over it unnoticed (`Assets.ClashExample`). Every name reads back its own
  bytes if and only if there is no such clash (`Assets.StagedRightIffNoClash`);
  a destination without links, which is what a run stages into, never has one.
- **The 4/3 bound and saturating sums.** Costs are summed with saturation. The
  bound holds while all scenarios but the lightest cost no more than the shards
  can sum up to (`Timings.SplitBound`), a condition on the weights alone. One unit
  more, at any count from two on, and a scenario may miss the lightest shard
  (`Saturation.FitIsSharp`); far enough past it the bound fails
  (`Saturation.SaturationBreaksBound`).

One more consequence of the code as it is: a process that dies between creating
the key file and writing it leaves a file no later process can use
(`KeyFile.AbandonedFileBlocksAll`).

## Model

| member | source | states |
|---|---|---|
| `Lpt.MakespanIsMax` | crates/proef-cli/src/timings.rs:154-157 | the makespan bounds every shard's load and some shard attains it |
| `Lpt.LoadsPartition` | crates/proef-cli/src/timings.rs:166-187 | a placement divides the total cost over the shards, nothing lost or counted twice |
| `Lpt.AveragingBound` | crates/proef-cli/src/timings.rs:154-157 | at the moment a job is placed, `m` times its shard's load plus the job is at most `m` times any other split's makespan |
| `Lpt.LargeJobsOptimal` | crates/proef-cli/src/timings.rs:154-157 | while every job exceeds a third of the best makespan, the greedy split is optimal |
| `Lpt.ListSchedulingBound` | crates/proef-cli/src/timings.rs:154-157 | greedy in any order is within 2 - 1/m of every other split |
| `Lpt.LongestFirstBound` | crates/proef-cli/src/timings.rs:154-157 | greedy, longest first, is within 4/3 - 1/(3m) of every other split |
| `Timings.DealtTotal` | crates/proef-cli/src/timings.rs:159-163 | the dealing order (heavier first, then identity) is total and strict |
| `Identity.KeyBeforeIff` | crates/proef-cli/src/timings.rs:159-163 | of two identities the file decides, and within one file the name: at the first character that differs, a proper prefix first |
| `Timings.FirstDealt` | crates/proef-cli/src/timings.rs:162-163 | finds the row every other row is dealt after |
| `Timings.SortRows` | crates/proef-cli/src/timings.rs:162-163 | sorts the rows into the one dealing order |
| `Timings.OrderedLists` | crates/proef-cli/src/timings.rs:162-163 | the order lists each weighted identity exactly once |
| `Timings.OrderedDescends` | crates/proef-cli/src/timings.rs:162-163 | costs never rise along the order, and of equal costs the earlier identity comes first |
| `Timings.LightestShard` | crates/proef-cli/src/timings.rs:165-190 | picks the lightest shard, then the one with fewest scenarios, then the lowest |
| `Timings.DealOne` | crates/proef-cli/src/timings.rs:165-190 | one scenario dealt: both vectors become those of the longer placement |
| `Timings.Deal` | crates/proef-cli/src/timings.rs:165-190 | the loop over the sorted rows yields the table of the greedy placement |
| `Timings.Assign` | crates/proef-cli/src/timings.rs:161-190 | the assignment is a function of the weights map and the count alone, places exactly the weighted identities, and puts all in one shard when the count is zero |
| `Timings.SplitIsTotal` | crates/proef-cli/src/timings.rs:161-190 | every weighted identity gets a shard, in range, and no other identity does |
| `Timings.TargetIsLightest` | crates/proef-cli/src/timings.rs:165-190 | no shard is lighter than the chosen one, and every lower-numbered one is heavier |
| `Timings.PlaceIsGreedy` | crates/proef-cli/src/timings.rs:165-190 | while no sum saturates, every scenario goes to a shard of least true load |
| `Timings.PlaceIsGreedyWithin` | crates/proef-cli/src/timings.rs:165-190 | as long as all scenarios but the last dealt fit in the shards' sums, every scenario goes to a shard of least true load |
| `Timings.SplitBound` | crates/proef-cli/src/timings.rs:152-190 | for every weights map and count whose scenarios but the lightest cost at most count times the 64-bit limit, the matrix takes at most 4/3 - 1/(3m), and 2 - 1/m, of any other split |
| `Timings.UnsaturatedFits` | crates/proef-cli/src/timings.rs:165-190 | the bound's condition holds whenever some split over the shards saturates none of them |
| `Saturation.SaturationBreaksBound` | crates/proef-cli/src/timings.rs:165-190 | a weights map of five scenarios whose split over two shards takes more than the bound allows over another split |
| `Saturation.FitIsSharp` | crates/proef-cli/src/timings.rs:165-190 | at every count from two on, a weights map one unit past the condition whose split misses the lightest shard |
| `Saturation.FileOrdered` | crates/proef-cli/src/timings.rs:162-163 | rows listed heavier first, then by identity, are dealt as they stand |
| `Timings.EqualCostsEqualShares` | crates/proef-cli/src/timings.rs:165-190 | when all weights are equal, zero included, shard sizes differ by at most one |
| `Shards.HashBytes` | crates/proef-cli/src/exec.rs:1717-1722 | the byte loop is the FNV-1a fold in wrapping 64-bit arithmetic |
| `Shards.ShardBucket` | crates/proef-cli/src/exec.rs:1717-1736 | the bucket is a function of file, name and count alone |
| `Shards.Bucket` | crates/proef-cli/src/exec.rs:1735-1736 | a bucket is always in range |
| `Utf8.Utf8CharSpelled` | crates/proef-cli/src/exec.rs:1717-1719 | the bytes hashed are UTF-8: six bits in each byte that follows, the rest in the first below its marker |
| `Shards.IdentityBytesInjective` | crates/proef-cli/src/exec.rs:1714-1716 | without NUL in either half, different identities hash different bytes |
| `Shards.DealInPlace` | crates/proef-cli/src/exec.rs:1694-1697 | the in-place swaps produce the dealt order of the old contents |
| `Shards.ShuffleSpecs` | crates/proef-cli/src/exec.rs:1682-1698 | the shuffled order is a function of the run id and the old order |
| `Shards.ShuffledPermutes` | crates/proef-cli/src/exec.rs:1676-1681 | shuffling keeps every scenario, with multiplicity |
| `Shards.ShardSpecs` | crates/proef-cli/src/exec.rs:601-623 | shard n keeps exactly the selected scenarios that the weights file splits to n - 1, or that it does not list and whose hash is n - 1, each as often as selected |
| `Shards.KeptInOrder` | crates/proef-cli/src/exec.rs:615-623 | what a shard keeps of a selection is what it keeps of its front, then of its rest |
| `Shards.BucketOfInRange` | crates/proef-cli/src/exec.rs:601-623 | every scenario, weighted or not, has a bucket in range |
| `Shards.KeptCount` | crates/proef-cli/src/exec.rs:615-623 | a shard keeps a scenario as often as it was selected, or not at all |
| `Shards.MatrixRunsSelectionOnce` | crates/proef-cli/src/exec.rs:598-634 | shards 1/N to N/N, each shuffled by its own run id, together execute the selection exactly once, whatever the weights cover |
| `Shards.MatrixIsBalanced` | crates/proef-cli/src/exec.rs:598-634 | when a weights file covers the selection, what any shard of the matrix runs costs at most 4/3 - 1/(3m) of the slowest shard of any other split of it |
| `ShardVectors.ShardAssignment` | crates/proef-cli/src/exec.rs:2349-2362 | the frozen assignment: six scenarios of one file over two and over three shards |
| `ShardVectors.PinnedOrder` | crates/proef-cli/src/exec.rs:2320-2341 | the frozen shuffle: the order one run id deals any six scenarios |
| `Records.TakePendingSteps` | crates/proef-cli/src/record.rs:293-315 | takes the steps of the identity a close attaches to, and removes just them |
| `Records.AdoptsOnlyUnambiguously` | crates/proef-cli/src/record.rs:293-315 | a close adopts another file's steps exactly when it names no file, nothing is pending under its own key, and one pending scenario has its name |
| `Records.ParseRecord` | crates/proef-cli/src/record.rs:361-461 | the loop is the fold of the stream: head, steps, closes, tails, truncation |
| `Records.ReadIsLocal` | crates/proef-cli/src/record.rs:361-461 | what a record says of a scenario depends on that scenario's own events alone |
| `Records.InterleavingIrrelevant` | crates/proef-cli/src/record.rs:361-461 | any two interleavings of the same per-scenario streams give the same scenario map |
| `Records.BufferedSteps` | crates/proef-cli/src/record.rs:375-429 | an open scenario's buffer holds each text's occurrences 0 to n-1 |
| `Records.BufferedSince` | crates/proef-cli/src/record.rs:375-429 | after a close the buffer starts anew, with the occurrences since then |
| `Records.EntryOfClose` | crates/proef-cli/src/record.rs:409-429 | a last close fixes the entry: its status, phase, reason, tags and the steps buffered before it |
| `Records.StepsExact` | crates/proef-cli/src/record.rs:375-429 | for an identity closed once, step keys are exactly the occurrences before the close, each with its own metrics |
| `Records.EntriesAreCloses` | crates/proef-cli/src/record.rs:409-429 | a scenario has an entry if and only if it was closed |
| `Records.FirstHead` | crates/proef-cli/src/record.rs:361-461 | the first head fixes environment, metadata and the link to the base |
| `Records.LastTail` | crates/proef-cli/src/record.rs:435-450 | the last tail fixes totals and completion, and a second tail marks the record as from before phases shared one pair |
| `Records.TotalsIffTail` | crates/proef-cli/src/record.rs:435-461 | a record has totals if and only if it has a tail, and without one it is incomplete |
| `Carried.CarriedOutcomes` | crates/proef-cli/src/record.rs:662-742 | the second reader's loop is its fold of the stream |
| `Carried.ReadersAgree` | crates/proef-cli/src/record.rs:662-742 | with one close per identity it lists exactly the record's suite scenarios outside the excluded set, each once, with the same verdict and the same steps: attempts and durations, occurrence by occurrence |
| `Carried.CarriedSteps` | crates/proef-cli/src/record.rs:662-742 | a carried scenario's steps are those before its close, in order |
| `Carried.OutcomesSince` | crates/proef-cli/src/record.rs:662-742 | after a suite close the steps carried for the next one start anew |
| `Carried.StepListOfOne` | crates/proef-cli/src/record.rs:662-742 | a finished step is carried with its own file, text, status, attempts and duration |
| `Carried.StepListInOrder` | crates/proef-cli/src/record.rs:662-742 | carried steps follow the order of their events |
| `Rerun.Classify` | crates/proef-cli/src/record.rs:607-654 | what one entry adds: a failure is queued, and under cancellation a skip whose reason is no authored tag |
| `Rerun.SortOut` | crates/proef-cli/src/record.rs:607-654 | the loop over the entries collects exactly the finished, queued and never-run sets |
| `Rerun.CandidatesOf` | crates/proef-cli/src/record.rs:607-654 | the candidates, their count of never-run scenarios and the filter a record stands for |
| `Rerun.KeepsIff` | crates/proef-cli/src/record.rs:546-654 | a rerun keeps a scenario if and only if its suite entry failed, or a cancelled run skipped it with a reason that does not start with an at sign, or a run without a tail has no suite entry for it |
| `Rerun.CandidatesSpelled` | crates/proef-cli/src/record.rs:607-654 | the scenarios listed are the failed and the drained, and the drained are the ones counted as never run |
| `Rerun.ProvenNotRerun` | crates/proef-cli/src/record.rs:546-654 | no rerun executes a scenario that passed, passed with warnings, or was skipped at its author's word |
| `Rerun.FilterExactlyWhenAccounted` | crates/proef-cli/src/record.rs:546-602 | a rerun leaves out only proven scenarios if and only if the record accounts for what it selected |
| `Rerun.RerunClosure` | crates/proef-cli/src/record.rs:557-654 | over every chain of completed, cancelled and truncated runs, a scenario whose newest verdict is not proven is kept by the next filter |
| `Rerun.NothingToRerunMeansProven` | crates/proef-cli/src/exec.rs:302-361 | after a run with a tail, "nothing to rerun" is printed if and only if the whole suite is proven |
| `Rerun.TruncatedAlwaysReruns` | crates/proef-cli/src/exec.rs:331-338 | a truncated base never reads as nothing to rerun, and everything it never closed is kept |
| `Rerun.SecondInterruptLosesSkipped` | crates/proef-cli/src/exec.rs:2122-2142 | a truncated record with a drained skip: the rerun leaves an unproven scenario out |
| `Rerun.AbortedSetupReadsAsDone` | crates/proef-cli/src/exec.rs:1360-1376 | a tail without closes: nothing to rerun, nothing proven |
| `Executions.EntryOfPool` | crates/proef-cli/src/record.rs:409-429 | what the record of a run, whole or cut short anywhere, says of a suite scenario is what the pool's close said |
| `Executions.CompletionOf` | crates/proef-cli/src/exec.rs:1360-1376 | a run reads as completed or cancelled when its tail was written, and as truncated wherever it was cut short |
| `Executions.AccountsIffSound` | crates/proef-cli/src/record.rs:594-602 | a run's record accounts for what it selected if and only if: with a tail, the pool was reached, closed all of it, and skipped mechanically only when cancelled; without one, no such skip had been recorded |
| `Executions.LeavesOutOnlyProvenIffSound` | crates/proef-cli/src/record.rs:546-602 | the rerun of a run leaves out only proven scenarios if and only if the run was so |
| `Executions.KilledAnywhere` | crates/proef-cli/src/exec.rs:331-348 | a run that drains nothing may be killed at any event |
| `Executions.ChainProvesSuite` | crates/proef-cli/src/exec.rs:302-361 | over every chain of such runs, completed, cancelled or killed, what is not proven is kept by the next filter, and "nothing to rerun" after a tail means all are proven, and conversely |
| `Report.CarriedScenarioEvents` | crates/proef-cli/src/report.rs:270-319 | keeps, in order and without timing, the suite events of identities the newer runs did not close |
| `Report.CarriedSpelled` | crates/proef-cli/src/report.rs:270-319 | an event is carried if and only if it is the start, a step or the close of a suite scenario the newer runs did not close; starts and closes lose their time and worker and nothing else |
| `Report.CountCarried` | crates/proef-cli/src/report.rs:322-327 | counts the closes of a slice |
| `Report.SpliceBase` | crates/proef-cli/src/report.rs:92-97 | one base spliced in behind the head, with its count |
| `Report.ComposeReport` | crates/proef-cli/src/report.rs:49-115 | the loop ends on every set of records, cyclic links included, with the composed stream and the carried total; once anything was carried the page has no tail and no totals, else the newest run's totals, completion and head read back |
| `Report.BasesOnDisk` | crates/proef-cli/src/report.rs:60-100 | every base visited is the record on disk its predecessor links to, and no run id is visited twice |
| `Report.WalksOnIff` | crates/proef-cli/src/report.rs:65-100 | the walk goes on exactly while the link is one path component, not seen before, with a record on disk |
| `Report.NewerWins` | crates/proef-cli/src/report.rs:92-97 | a scenario a newer run closed keeps the newer entry, steps included |
| `Report.OlderFills` | crates/proef-cli/src/report.rs:92-97 | a scenario no newer run closed takes the base's suite entry, whatever unfinished steps newer runs left |
| `Report.SpliceIsUnion` | crates/proef-cli/src/report.rs:92-97 | one base adds exactly its suite scenarios under what is already composed |
| `Report.ComposedIsUnion` | crates/proef-cli/src/report.rs:60-100 | composing a chain is the left-biased union of its records |
| `Report.CarriedCountIsAdded` | crates/proef-cli/src/report.rs:92-97 | the carried count is the number of scenarios added |
| `Report.StripInvisible` | crates/proef-cli/src/report.rs:265-269 | dropping timing changes nothing a reader sees |
| `Report.PageIsUnion` | crates/proef-cli/src/report.rs:49-115 | the page lists the newest run over its whole chain, and the count adds up |
| `Report.PageDeclinesTail` | crates/proef-cli/src/report.rs:102-115 | once anything was carried the page is the composed stream without its run's tail, every other event there in order; otherwise it is the composed stream, with the newest run's totals and completion |
| `ChainReports.BasesAreEarlier` | crates/proef-cli/src/report.rs:60-100 | on a chain whose records name their predecessors, the links visit exactly the earlier runs, newest first |
| `ChainReports.PageIsNewest` | crates/proef-cli/src/report.rs:49-115 | on such a chain a page's entry for each suite scenario is the newest verdict the chain holds on it |
| `ChainReports.PageCoversSuite` | crates/proef-cli/src/report.rs:49-115 | after a first run that ended, every page covers the whole suite, however long the chain |
| `ChainReports.JUnitHolds` | crates/proef-cli/src/exec.rs:886-895 | a rerun's JUnit file holds what it ran and the suite scenarios of its base's record, nothing else |
| `ChainReports.JUnitCoversIff` | crates/proef-cli/src/record.rs:655-660 | it covers the whole suite if and only if its base was truncated or had itself executed all of it |
| `ChainReports.ChainJUnit` | crates/proef-cli/src/exec.rs:886-895 | the same for every run of a chain |
| `ChainReports.ThirdJUnitIsPartial` | crates/proef-cli/src/exec.rs:886-895 | a sound chain of three runs that proves a scenario which the third JUnit file leaves out |
| `PackFormat.SplitLines` | crates/proef-cli/src/fmt.rs:127-145 | the loop splits at line feeds, each line with its own terminator |
| `PackFormat.CanonicalLine` | crates/proef-cli/src/fmt.rs:201-219 | one body line: fences verbatim, blank runs collapsed, other lines trimmed |
| `PackFormat.DropTrailingBlanks` | crates/proef-cli/src/fmt.rs:220-222 | drops exactly the blank line still held when the block ends |
| `PackFormat.CanonicalBody` | crates/proef-cli/src/fmt.rs:195-223 | the body loop writes what the line automaton emits |
| `PackFormat.CollectBody` | crates/proef-cli/src/fmt.rs:182-194 | takes the longest run of blank or deeper-indented lines |
| `PackFormat.FormatNext` | crates/proef-cli/src/fmt.rs:153-224 | one skeleton line and its block, against the automaton over all remaining lines |
| `PackFormat.NormalizePack` | crates/proef-cli/src/fmt.rs:148-238 | the nested loops compute the normal form |
| `FormatReference.EmitIsFormatted` | crates/proef-cli/src/fmt.rs:148-238 | on every sequence of lines, what is written is each skeleton line as it is and, for each block, what comes back of its lines: fenced ones whole, text trimmed, one empty line for a run of blanks with text after it |
| `FormatReference.BlockIsReference` | crates/proef-cli/src/fmt.rs:195-223 | the body of one block, line by line, in those terms |
| `FormatReference.FenceIff` | crates/proef-cli/src/fmt.rs:195-208 | a fence line is three backticks past its blanks |
| `FormatReference.WhiteSpelled` | crates/proef-cli/src/fmt.rs:195-219 | the characters that trimming drops |
| `FormatReference.FenceKept` | crates/proef-cli/src/fmt.rs:195-208 | from an opening line of three backticks on, every body line up to and including the next such line comes back with its own content and terminator, in one piece |
| `FormatReference.UnfencedTrimmed` | crates/proef-cli/src/fmt.rs:209-219 | a line of text with no line of three backticks before it in its block comes back trimmed at its end |
| `FormatReference.HeaderIff` | crates/proef-cli/src/fmt.rs:161-181 | what opens a block: exactly the spellings of a `hurl` key, in a list item or not, with `\|`, indicators and at most a comment |
| `FormatReference.DominantSpelled` | crates/proef-cli/src/fmt.rs:127-145 | the final newline supplied is a carriage return pair if and only if more line feeds follow a carriage return than do not |
| `FormatReference.SkeletonOnly` | crates/proef-cli/src/fmt.rs:148-238 | a text without blocks comes back as it is, its final newline supplied |
| `PackFormat.TrimEndKeeps` | crates/proef-cli/src/fmt.rs:195-219 | trimming a line keeps whether it is blank or a fence, and its indentation |
| `PackFormat.EmitTidy` | crates/proef-cli/src/fmt.rs:148-238 | what is written has, outside fences, no trailing whitespace, no blank run longer than one and none at a block's end |
| `PackFormat.TidyKept` | crates/proef-cli/src/fmt.rs:148-238 | tidy lines come back as they are |
| `FormatLaws.JoinLines` | crates/proef-cli/src/fmt.rs:127-145 | joining the split lines gives back the text |
| `FormatLaws.LinesJoin` | crates/proef-cli/src/fmt.rs:127-145 | splitting the joined lines gives them back |
| `FormatLaws.Idempotent` | crates/proef-cli/src/fmt.rs:148-238 | formatting twice is formatting once, on every text |
| `FormatLaws.UnchangedIffCanonical` | crates/proef-cli/src/fmt.rs:16-64 | a text is left alone if and only if its blocks are tidy and it ends in a newline |
| `FormatLaws.NormalizedIsCanonical` | crates/proef-cli/src/fmt.rs:148-238 | whatever the formatter writes is such a text |
| `FormatLaws.EmitConserves` | crates/proef-cli/src/fmt.rs:148-238 | skeleton and fenced lines survive whole, a block's other lines survive in order up to trailing whitespace |
| `FormatLaws.NormalizedConserves` | crates/proef-cli/src/fmt.rs:148-238 | the same for whole texts, a missing final newline supplied to the last part and nothing else changed |
| `FormatLaws.TerminatedConserved` | crates/proef-cli/src/fmt.rs:148-238 | on a text that ends in a newline no part changes at all |
| `FormatSkeleton.TrimmedReadsAlike` | crates/proef-cli/src/fmt.rs:161-181 | trimming a line keeps whether it opens a block and at which column |
| `FormatSkeleton.SkeletonOfOutput` | crates/proef-cli/src/fmt.rs:148-238 | read as YAML, the output's lines outside `hurl` blocks are exactly what came back of the input's |
| `FormatSkeleton.SkeletonKeptIffSpared` | crates/proef-cli/src/fmt.rs:3-8 | line by line: every line outside YAML's `hurl` blocks comes back whole and in order if and only if each is skeleton or fenced to the formatter too, or untrimmed text, or the empty first of a blank run in a block that goes on |
| `FormatSkeleton.SkeletonUntouchedIff` | crates/proef-cli/src/fmt.rs:3-8 | the same on every text, a missing final newline supplied |
| `FormatSkeleton.PlainPackKept` | crates/proef-cli/src/fmt.rs:3-8 | where no `hurl` key stands in a list item, and nothing that looks like one in another key's text, the skeleton is never touched |
| `FormatSkeleton.SiblingKeyIsTrimmed` | crates/proef-cli/src/fmt.rs:182-194 | a sibling of a list item's `hurl` key is trimmed, and kept exactly when it had nothing to trim |
| `FormatSkeleton.SiblingsLoseBlank` | crates/proef-cli/src/fmt.rs:209-214 | of two blank lines between such siblings one is dropped |
| `FormatSkeleton.ScalarTextTrimmed` | crates/proef-cli/src/fmt.rs:160-194 | a `hurl` block shown in another key's text is formatted as one |
| `FormatSkeleton.SiblingsExist` | crates/proef-cli/src/fmt.rs:160-183 | lines of the first kind: `- hurl: \|` and any text indented by two below it |
| `FormatSkeleton.ShownBlocksExist` | crates/proef-cli/src/fmt.rs:160-183 | lines of the second kind: `doc: \|`, then `hurl: \|` indented by two, then any text indented by four |
| `Sinks.FirstFree` | crates/proef-cli/src/exec.rs:1170-1180 | the least slot not taken, at most as many as are taken |
| `Sinks.TimedSink.AcquireSlot` | crates/proef-cli/src/exec.rs:1170-1180 | the bounded search finds the least free slot and occupies it |
| `Sinks.TimedSink.ReleaseSlot` | crates/proef-cli/src/exec.rs:1181-1185 | frees one identity's slot and no other |
| `Sinks.TimedSink.Emit` | crates/proef-cli/src/exec.rs:1159-1232 | stamps starts and finishes, forwards everything else unchanged, in order |
| `Sinks.LiveSlotsDiffer` | crates/proef-cli/src/exec.rs:1159-1232 | after any events, live scenarios hold pairwise different slots |
| `Sinks.SlotsBelowJobs` | crates/proef-cli/src/exec.rs:1159-1232 | with at most J live at once, every slot given is below J |
| `Sinks.RecordAll` | crates/proef-cli/src/exec.rs:1159-1232 | a stream emitted through one sink: each event in its place, starts and finishes stamped with their own time, starts with a worker and finishes without, nothing else changed |
| `Sinks.TimesRecorded` | crates/proef-cli/src/exec.rs:1159-1232 | the recorded event at each place is the emitted one at its own time |
| `Sinks.LiveIff` | crates/proef-cli/src/exec.rs:1159-1232 | a scenario holds a slot from its start until its finish |
| `Sinks.WorkersBelowJobs` | crates/proef-cli/src/exec.rs:1159-1232 | every recorded start carries the least worker no live scenario holds, below J |
| `Sinks.RunRecord.Open` | crates/proef-cli/src/exec.rs:1324-1351 | opening writes the head and zeroes the totals |
| `Sinks.RunRecord.Add` | crates/proef-cli/src/exec.rs:1352-1357 | folds totals in, field by field |
| `Sinks.RunRecord.Drop` | crates/proef-cli/src/exec.rs:1360-1376 | writes the tail with the totals and the cancel flag, unless a panic unwinds |
| `Sinks.EmitPool` | crates/proef-cli/src/exec.rs:1241-1246 | the pool's sink drops heads and tails and forwards the rest in order |
| `Sinks.EmitPhase` | crates/proef-cli/src/exec.rs:1257-1297 | a phase's sink also labels its scenario events |
| `Sinks.Execute` | crates/proef-cli/src/exec.rs:461-770 | a whole run through its guard and sinks writes, timing aside, the record its plan stands for, and every start and close in it carries a time |
| `Sinks.WrittenInOrder` | crates/proef-cli/src/exec.rs:461-770 | that record is head, setup, and unless setup ended the run the pool, then teardown; the tail last, unless a panic unwinds |
| `Sinks.PoolInOrder` | crates/proef-cli/src/exec.rs:1241-1246 | of the pool's events exactly the heads and tails are missing, and the others are as they were and in order |
| `Sinks.PhaseInOrder` | crates/proef-cli/src/exec.rs:1257-1297 | so are a phase's, each start and close with the label in place of its phase and nothing else changed |
| `Sinks.OneHeadOneTail` | crates/proef-cli/src/exec.rs:1300-1376 | exactly one head, first; on every exit but a panic exactly one tail, last |
| `Sinks.ReadsBackTotals` | crates/proef-cli/src/record.rs:361-461 | the record parses as single-pair, with its head, the suite's own totals, and the way the run ended |
| `Sinks.EventComesFrom` | crates/proef-cli/src/exec.rs:1241-1297 | an event in the record is the pool's as it was, or a phase's with its label on starts and closes; after an early end, setup's only |
| `Sinks.LabelTellsPhase` | crates/proef-cli/src/exec.rs:1257-1297 | exactly the phases' scenario events carry a label, each its own phase's |
| `Sinks.SuiteIsPool` | crates/proef-cli/src/record.rs:209-217 | a record's suite entries are exactly the scenarios its pool closed, none if the run ended before its pool |
| `MaxFail.CancelsAtMostOnce` | crates/proef-cli/src/exec.rs:1120-1153 | in every interleaving the run is cancelled only after N closes with status failed and no phase have passed the counter, and at most once while fewer than N + 2^32 are emitted |
| `MaxFail.TripsExactlyAtThreshold` | crates/proef-cli/src/exec.rs:1120-1153 | once all emissions are through: cancelled if and only if N closes with status failed and no phase were emitted, exactly once if and only if fewer than N + 2^32 were, every event forwarded exactly once |
| `Watch.InterruptReachesRun` | crates/proef-cli/src/watch.rs:152-164 | once the handler is through, any run in progress holds a cancelled token |
| `Watch.OneRunAfterStop` | crates/proef-cli/src/watch.rs:302-370 | at most one run starts after `stop` is set |
| `Watch.NoRunAfterThat` | crates/proef-cli/src/watch.rs:302-370 | unless the loop is already past its check, none does |
| `Watch.OnlyHandlerCancels` | crates/proef-cli/src/watch.rs:152-164 | without an interrupt no token is cancelled, with one at most one is |
| `Watch.LeavesPromptly` | crates/proef-cli/src/watch.rs:302-370 | after `stop` the loop takes at most five more steps, wherever it stood, and leaves |
| `Flaky.JudgedByTail` | crates/proef-cli/src/flaky.rs:143-182 | once judged and not broken, a history is healthy if and only if it never flapped or its window is clean |
| `Flaky.VerdictTable` | crates/proef-cli/src/flaky.rs:143-182 | each of the seven verdicts holds if and only if its own condition on the observations does: too few of them, quarantined and failing or green throughout, failing throughout, two changes of outcome, a pass on retry, or none of these or a clean window since |
| `Flaky.DwellTime` | crates/proef-cli/src/flaky.rs:104-182 | a fall at observation k keeps the scenario flagged until k + r - 1 |
| `Flaky.FallsApart` | crates/proef-cli/src/flaky.rs:104-182 | two falls are at least r observations apart |
| `Flaky.FallsBounded` | crates/proef-cli/src/flaky.rs:104-182 | in n observations the verdict goes from healthy to flaky or latent at most n / r + 1 times |
| `Flaky.NoWindowNoRecovery` | crates/proef-cli/src/flaky.rs:128-182 | with a window of zero a flagged scenario never becomes healthy |
| `Flaky.RecoversWhenEarned` | crates/proef-cli/src/flaky.rs:128-182 | a flagged scenario becomes healthy exactly when its window is clean |
| `Sla.NearestRank` | crates/proef-cli/src/sla.rs:43-50 | the percentile is an element with at least p% of the values up to it and less than p% below it |
| `Sla.PercentileOver` | crates/proef-cli/src/sla.rs:43-50 | it exceeds a budget if and only if fewer than p% of the values keep within it |
| `Sla.SortByDuration` | crates/proef-cli/src/sla.rs:93-98 | the rows come back sorted, and the same rows |
| `Sla.CheckP95` | crates/proef-cli/src/sla.rs:101-105 | a p95 breach is reported if and only if fewer than 95% of the steps keep within the budget, and names the nearest-rank value |
| `Sla.CheckMax` | crates/proef-cli/src/sla.rs:106-110 | a max breach is reported if and only if some step exceeds the budget, and names the longest duration |
| `Sla.SlowestAreSlowest` | crates/proef-cli/src/sla.rs:120-123 | the rows listed are up to three of the steps, slowest first, and no other step is slower |
| `Sla.Evaluate` | crates/proef-cli/src/sla.rs:93-125 | the gate reports if and only if a set threshold is breached, names exactly those breached with their values, and lists the slowest steps |
| `Assets.FileSystem.ResolveAssets` | crates/proef-cli/src/assets.rs:109-161 | succeeds if and only if every reference is plain, known and readable and no name has two sources, and gives each its own directory; a refusal names the first reference that fails, and how |
| `Assets.FileSystem.StageOne` | crates/proef-cli/src/assets.rs:177-229 | one copy: skipped if in place, a link replaced and not written through, a second spelling refused, nothing but the target changed |
| `Assets.FileSystem.StageAll` | crates/proef-cli/src/assets.rs:176-231 | copies in turn and stops at the first failure, with that failure |
| `Assets.FileSystem.StageAssets` | crates/proef-cli/src/assets.rs:163-231 | a refusal leaves the filesystem alone and says why, success is the whole staging, nothing but targets ever changes |
| `Assets.ResolvedOneSource` | crates/proef-cli/src/assets.rs:113-159 | what resolving accepts has one source per name, and every source is readable |
| `AssetLaws.EscapesIff` | crates/proef-cli/src/assets.rs:121-130 | a name is refused as escaping if and only if it starts with a slash or has a component of exactly two dots |
| `AssetLaws.FragmentFileIs` | crates/proef-cli/src/assets.rs:69-78 | a fragment's file is the text before its first `#`, or all of it |
| `AssetLaws.ResolvableIff` | crates/proef-cli/src/assets.rs:109-161 | resolving accepts exactly plain names whose file is in the feature's directory, or in the one the fragment's file was read from, no name from two directories |
| `Assets.SourceUntouched` | crates/proef-cli/src/assets.rs:163-231 | staging elsewhere never changes what a source holds |
| `Assets.StagedRightIffNoClash` | crates/proef-cli/src/assets.rs:163-231 | after success every name reads back its own source's bytes if and only if there is no link clash |
| `Assets.FreshStagingIsRight` | crates/proef-cli/src/assets.rs:163-231 | in a destination without links, success means every name reads back its own bytes |
| `AssetLaws.StoppedShares` | crates/proef-cli/src/assets.rs:176-231 | with sources apart from targets, staging stops only for two different names that are one file there, and names them |
| `AssetLaws.StagedIffNoneShared` | crates/proef-cli/src/assets.rs:176-231 | in a destination without links it succeeds if and only if no two names are one file there |
| `Assets.ClashExample` | crates/proef-cli/src/assets.rs:181-187 | three files on which one asset silently reads another's bytes |
| `KeyFile.KeysAgree` | crates/proef-cli/src/secretstore.rs:115-180 | in every interleaving all processes that obtain a key obtain the one in the file |
| `KeyFile.KeyStays` | crates/proef-cli/src/secretstore.rs:115-180 | a key once written is never replaced |
| `KeyFile.AbandonedFileBlocksAll` | crates/proef-cli/src/secretstore.rs:163-180 | a file created and never written blocks every later process |
| `SecretStore.StoreIsSerial` | crates/proef-cli/src/secretstore.rs:373-417 | in every interleaving, crashes included, the store is what the committed operations give one after another, none refused in that order, each once, and every reported success among them |
| `SecretStore.TookEffectIffSucceeded` | crates/proef-cli/src/secretstore.rs:373-417 | of the processes that ended, exactly the successful ones took effect |
| `SecretStore.FinalStoreIsSuccesses` | crates/proef-cli/src/secretstore.rs:373-417 | when all processes ended in success or refusal, the final store is what exactly the successful operations give, each once, one after another |
| `SecretStore.StoreHoldsLastSet` | crates/proef-cli/src/secretstore.rs:373-417 | in every interleaving a name is in the store if and only if the last committed operation on it set it, with that token; a name none is about is as it was at the start |
| `SecretStore.RefusedForAbsentName` | crates/proef-cli/src/secretstore.rs:404-412 | a process is refused only for removing a name that is not in the store then |
| `SecretStore.RemovedWasThere` | crates/proef-cli/src/secretstore.rs:404-412 | a removal that took effect found its name |
| `SecretStore.AloneSucceeds` | crates/proef-cli/src/secretstore.rs:373-417 | alone, `set` goes through and adds its token, and `rm` of a name that is there removes it |
| `SecretStore.AloneRefused` | crates/proef-cli/src/secretstore.rs:404-412 | alone, `rm` of an absent name is refused and changes nothing |
| `SecretStore.NoLostUpdate` | crates/proef-cli/src/secretstore.rs:232-255 | what a process is about to save extends the current store, and no other process is in its critical section |
| `SecretKeys.Halves` | crates/proef-cli/src/secretstore.rs:373-400 | processes that create the key and set secrets run the key machine and the store machine at once |
| `SecretKeys.CommittedUnderOneKey` | crates/proef-cli/src/secretstore.rs:373-400 | in every interleaving each token `set` commits is made under the one key the key file holds |
| `SecretKeys.StoreUnderOneKey` | crates/proef-cli/src/secretstore.rs:373-417 | every token in the store was there from the start or is made under that key |
| `Commands.NextCommand` | crates/proef-cli/src/commands.rs:467-493 | the text pushed piece by piece is the command's text, and a shell reads it as `proef`, `test`, the path, and each of `--env`, `--tags`, `--scenario`, `--scenario-file` that is given with its value |
| `Commands.UnquotedIff` | crates/proef-cli/src/commands.rs:495-507 | a value is printed as it is if and only if it is not empty and all letters, digits and six marks |
| `Commands.UnquotedIsBad` | crates/proef-cli/src/commands.rs:495-507 | the reader takes no unquoted special character as itself |
| `Commands.FeedQuotedValue` | crates/proef-cli/src/commands.rs:495-507 | every value, quotes and blanks included, reads back as one word, itself |
| `Commands.PastedCommandIsTheCommand` | crates/proef-cli/src/commands.rs:455-507 | pasted into a shell, the command is `proef test` with exactly the path and the four flags' values given, in that order |
| `Paths.Split` | crates/proef-cli/src/report.rs:247-263 | the stack of components is the path's normal parts |
| `Paths.NameThenUp` | crates/proef-cli/src/report.rs:247-263 | a name and the step up behind it leave the parts as they are |
| `Paths.RootHasNoParent` | crates/proef-cli/src/report.rs:247-263 | a step up at the root is dropped |
| `Paths.DotIgnored` | crates/proef-cli/src/report.rs:247-263 | so is a step to the directory itself |
| `Paths.NamesAreParts` | crates/proef-cli/src/report.rs:247-263 | names alone are the parts |
| `Paths.CountShared` | crates/proef-cli/src/report.rs:226-230 | counts the leading parts two paths share: as many as there are |
| `Paths.RelativeFrom` | crates/proef-cli/src/report.rs:220-243 | no link between different roots; otherwise up past what is not shared, then down |
| `Paths.LinkArrives` | crates/proef-cli/src/report.rs:220-263 | the link is not empty, and following it from one directory arrives at the other's parts |
| `Paths.ShortestLink` | crates/proef-cli/src/report.rs:220-243 | no non-empty link that arrives has fewer components |

## Left out

- Real input and output, clocks, threads, signals, JSON, TOML and YAML parsing, and every renderer: a run's events, a directory's records and a filesystem's entries are values here.
- Encryption and key material: a key is a number, a token a string, and which key a token was made under is given; a key supplied through `PROEF_KEY` bypasses the key file; `resolve_all`, `list` and the doctor checks only read.
- The runner itself: that it closes each selected scenario once, and skips mechanically only under cancellation, is an assumption of `Executions.ChainProvesSuite` (`Executions.Sound`), and where it fails is shown.
- Tag, scenario and path selection that changes between the runs of a chain: every rerun selects from the same suite.
- Records from before closes named their file: the locality and composition theorems ask for a file on every close; the adoption rule for the others has its own lemma.
- Payload fields no reader here looks at: a step's engine, captures, label, fragment and failure detail.
- The library sorts: rows are sorted here by selection (`Timings`) and insertion (`Sla`); only order and contents matter, and rows of equal duration may come in any order.
- The iteration order of the rerun candidates: a set here, an ordered map in the source.
- String order: code point by code point, which is the order of UTF-8 bytes.
- An overflow check on the `--max-fail` counter, which a debug build has and a release build, modelled here, has not.
- `Sinks.Execute`: what setup, pool and teardown emit is given as three sequences, in the order the locked sink sees them; a poisoned lock is recovered as the source does and not modelled.
- `Timings.SplitBound`: its condition is sufficient; past it nothing is claimed for all weights maps, only what `Saturation.FitIsSharp` and `Saturation.SaturationBreaksBound` show.
- `FormatSkeleton.SkeletonUntouchedIff`: YAML is read line by line: blocks and their columns, one dash per line. A `hurl` header counts wherever a line spells one outside another block scalar; flow style, anchors and tags before an indicator, `- |` items and nested dashes are read as structure.
- `Sinks.SuiteIsPool`: for phase features that are no suite scenarios, which the source arranges by excluding them.
- `SecretStore.FinalStoreIsSuccesses`: an operation can take effect and still report an error, when setting the store's mode fails after the rename; such a process counts as dead after its commit, and `SecretStore.StoreIsSerial` covers it.
- Parsing of the weights file, its version check and the sidecar that writes it.
- Hash values other than the ones the source freezes: those are computed here (`ShardVectors`), step by step.
- Other parts of the flakiness report: which runs count as evidence (the outage filter uses floating point), the reading of quarantine tags, p95 and the table; the verdict and its thresholds are modelled.
- Watch filters: which file events are authored input, and the runs directories it ignores; the loop here may see a change or a timeout at any poll.
- Hard links, chains of links, directories and creation of parent directories in staging; a copy may fail for reasons of the filesystem's own at any asset.
- Windows path prefixes and the `.` components that path parsing drops by itself; `Paths` starts from a path already made absolute.
- Deleting the key file or the store, and a store that does not parse: the first load then fails or recovers by moving it aside.
- `Commands.PastedCommandIsTheCommand`: the reader knows blanks, backslashes and single quotes (sections 2.2.1 and 2.2.2 of the POSIX.1-2017 Shell Command Language), takes a character as itself when section 2.2 does not list it as one to be quoted, and rejects every other unquoted character, double quotes included; brace expansion and history expansion, which some shells add, are not part of it.
- Discovery, configuration layers, diffing, SARIF, TAP, CTRF and JUnit output: mappings with little state of their own.
