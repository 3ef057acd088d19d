# Verified models of SecantusDB's log patches and conformance tooling

A Dafny 4.11 project that models the parts of SecantusDB where a silent mistake
costs most: the two patches that change how WiredTiger's log makes commits
durable, the sharded pgjdbc lane and its baseline, and the small algorithms
behind the Go lane, the changelog and the benchmark harnesses. `dafny verify
dfyconfig.toml` checks everything.

| component | files | what is proved |
|---|---|---|
| fsync group sync | `Lsn`, `FsyncLog`, `FsyncInvariant`, `FsyncTheorems`, `FsyncSlots`, `FsyncLiveness` | over every run: `sync_lsn` names only synced bytes and never moves back, returned commits survive a crash, a covered slot does not sync again, the directory flag is honoured, and without failures every schedule brings every commit to its return |
| dsync group commit | `DsyncLog`, `DsyncInvariant`, `DsyncTheorems`, `DsyncGrouping`, `DsyncLiveness`, `DsyncWork` | over every run: crash safety, with directory entries for exactly the grouped commits; waiters close a slot only in turn, so commits that arrive during a write share the next slot and its one write; no commit gets stuck, with slot objects reused, however threads are scheduled |
| pgjdbc shards | `Scheduling`, `ShardPlan`, `ShardReport`, `Baseline` | exact partition, the 2 - 1/n and 4/3 - 1/(3n) bounds, shard-then-merge conservation, exact exit codes, verdicts that compose |
| Go skip flag | `SkipPatterns`, `SkipTheorems`, `SkipWalks` | for any pattern, exactly when Go's splitter reads the rewritten pattern as wanted, and the same for flags |
| changelog | `Text`, `Changelog`, `ChangelogContents`, `UnreleasedHeader`, `Collate` | the one-pass parser equals a block-wise reading, whose headings, sections and ledes are characterised on the lines; where collation puts fragments, and exactly when that is Unreleased |
| benches | `RwHarness`, `LoadGaps`, `Chart`, `Interleaving` | when PASS can be trusted, exact gaps, chart fitting over the reals, a Latin square and ratios by pass |
| patch engine | `PatchEngine` | all or nothing; for edits that cannot touch each other's anchors, sequential equals simultaneous and a second run is a no-op |

`Sorting`, `Collections`, `Extremes` and `Optional` hold what several components share.

## How the logs are modelled

Both logs are step systems. A state holds the log's shared fields and where every
slot and every committer stands; an event is one atomic action of some thread; a
run is any sequence of enabled events, so every interleaving of any number of
threads is covered. A wait is an event that may be taken later, so no timing is
assumed. LSNs are pairs of file and offset. A crash may follow any step: it keeps
at least what the state says is durable, and nothing else is assumed of the disk.

Slots are numbered by activation. Under `method=dsync` each activation also names
the slot object it uses, objects return to a pool and are reused, and `slot ==
log->active_slot` compares objects, so it can become true again for a committer
whose own group is long gone.

The patches change a few functions of WiredTiger. The functions around them are
not part of the repository and enter as step contracts, taken from what the
patches' docstrings and anchor text say of them. These contracts are assumptions:

- `__log_fsync_file`, called for a slot, flushes every byte already written to
  the log file whose handle is current at the call, and what the slot's own file
  holds up to the slot's end; when it returns, `sync_lsn` is the slot's end. If it
  fails, the connection panics and only error returns follow.
- `write_lsn` moves from a slot's release LSN to its end once the slot is written
  and every earlier slot is, and a slot's release LSN is the end of the slot before it.
- The closing thread syncs the log files left behind in order, each after
  `write_lsn` has passed its end, and then moves `sync_lsn` to the next file.
- Joining, copying and releasing a slot is modelled by the set of committers
  still copying; the last one out of a closed slot releases it, unless the closer
  found nobody copying and releases it itself.
- `__log_slot_switch_internal` refuses (EBUSY) only before it has closed the slot;
  once it has, it installs a replacement from a pool of at least two objects.
- A directory sync makes durable the entries of the log files that existed when it
  began. A slot object with an error is never reused.

## Where code and documentation, or code and intention, differ

- The fsync docstring's example suggests that a slot written before another's sync
  never syncs. `FsyncTheorems.CoveredSlotNeverSyncs` proves it from the note on, and
  for the whole run when the slot is the later one;
  `FsyncTheorems.EarlierSlotMayHaveSynced` is a run where an earlier slot did sync.
- A dsync commit that is not grouped may return before its log file's directory
  entry is synced; the docstring promises that sync to grouped committers only
  (cmake/patch_wt_dsync_group.py:31). `DsyncGrouping.PromisedExactly` proves both
  halves, for every choice of flags, size and buffer limit.
- `_shard_spec` speaks of a round-robin slice; the code assigns heaviest first to the
  least-loaded shard, and that is what is modelled.
- Class names free of `::` are not enough for baseline comparisons to compose: a name
  that ends in a colon clashes with the name without it
  (`Baseline.TrailingColonClashes`). `Baseline.ComposesIffSeparate` is the exact condition.
- `_anchor`'s first walk does not honour escapes, its second does and Go does
  (`SkipTheorems.EscapesMislead`); it clamps the count of parentheses where Go does
  not, and it does not look at `|`. `SkipTheorems.AnchorAgreesIff` says for every
  pattern whether it is served.
- Two of the five tests before the fsync credit follow from the other three in every
  reachable state (`FsyncSlots.CreditDecidedByThree`).
- The harness's PASS line is not justified when a worker reported both acknowledged
  and failed writes: one can stand in for the other in every count
  (`RwHarness.PartialLossFools`).
- Collation inserts at the first mention of `## [Unreleased]`, whatever line that is
  in. Fragments under an earlier mention go to the release that holds it, or to none
  (`Collate.CollateElsewhere`), or make a release of their own
  (`Collate.CollateAddsRelease`); `Collate.IntendedIff` is the exact condition.
- With `insert_many`, a duplicate key is a bulk-write error, which the load writer
  does not catch; its comment's "count it as succeeded" holds for single inserts.

## Model

| member | source | states |
|---|---|---|
| FsyncInvariant.LeaveKeeps | cmake/patch_wt_fsync_group.py:70-74 | a covered slot that leaves the loop without the lock keeps the log's invariant: everything below `sync_lsn` is durable and slot boundaries are respected |
| FsyncInvariant.TakeLockKeeps | cmake/patch_wt_fsync_group.py:75-79 | taking `log_sync_lock` keeps the invariant; the lock is held by exactly the slot inside the loop |
| FsyncInvariant.NoteKeeps | cmake/patch_wt_fsync_group.py:86-89 | the noted `write_lsn` is a boundary below which every slot is written |
| FsyncInvariant.FsyncEndKeeps | cmake/patch_wt_fsync_group.py:90 | when the `fsync` returns, moving `sync_lsn` to the slot's end names only durable slots |
| FsyncInvariant.CreditKeeps | cmake/patch_wt_fsync_group.py:91-96 | crediting the noted LSN under the patch's test keeps every byte below `sync_lsn` durable |
| FsyncInvariant.FsyncCredits | cmake/patch_wt_fsync_group.py:18-24 | the sync covered every slot of the handle's file below the noted LSN |
| FsyncTheorems.StepKeeps | cmake/patch_wt_fsync_group.py:69-97 | every event of the step system keeps the invariant |
| FsyncTheorems.RunKeeps | cmake/patch_wt_fsync_group.py:69-97 | the invariant holds in every state of every run, file switches during a sync included |
| FsyncTheorems.SyncLsnNamesSyncedBytes | cmake/patch_wt_fsync_group.py:34-36 | in every reachable state each log byte below `sync_lsn` is in a durable slot |
| FsyncTheorems.DurableCameFromSync | cmake/patch_wt_fsync_group.py:35-36 | a slot is durable only if a completed `fsync` that covers it began after it was written |
| FsyncTheorems.ReturnedCommitsSurvive | cmake/patch_wt_fsync_group.py:34-36 | a commit that returned without error has its record and every earlier log byte on disk after a crash at any later step |
| FsyncTheorems.SyncLsnNeverMovesBack | cmake/patch_wt_fsync_group.py:91-95 | `sync_lsn` never moves backwards between two states of a run |
| FsyncTheorems.FsyncStrictlyRaises | cmake/patch_wt_fsync_group.py:88-90 | each completed `fsync` of the loop strictly raises `sync_lsn` |
| FsyncTheorems.OneFsyncPerSlot | cmake/patch_wt_fsync_group.py:86-97 | a slot issues at most one `fsync` in a run |
| FsyncTheorems.CreditReaches | cmake/patch_wt_fsync_group.py:91-95 | after the credit `sync_lsn` has passed every slot written before the note |
| FsyncTheorems.CoveredSlotNeverSyncs | cmake/patch_wt_fsync_group.py:70-74 | a slot written before another's own sync notes `write_lsn`, the file still current at the credit, issues no `fsync` from the note on, and none at all unless it is an earlier slot that had already synced |
| FsyncTheorems.EarlierSlotMayHaveSynced | cmake/patch_wt_fsync_group.py:8-11 | a concrete run in which a covered earlier slot had already synced |
| FsyncTheorems.CurrentFileTestIsNeeded | cmake/patch_wt_fsync_group.py:91-93 | a concrete run that meets every other test of the credit although the log has left the file, in which crediting would name an unsynced byte |
| FsyncSlots.JoinAddsRecord | cmake/patch_wt_fsync_group.py:34-36 | a join adds exactly the committer's record to the active slot's bytes, and the slot then asks for what any of its joins asked for |
| FsyncSlots.DirectoryComesFirst | cmake/patch_wt_fsync_group.py:71 | once a join has asked for the directory, its slot is flushed or done only after the log directory was synced up to the slot's file, so a covered slot with the flag does not leave early |
| FsyncSlots.DirSyncIsAsked | cmake/patch_wt_fsync_group.py:71 | the directory is synced only by the lock holder, for a slot with the flag whose file is not covered yet |
| FsyncSlots.NoFlagNoLoop | cmake/patch_wt_fsync_group.py:69-97 | a slot that asks for no sync never enters the loop |
| FsyncSlots.ReturnsMean | cmake/patch_wt_fsync_group.py:34-36 | a commit returns without error only past its record and with no failure about, with an error only after one |
| FsyncSlots.FailureShows | cmake/patch_wt_fsync_group.py:90 | a failed write or sync leaves its error behind and moves no LSN; exactly a failed sync panics |
| FsyncSlots.CreditDecidedByThree | cmake/patch_wt_fsync_group.py:91-93 | in every reachable state the five tests of the credit hold if and only if three of them do |
| FsyncLiveness.SteadyLowers | cmake/patch_wt_fsync_group.py:69-97 | every event that neither fails nor brings new work lowers a measure of the work left |
| FsyncLiveness.Progress | cmake/patch_wt_fsync_group.py:75-79 | while a commit waits, in a state without failure, some such event can happen: the lock holder's, the closing thread's, a writer's or the commit's own |
| FsyncLiveness.PathIsBounded | cmake/patch_wt_fsync_group.py:69-97 | a path of such events is no longer than the measure at its start |
| FsyncLiveness.NeverSticks | cmake/patch_wt_fsync_group.py:25-30 | from every state of every run without panic or failed slot, however threads are scheduled, such events come to an end, and then every commit that had not returned an error has returned, waits for `sync_lsn` to reach a file included |
| FsyncLiveness.CanReturn | cmake/patch_wt_fsync_group.py:69-97 | a path that ends with no commit waiting exists |
| DsyncInvariant.ObserveKeeps | cmake/patch_wt_dsync_group.py:122-123 | a waiter's decision to close keeps the invariant, although the object it looks at may serve a later group |
| DsyncTheorems.CloseForcedKeeps | cmake/patch_wt_dsync_group.py:64-86 | a forced close by a waiter, of whatever group is active, keeps the invariant |
| DsyncInvariant.DirSkipKeeps | cmake/patch_wt_dsync_group.py:187-193 | leaving the directory-sync loop without the lock keeps `sync_dir_lsn` behind what directory syncs have covered |
| DsyncInvariant.ReturnOkKeeps | cmake/patch_wt_dsync_group.py:116-120 | a return keeps: returned commits are in written groups, grouped ones in files whose directory entry is synced |
| DsyncTheorems.StepKeeps | cmake/patch_wt_dsync_group.py:105-193 | every event of the step system keeps the invariant |
| DsyncTheorems.RunKeeps | cmake/patch_wt_dsync_group.py:105-193 | the invariant holds in every state of every run |
| DsyncTheorems.ReturnedRecordsAreWritten | cmake/patch_wt_dsync_group.py:29-30 | a synced commit that returned without a slot error has its whole record and every earlier log byte in the files after a crash at any later step |
| DsyncTheorems.GroupedCommitsSurvive | cmake/patch_wt_dsync_group.py:118-120 | for a grouped commit, or one that released its slot, those files' directory entries survive too |
| DsyncTheorems.StockCommitMayLoseItsFile | cmake/patch_wt_dsync_group.py:163-166 | for every choice of flags and size of a synced commit that is not grouped, a run in which it has returned and a crash may lose its log file |
| DsyncTheorems.PromisedIffGrouped | cmake/patch_wt_dsync_group.py:163-166 | a synced commit is promised, in every run, its record, all before it and the directory entries of their files, if and only if the `grouped` test holds of its flags and end offset |
| DsyncGrouping.LooksInTurn | cmake/patch_wt_dsync_group.py:122-123 | over every run, a waiter goes for a close only when every group before the active one is durable and passed by `write_lsn`, and the active object is the one it joined |
| DsyncGrouping.FallsBackLate | cmake/patch_wt_dsync_group.py:129-137 | it goes for the blocking close only after at least a thousand turns of its loop, on a multiple of fifty, while its object is active |
| DsyncGrouping.TryEnds | cmake/patch_wt_dsync_group.py:72-85 | a try closes the slot, or the lock was held, a thread was copying, the slot was no longer active, or there was nothing to close |
| DsyncGrouping.ClosesWholeSlot | cmake/patch_wt_dsync_group.py:78-80 | a waiter that closes a slot finds every copy into it done and a record in it; by a try, it is the object it joined |
| DsyncGrouping.ArrivalsShareSlot | cmake/patch_wt_dsync_group.py:16-18 | while an earlier group is not written and neither a stock commit, the fallback nor another thread closes the slot, it stays open and every commit that arrives is in it |
| DsyncGrouping.OpenSlotTakesAll | cmake/patch_wt_dsync_group.py:16-18 | an open slot takes any record, whoever holds a lock, copies or syncs |
| DsyncGrouping.OneWritePerGroup | cmake/patch_wt_dsync_group.py:19-21 | a group is written at most once in a run |
| DsyncGrouping.WriteServesGroup | cmake/patch_wt_dsync_group.py:19-21 | that write makes the records of all the group's commits durable, and none joins afterwards |
| DsyncGrouping.DurableCameFromWrite | cmake/patch_wt_dsync_group.py:29-30 | a group is durable only if its write was done |
| DsyncGrouping.DirectoryCameFromSync | cmake/patch_wt_dsync_group.py:31 | directory entries become durable only when a directory sync ends, those that existed when it began; a failed write or directory sync leaves its error and moves nothing |
| DsyncGrouping.FilesLeftAreDurable | cmake/patch_wt_dsync_group.py:182-194 | `sync_lsn` has left a file only when every group in it is durable |
| DsyncGrouping.FilesLeftInTurn | cmake/patch_wt_dsync_group.py:182-194 | it goes file by file, and not during a directory sync |
| DsyncGrouping.DirSyncInTurn | cmake/patch_wt_dsync_group.py:182-194 | a directory sync begins only with no other under way and every group of earlier files durable |
| DsyncGrouping.ReturnsWithoutError | cmake/patch_wt_dsync_group.py:118-120 | a synced commit returns without error only when `write_lsn` has passed its record and no error stands on its slot object |
| DsyncGrouping.ReturnsErrorOnError | cmake/patch_wt_dsync_group.py:116-117 | it returns an error only when one stands there |
| DsyncGrouping.KindIs | cmake/patch_wt_dsync_group.py:163-166 | a commit is grouped if and only if it is a flushed dsync commit without WT_LOG_FSYNC, buffered, ending inside the buffer |
| DsyncGrouping.JoinAddsRecord | cmake/patch_wt_dsync_group.py:16-18 | a join adds the committer's record to the active slot, all its bytes and no others |
| DsyncGrouping.UngroupedClosesFirst | cmake/patch_wt_dsync_group.py:157-166 | a flushed commit without WT_LOG_DSYNC, with WT_LOG_FSYNC, unbuffered or ending at or past the buffer's end never finishes its copy while its slot is open |
| DsyncGrouping.GroupedLeavesOpen | cmake/patch_wt_dsync_group.py:163-166 | any other dsync commit never closes a slot before its own copy is done |
| DsyncGrouping.PromisedExactly | cmake/patch_wt_dsync_group.py:163-166 | a flushed commit is promised, in every run, its record, all before it and their files' directory entries if and only if it has WT_LOG_DSYNC, not WT_LOG_FSYNC, is buffered and ends inside the buffer |
| DsyncLiveness.SwitchProgress | cmake/patch_wt_dsync_group.py:77-80 | while a closed slot lacks its replacement, installing one is possible and brings every waiter closer |
| DsyncLiveness.ReleaseProgress | cmake/patch_wt_dsync_group.py:182-194 | the earliest unfinished closed group always has an enabled copy, write, advance, directory-sync or file-close step toward its release |
| DsyncLiveness.Progress | cmake/patch_wt_dsync_group.py:115-140 | in any state of the invariant without a slot error some events lower a committer's distance to its return, a refused try-close included |
| DsyncLiveness.CanStillReturn | cmake/patch_wt_dsync_group.py:115-140 | the distance is well founded, so a path to the return exists |
| DsyncLiveness.NeverSticks | cmake/patch_wt_dsync_group.py:37-39 | from every state of every run without a slot error, events that add no new work bring each commit, grouped or not, to its return |
| DsyncWork.SteadyWorks | cmake/patch_wt_dsync_group.py:115-140 | every such event uses up work, except a waiter's look, try, refusal or turn of its loop, which leave it unchanged |
| DsyncWork.WorkIsBounded | cmake/patch_wt_dsync_group.py:115-140 | however threads are scheduled, a path holds no more events other than those retries than there was work at its start |
| DsyncWork.QuietHasWork | cmake/patch_wt_dsync_group.py:122-139 | when nothing else is going on, a commit that has not returned can return or close its slot, at once or after one look of its own |
| DsyncWork.ExhaustedIsReturned | cmake/patch_wt_dsync_group.py:37-39 | if no work can be done, now or after any one retry, every commit has returned: retries are never all that is left |
| DsyncWork.EveryScheduleReturns | cmake/patch_wt_dsync_group.py:37-39 | from every state of every run without a slot error and over every schedule, work is bounded, and when none is left, not even after a retry, every commit that had not returned an error has returned |
| Scheduling.GreedyBound | pgjdbc_validation/runner.py:97-102 | in any order, the heaviest greedy shard is at most 2 - 1/n times that of any assignment |
| Scheduling.LongestFirstBound | pgjdbc_validation/runner.py:93-102 | heaviest first, at most 4/3 - 1/(3n) times |
| ShardPlan.FirstLeast | pgjdbc_validation/runner.py:100 | the first index of the least load |
| ShardPlan.ShardClasses | pgjdbc_validation/runner.py:89-103 | the loop over arrays computes the sorted buckets of the greedy longest-first assignment |
| ShardPlan.ShardsArePartition | pgjdbc_validation/runner.py:92 | every class lands in exactly one shard, as often as it was listed |
| ShardPlan.ShardsIgnoreOrder | pgjdbc_validation/runner.py:93-96 | jobs that list the same classes in any order agree on every shard |
| ShardPlan.ShardsAreBalanced | pgjdbc_validation/runner.py:89-103 | both bounds for the real shards against any split of the same classes into n parts |
| ShardPlan.ShortNameIs | pgjdbc_validation/runner.py:95 | a class's short name is the text after its last dot |
| ShardPlan.WeightIs | pgjdbc_validation/runner.py:77-86 | what a class weighs, whatever its package: the eight listed names, else 1 |
| ShardPlan.ShardsAreSorted | pgjdbc_validation/runner.py:103 | every shard lists its classes by name |
| ShardPlan.PlacedByWeight | pgjdbc_validation/runner.py:93-96 | classes are placed by falling weight, by name among equals |
| Sorting.NameOrderIs | pgjdbc_validation/runner.py:103 | names are ordered as dictionaries do: a prefix first, else by the first difference |
| ShardReport.MergeAccepts | pgjdbc_validation/generate_report.py:50-81 | a set of raw files is accepted if and only if none is truncated and it is one unsharded file or holds each index 1..N of one split exactly once |
| ShardReport.MergeRefuses | pgjdbc_validation/generate_report.py:51-80 | the reason for a refusal: some file truncated; else one of several without a shard; else a set that is not complete |
| ShardReport.MergeConserves | pgjdbc_validation/generate_report.py:65-81 | whatever is accepted, sharded or not: every entry occurs as often as in all the files together, in a payload that is not truncated |
| ShardReport.MergeTotals | pgjdbc_validation/generate_report.py:65-81 | and any total over its classes is the sum of the files' totals |
| ShardReport.FailureLines | pgjdbc_validation/generate_report.py:115-119 | one line per failed test, in order: the class without `org.postgresql.test.`, ` :: `, the test |
| ShardReport.Totals | pgjdbc_validation/generate_report.py:96-119 | the report's loop over the classes by name yields the sums of their tests, failures and skips, whatever the order, and a line for every failed test and no more lines than that |
| ShardReport.TallyIgnoresOrder | pgjdbc_validation/generate_report.py:109-111 | totals and lines do not depend on the order of the classes |
| ShardReport.TallyIs | pgjdbc_validation/generate_report.py:110-111 | the totals are sums over the classes |
| ShardReport.ShardThenMergeConserves | pgjdbc_validation/generate_report.py:64-81 | files of jobs that split on their own, each listing the classes in its own order, are accepted as a complete set in any order and total what one unsharded run totals |
| Baseline.FailureCounts | pgjdbc_validation/baseline.py:32-39 | the nested loops count every failing key as often as it fails |
| Baseline.FailuresAre | pgjdbc_validation/baseline.py:35-38 | a key's count grows, class by class, by how often the class's failed tests hold what follows `class::` in it |
| Baseline.FailingIs | pgjdbc_validation/baseline.py:38 | for one class: the key `class::test` counts as often as the test failed, any other not at all |
| Baseline.ClassOfIs | pgjdbc_validation/baseline.py:69 | a key's class is what stands before the first `::`, or all of it |
| Baseline.Compare | pgjdbc_validation/baseline.py:51-75 | regressions are exactly the keys that fail, and more often than the baseline says or without it knowing them; improvements exactly the baseline's keys that fail less often and whose class has run; each with both counts |
| Baseline.Verdict | pgjdbc_validation/baseline.py:78-113 | 2 without a baseline, 124 for a truncated run with one; 0 if and only if an untruncated run has no key that fails more often than the baseline allows, 1 if and only if it has one |
| Baseline.UpdateBaseline | pgjdbc_validation/baseline.py:116-139 | refuses exactly when a raw file is truncated, otherwise the summed counts of all of them |
| Baseline.ClassOfKey | pgjdbc_validation/baseline.py:69 | splitting a key gives back its class if and only if the name has no `::` and does not end in a colon |
| Baseline.PlainNameMeans | pgjdbc_validation/baseline.py:69 | that condition, character by character |
| Baseline.ClashIsSharedKey | pgjdbc_validation/baseline.py:38 | two classes can produce the same key exactly when one's key prefix starts the other's |
| Baseline.TrailingColonClashes | pgjdbc_validation/baseline.py:38 | adding a colon to a name always makes a clash |
| Baseline.RegressionsCompose | pgjdbc_validation/baseline.py:64-67 | for runs of separate classes the merge's regressions are the union of theirs, counts included |
| Baseline.ImprovementsCompose | pgjdbc_validation/baseline.py:68-74 | likewise for improvements, for any baseline |
| Baseline.GreenMergeHasGreenRuns | pgjdbc_validation/baseline.py:64-67 | a merge without regressions has no run with one, whatever the names |
| Baseline.MergeIsGreenIff | pgjdbc_validation/baseline.py:78-113 | for separate classes the merged verdict is green if and only if every run's is |
| Baseline.SharedKeyBreaks | pgjdbc_validation/baseline.py:64-67 | for any class sets of runs, two of which hold classes that share a key, there are green runs and a baseline whose merge is red |
| Baseline.ComposesIffSeparate | pgjdbc_validation/baseline.py:57-67 | for any class sets of runs, merging never changes the verdict, whatever fails and whatever the baseline, if and only if no class of one run is, or clashes with, a class of another |
| Baseline.UpdateIsClean | pgjdbc_validation/baseline.py:116-139 | right after an update nothing regresses or improves on the merge, nor on any of the separate runs |
| Baseline.ShardedVerdict | pgjdbc_validation/baseline.py:57-58 | for classes that do not clash, the jobs of a sharded lane are all green if and only if one unsharded run of the same classes would be |
| Baseline.PlainShardedVerdict | pgjdbc_validation/baseline.py:57-58 | the same when every class name has no `::` and does not end in a colon |
| SkipPatterns.HasSlash | go_validation/runner.py:252-270 | the first walk finds a slash outside brackets, escapes not honoured |
| SkipPatterns.Anchor | go_validation/runner.py:245-298 | the two walks compute the anchored pattern |
| SkipPatterns.SplitLosesNothing | go_validation/runner.py:210-214 | joining what Go's splitter yields gives back the flag |
| SkipPatterns.PipeSeparates | go_validation/runner.py:301 | after a pattern that leaves nothing open, `\|` starts a fresh one |
| SkipTheorems.WrappedSplits | go_validation/runner.py:273-298 | where Go and the second walk split at the same slashes, Go splits that walk's output into the original parts, each with its anchors |
| SkipTheorems.WrappedCounts | go_validation/runner.py:273-298 | for any pattern, the second walk adds and removes no alternative and shortens no part |
| SkipTheorems.AnchorAgreesIff | go_validation/runner.py:245-298 | for every pattern, Go reads the rewritten one as wanted (alternatives of several parts anchored part by part, others unchanged) if and only if it fits: untouched and without slashes for Go, or one alternative of several parts split alike |
| SkipTheorems.OnePatternFitsIff | go_validation/runner.py:252-270 | with matched parentheses and no top-level `\|`, a pattern fits if and only if the first walk sees a slash exactly when there is one |
| SkipTheorems.TameWalksAgree | go_validation/runner.py:255-270 | it does whenever no backslash stands before a bracket, parenthesis or slash |
| SkipTheorems.EscapeFreeIsTame | go_validation/runner.py:255-270 | in particular in escape-free patterns |
| SkipTheorems.FlagAgreesIff | go_validation/runner.py:300-301 | for any list of patterns that leave nothing open, Go splits the joined flag, pattern by pattern, into what was wanted if and only if every pattern fits |
| SkipTheorems.FlagSeparatesIff | go_validation/runner.py:300-301 | for any list of patterns that fit, it does if and only if each but the last leaves nothing open |
| SkipTheorems.TameFlagAgrees | go_validation/runner.py:300-301 | so it does for every list of balanced patterns without top-level `\|` and with harmless escapes or none |
| SkipTheorems.EscapesMislead | go_validation/runner.py:256-257 | an escaped slash and an escaped bracket that mislead the first walk |
| SkipWalks.SlashSeparates | go_validation/runner.py:245-298 | for plain text around a slash: Go splits there, and both parts come out between `^` and `$`; a pattern without one stays as it is |
| SkipWalks.ClosedInSeparatesNothing | go_validation/runner.py:258-270 | a slash inside brackets or parens separates nothing, and the pattern stays as it is |
| SkipWalks.StrayParen | go_validation/runner.py:264-268 | after a stray `)` Go splits nothing while the rewriter anchors both sides: no such pattern fits |
| SkipWalks.StrayBracket | go_validation/runner.py:260-268 | a stray `]` is clamped by both, so the slash after it separates for both |
| SkipWalks.EscapedSlash | go_validation/runner.py:256-257 | an escaped slash separates nothing for Go, yet the whole pattern gets anchored: no such pattern fits |
| Text.LinesSplit | changelog/parse.py:77 | `splitlines` of whole lines followed by more text is the two halves' lines |
| Text.BreakEndsLine | changelog/parse.py:77 | any line break ends a line, and a carriage return with a newline is one break |
| Text.SpaceAndBreaks | changelog/parse.py:86 | which characters are white space and which break lines, by code point |
| Text.StripParts | changelog/parse.py:156 | stripping takes the white space at both ends and nothing else |
| Changelog.ParseText | changelog/parse.py:75-148 | the one-pass line loop yields exactly the block-wise reading of the lines |
| Changelog.ReleasesCut | changelog/parse.py:88-101 | lines cut before any release heading read as the two parts do, one after the other |
| Changelog.ParseCut | changelog/parse.py:75-148 | the same for the text itself |
| ChangelogContents.ReleaseLine | changelog/parse.py:38-40 | a line is the heading of a version and date if and only if it is `##`, space, the version in brackets, perhaps space, a dash, space and a date of ten characters, and trailing space |
| ChangelogContents.TitleLine | changelog/parse.py:41 | a line is a title if and only if it is `###`, space, the title and perhaps more space |
| ChangelogContents.SectionLine | changelog/parse.py:42 | a line opens a section if and only if it is `####`, space, the name and perhaps more space |
| ChangelogContents.SectionsHold | changelog/parse.py:119-137 | for every body: one section per heading name, in order of first heading; a section has one entry per bullet or indented line under its headings, in order, and entry k is that line, right-stripped, followed by the text lines up to the next bullet, a blank before each |
| ChangelogContents.BulletsAre | changelog/parse.py:126-129 | the bullets of a section are, in order, the plain lines that start with `- ` or two blanks and whose last section heading is the section's |
| ChangelogContents.ReleaseReads | changelog/parse.py:88-101 | a heading and its body read as one release with the heading's version and date, the body's title and lede, and those sections |
| ChangelogContents.LedeReads | changelog/parse.py:138-163 | title and lede of a body: the first title, and the lines up to the next title or section, joined, stripped, with newlines collapsed |
| ChangelogContents.NoLedeReads | changelog/parse.py:138-163 | a body whose first section comes before any title has no lede |
| ChangelogContents.CollapseRuns | changelog/parse.py:159 | a run of newlines is kept up to two of them, and the text on either side is read on its own |
| ChangelogContents.CollapseKeepsText | changelog/parse.py:159 | text without newlines is kept |
| ChangelogContents.CollapseKeepsOrder | changelog/parse.py:159 | every character but the newline is kept, in order |
| Changelog.FlushedLede | changelog/parse.py:151-163 | whenever a release ends, flushing leaves the cleaned prose between its first title and the next heading, and nothing if a section came before the title |
| Changelog.LedeHasNoBlankRun | changelog/parse.py:159 | no lede holds three newlines in a row |
| Collate.FragmentFilesIgnoreOrder | changelog/fragments.py:33-45 | fragments fold in filename order, however the directory lists them |
| Collate.FragmentFilesAre | changelog/fragments.py:30-45 | the fragments are the listed files but `readme.md` and `.gitkeep`, in whatever case these are written |
| Collate.Workspace.Collate | changelog/fragments.py:48-83 | no fragments or no header leave everything as it was; otherwise the text becomes the collated one and the fragments go if asked |
| Collate.BodiesAreBodies | changelog/fragments.py:67 | bodies are not empty and have no space at either end |
| Collate.BodiesOf | changelog/fragments.py:67 | each file gives its stripped text, or nothing if that is empty, in order |
| Collate.CollatedText | changelog/fragments.py:73-77 | a blank line and the bodies, a blank line between two, go in right behind the first `## [Unreleased]`, and nothing else changes |
| Collate.CollatedNowhere | changelog/fragments.py:70-71 | collation is refused if and only if the text nowhere holds the header |
| Collate.JoinedLines | changelog/fragments.py:76 | each body's lines appear once, whole and in order, a blank line between bodies |
| UnreleasedHeader.HeaderLine | changelog/parse.py:38-40 | a line that begins with the header is a release heading only as Unreleased's, and is one when blanks follow |
| UnreleasedHeader.HeadingShrinks | changelog/parse.py:38-40 | a line that goes on after the header is a heading only if it would be one cut off there |
| UnreleasedHeader.ForeignHeading | changelog/parse.py:38-40 | a line with something before the header is never Unreleased's heading |
| Collate.CollateFrame | changelog/fragments.py:73-77 | when the first mention of the header is its own line, blanks or a date allowed after it, and no line put in is a release heading, every other release parses as before, and Unreleased from the new lines followed by all its old ones |
| Collate.CollateElsewhere | changelog/fragments.py:73-77 | when the mention's line is no heading, the release whose body holds it takes the fragments and no other changes; in the preamble none changes |
| Collate.CollateAddsRelease | changelog/fragments.py:73-77 | when cutting the line off after the mention makes a heading of it, there is one release more |
| Collate.IntendedIff | changelog/fragments.py:56-57 | the fragments stand under Unreleased's heading, with as many releases as before, if and only if the first mention is the header's own line |
| Collate.PlainFragmentsAreHarmless | changelog/fragments.py:67-77 | after a header line with nothing but blanks behind the header, fragments without release headings bring none in |
| Collate.NewestFragmentLeads | changelog/fragments.py:14-18 | the first fragment gives Unreleased its title, and its prose as the lede when a heading follows the prose |
| RwHarness.WorkerRun | bench/rw_harness.py:223-258 | the worker stops only at its count or its last turn; acknowledged writes are counted once each, acknowledged and failed add up to the last sequence number, and read-backs are counted by outcome, all of them sampled |
| RwHarness.BadReadsMean | bench/rw_harness.py:244-256 | a bad read is seen exactly when, after a write at which read-backs are due and by which one was acknowledged, a read-back finds a document gone or damaged |
| RwHarness.DamageShows | bench/rw_harness.py:151-157 | a document with a field missing never verifies; with all fields it does for exactly one stored checksum |
| RwHarness.DocIdIsUnique | bench/rw_harness.py:115-123 | ids of two documents agree exactly when worker and sequence number do |
| RwHarness.Validate | bench/rw_harness.py:331-363 | the sweep's totals, duplicates, checksum and shape findings, and the workers whose stored count differs, in order |
| RwHarness.Report | bench/rw_harness.py:459-504 | PASS exactly when every finding is empty and the total equals the acknowledged writes |
| RwHarness.Judge | bench/rw_harness.py:590-605 | sweep and report together, on any collection: PASS if and only if every document verifies and has a worker, ids are distinct, the counts are right and read-backs were clean |
| RwHarness.CleanIsPasses | bench/rw_harness.py:493-504 | on a collection of the documents named by some ids, that is: none is damaged and the counts of ids are right |
| RwHarness.MadeIsSound | bench/rw_harness.py:130-157 | a document as a worker makes it is stored under its id and verifies |
| RwHarness.PassIsSound | bench/rw_harness.py:493-514 | if every worker lost all its writes or none, PASS means the stored ids are exactly the acknowledged ones, and a worker without a result file left no document |
| RwHarness.PartialLossFools | bench/rw_harness.py:493-514 | otherwise some collection that lost an acknowledged write passes |
| RwHarness.PassIsSoundIff | bench/rw_harness.py:493-514 | with clean read-backs PASS can be trusted if and only if no worker reported both acknowledged and failed writes |
| LoadGaps.Run | bench/load_writer.py:100-162 | for any batch size, count and replies the attempted ranges tile 1..n, all of full size but perhaps the one that reaches the count; n stays within the count and reaches it unless stopped or thrown out, n is succeeded plus failed, and an error no handler takes leaves the loop with its batch in neither |
| LoadGaps.RepliesMean | bench/load_writer.py:115-140 | which replies count: stored, and a duplicate of a single document; an outage is a failure, anything else ends the run |
| LoadGaps.AttemptedOnce | bench/load_writer.py:108-114 | every number up to n is in exactly one attempted range, no other in any |
| LoadGaps.Compact | bench/chaos.py:186-198 | ascending numbers become ranges that hold exactly them, none touching another |
| LoadGaps.GapsAreUnique | bench/chaos.py:186-198 | only one such list of ranges exists, so each gap is maximal |
| LoadGaps.Analyze | bench/chaos.py:178-206 | the gaps hold exactly the numbers missing up to the greatest, distinct present plus missing equals it, and duplicates are counted |
| LoadGaps.GapsAreFailures | bench/load_writer.py:96-98 | every gap lies in batches that did not succeed, and no more is missing than was attempted without success |
| Chart.YScale | bench/concurrency_chart.py:135-143 | the fitted scale is positive, keeps every point between the top and bottom, and is the greatest up to 120 that does |
| Chart.ChartInPixels | bench/concurrency_chart.py:50-52 | parity is drawn at 214, a ratio one scale higher for each 1.0, and the chart reaches from 21 to 250 |
| Chart.OnChartIff | bench/concurrency_chart.py:173-174 | a ratio is on the chart exactly when the scale leaves room for it |
| Chart.GridLines | bench/concurrency_chart.py:199-208 | the loop ends and draws exactly the whole ratios from 2 on that lie low enough |
| Chart.NudgeInPlace | bench/concurrency_chart.py:149-156 | the two loops over the array compute the placement; the second push moves nothing |
| Chart.NudgeLabels | bench/concurrency_chart.py:146-157 | labels keep their keys in order of height |
| Chart.PlacedFits | bench/concurrency_chart.py:150-156 | order and minimum gap are kept and no label passes the lower limit |
| Chart.PlacedIsLeast | bench/concurrency_chart.py:150-153 | without overflow the placement is pointwise least among those that keep the gap and raise no label; with overflow every such placement passes the limit |
| Chart.OverflowLifts | bench/concurrency_chart.py:152-156 | on overflow the last label sits at the limit and distances stay as pushed |
| Interleaving.OrderIsPermutation | bench/compare_servers.py:379-381 | every pass runs each server once |
| Interleaving.LatinSquare | bench/compare_servers.py:379-381 | in any k consecutive passes over k servers each server takes each position exactly once |
| Interleaving.RunWorkloads | bench/compare_servers.py:226-317 | a pass times the same nine workloads every time, whatever happens to their values |
| Interleaving.InterleavedRuns | bench/compare_servers.py:377-387 | for every server and workload the list has one sample for each pass, sample i is what was measured in pass i, and there is no other list; pass i runs the servers in the order rotated by i |
| Interleaving.SamplesPairByPass | bench/compare_servers.py:374-375 | two servers' lists of a workload are equally long and pair measurements of one pass |
| Interleaving.RangeIsByPass | bench/compare_servers.py:394-407 | for any two servers and any workload, the paired range holds every ratio within a pass, both ends are reached, and it is missing exactly when no pass gives a ratio |
| PatchEngine.SourceFile.Patch | cmake/patch_wt_dsync_group.py:208-236 | nothing is written when there are no edits for the file, the marker is present or an anchor does not occur once; otherwise all edits are made in order |
| PatchEngine.CountIsSole | cmake/patch_wt_dsync_group.py:223-229 | an anchor is counted once if and only if all its occurrences overlap the first |
| PatchEngine.ReplaceSole | cmake/patch_wt_dsync_group.py:230-231 | replacing such an anchor changes that first place alone |
| PatchEngine.PlaceAnchors | cmake/patch_wt_dsync_group.py:223-229 | a text whose anchors are found at places that do not overlap is those anchors, where they were found, with text between them |
| PatchEngine.CheckedIsPatchable | cmake/patch_wt_dsync_group.py:221-229 | for edits of which no anchor can touch an earlier anchor or its replacement, the script's check alone puts the anchors apart |
| PatchEngine.SequentialIsSimultaneous | cmake/patch_wt_dsync_group.py:221-231 | on any text that passes the script's check, such edits give, one after the other, what replacing every anchor at once gives |
| PatchEngine.SequentialOnApart | cmake/patch_wt_dsync_group.py:230-231 | so do edits of which no anchor can touch an earlier replacement, on a text whose anchors do not overlap |
| PatchEngine.BlockEditsAreIndependent | cmake/patch_wt_dsync_group.py:146-205 | for edits made of whole lines, as the scripts' are, that condition follows when the first lines of an anchor and of an earlier anchor or replacement do not turn up in one another |
| PatchEngine.PatchedIsMarked | cmake/patch_wt_dsync_group.py:218-220 | the patched text then holds every replacement and so the marker, and a second run leaves it alone |
| PatchEngine.StepAgreesIff | cmake/patch_wt_fsync_group.py:117-125 | for an edit that changes the length, made where its anchor is first found, one after the other agrees with all at once if and only if the anchor, counted at that moment, is still found once |
| PatchEngine.BroughtInDiverges | cmake/patch_wt_fsync_group.py:117-125 | an anchor that an earlier replacement holds is found twice when its turn comes, and the two results differ |
| PatchEngine.InsertionsKeepText | cmake/patch_wt_dsync_group.py:196-205 | edits that only add around their anchors: the patched text, of any text, holds all of the old one in order |

## Left out

- WiredTiger's own code beyond the step contracts above (B-tree, eviction, checkpoint, recovery): not part of the repository.
- Directory syncs under `method=fsync`: `FsyncSlots` shows that they come before the slot is done, but that model has no directory entries and no failing directory sync; a commit may return once `sync_lsn` passes it, before its slot's directory sync, as without the patch.
- Condition-variable timeouts, yields and signals: a wait is an event that may be taken later, so no bound on how long a commit waits is stated.
- In the dsync model a commit is synced when it has WT_LOG_FLUSH; one with WT_LOG_FSYNC alone, whose slot the code also closes, is modelled as unsynced and its wait for `sync_lsn` is not.
- `WT_SESSION_CHECK_PANIC` in the dsync wait, and panics of the group close: error paths after which nothing more is promised.
- The embedded C is modelled as transitions on values, so data races below the level of one field access are not captured.
- `_shard_spec` parsing, `_aggregate`'s reading of JUnit files, report rendering, process and network plumbing: text and calls with no provable core.
- Read-back sampling draws, deadlines and signals in the workers and the load writer: a worker may stop after any number of turns.
- Changelog headings: `\d` is modelled for ASCII digits, and file name lowering in `Collate.IsFragment` for ASCII letters.
- Changelog releases are values updated at the end of a list, where the source mutates the object it appended last.
- Regular-expression matching by Go beyond splitting at `/` and `|`; Go's splitter is written after `splitRegexp` of its `testing` package, which is not part of the repository.
- Chart geometry is over the reals; rounding to whole pixels and floating point are not modelled.
- The other `patch_wt_*.py` scripts, `tasks.py`, documentation and blog generation: one-line substitutions and text output.
- FsyncTheorems.CoveredSlotNeverSyncs: an earlier slot may have synced before the note, so "never" is stated from the note on for it.
- FsyncTheorems.DurableCameFromSync: after a file switch, that the loop's sync flushes the slot's own file is the assumed contract of `__log_fsync_file`.
- DsyncTheorems.GroupedCommitsSurvive: stated for grouped commits and releasers; `DsyncGrouping.PromisedExactly` shows that no other commit can be promised it.
- DsyncLiveness.NeverSticks: states that a path to the return exists; `DsyncWork.EveryScheduleReturns` speaks of every schedule, but that a scheduler gives every thread a turn is not part of the model.
- RwHarness.PassIsSound: speaks of collections that hold only documents some worker tried to write; SHA-256 is an uninterpreted function of the fields.
- PatchEngine.BlockEditsAreIndependent: the scripts' own anchors and replacements are not spelled out, so that their first lines meet the condition is left to be read off the scripts.
- PatchEngine.InsertionsKeepText: covers edits that only insert, as the dsync ones do; the fsync edits also change one wait time.
- Medians and all throughput figures: settled by reading one expression.
- A benchmark pass that raises ends the whole run without samples.
