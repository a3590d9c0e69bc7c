# A verified model of gem5_EIP

gem5_EIP is the gem5 simulator with an entangling instruction prefetcher (EIP).
This project models the parts of it whose correctness is an argument rather than
a look at the code, and proves that argument in Dafny:

* **the entangling prefetcher** (`gem5/src/mem/cache/prefetch/eip.hh`, `eip.cc`):
  the compressed destination formats, the entries and the set-associative table
  that hold them, and the history buffer that picks sources by time;
* **the pipeline viewer** (`gem5/util/o3-pipeview.py`): the bounded reordering
  queue, the region of interest and the drawn timeline;
* **the checkpoint upgrader** (`gem5/util/cpt_upgrader.py`): loading of tagged
  scripts and the rounds in which they are applied;
* **the port binder** (`gem5/configs/example/read_config.py`): the greedy pass
  that restores vector port wiring;
* **the trace tools** (`gem5/util/protolib.py`, `decode_inst_dep_trace.py`,
  `encode_inst_dep_trace.py`): varints, framing and the text form of dependency
  traces;
* **simulation control** (`gem5/configs/common/Simulation.py`): scripted
  checkpoints, repeated CPU switching and SimPoint checkpoints;
* **smaller tools**: the memory tester's cache tree (`memtest.py`), the checkpoint
  aggregator, copyright date ranges, the latency test's working set sizes and the
  rolling log.

`dafny verify dfyconfig.toml` checks everything. The model is an account of what the
code does, written from its text.

## How it is organised

| file | content |
|---|---|
| `Options.dfy`, `Arithmetic.dfy`, `Bits.dfy`, `Text.dfy` | absent values, division, masks and powers of two, decimal numerals, splitting and joining |
| `EntangledFormat.dfy`, `EntangledEntry.dfy`, `EntangledHash.dfy`, `EntangledTable.dfy` | destination formats; one table entry; where a line goes; the table |
| `EntanglingHistory.dfy`, `EntanglingRing.dfy`, `EntanglingRuns.dfy` | the history and its times; the ring that holds it; whole runs |
| `PipeviewOrder.dfy`, `PipeviewTrace.dfy`, `PipeviewTimeline.dfy` | the queue; from trace lines to printed instructions; the picture |
| `CheckpointUpgrader.dfy`, `UpgradeSchedules.dfy` | the program; what its schedules guarantee |
| `PortBinder.dfy` | the binding pass |
| `Protolib.dfy`, `DepTrace.dfy` | varints and frames; the text format |
| `ScriptedCheckpoints.dfy`, `CpuSwitching.dfy`, `SimPoints.dfy` | the three loops of Simulation.py |
| `CacheTree.dfy`, `Aggregator.dfy`, `CopyrightDates.dfy`, `LatencyRanges.dfy`, `LogRoll.dfy` | one tool each |

Code that updates objects or arrays is modelled by classes and loops and proved
equal to specification functions; the lemmas are about those functions. What comes
from outside is a parameter: the lines of a trace, the exits of the simulator, the
current cycle, the scripts of a directory. Exceptions are outcomes of the model.

## Where the code and its comments disagree

The model follows the code.

* The viewer's comment on its queue (o3-pipeview.py:45-50) states an assumption
  that is sufficient. The exact condition is weaker: it concerns only the
  instructions held back at the moments the queue is drained
  (`PipeviewOrder.StreamSortsIffOrdered`).
* The upgrader's documentation (cpt_upgrader.py:56-61) says that a dependency on a
  tag with a downgrader means that the tag has been removed before. The test for
  readiness asks for the opposite, so the rule holds only where nothing depends on
  such a tag (`UpgradeSchedules.RemovesFirstIff`), and one that does may run in
  either order or never (`DependentMayRunBeforeRemoval`,
  `DependentStuckAfterRemoval`, `RemovalCanStrand`).
* The upgrader reads the tags under Globals before those under root.globals
  (cpt_upgrader.py:223-226) but writes only the latter (line 260). A file that keeps
  its Globals tags is therefore migrated anew at every pass
  (`UpgradeSchedules.GlobalsHideRewrite`; `IdempotentIff` and
  `IdempotentFromStartIff` have the exact condition).
* The abort message speaks of a cycle. There need not be one
  (`UpgradeSchedules.AbortsIffCycle` gives both causes).
* The port binder's comment (read_config.py:314-316) says that sorting leaves
  exactly one of each pair bindable. `PortBinder.SortedPassMayFail` has a system of
  four ports and three connections for which the sorted pass fails though another order works, and the
  table in lines 317-323 is not what the pass does (`CommentedExample`).
* `__cmp__` (read_config.py:151-153) orders connections under Python 2 only. The
  model uses the order it defines.
* Simulation.py:252-259 tests an exit cause that is no longer that of the last
  exit, so a checkpoint requested by the guest ends the scripted run
  (`ScriptedCheckpoints.GuestCheckpointEndsRun`).
* An empty message written by protolib.py reads back as the end of the file
  (`Protolib.RoundTripIff`).
* A date range with a year outside 1000 to 9999 is written but not read back
  (`CopyrightDates.DatesRoundTripIff`).
* When the history of the prefetcher is squashed, the surviving entry inherits the
  time of the squashed ones. From then on it counts as more recent than it is, and
  a source can be chosen for it that is later than the latency asks for
  (`EntanglingRuns.SquashMakesLate`). `EntanglingHistory.SquashExactIff` says which
  squashes do this, and `EntanglingRuns.RunTimelyIff` which pairs of lines suffer.

## Model

| member | source | states |
|---|---|---|
| `EntangledFormat.FindFormat` | gem5/src/mem/cache/prefetch/eip.hh:151-164 | the loop finds the narrowest format whose high bits agree for line and destination |
| `EntangledFormat.BitForms` | gem5/src/mem/cache/prefetch/eip.hh:166-180 | the masks, shifts and ors of compression and extension are remainder and floor arithmetic |
| `EntangledFormat.RoundTripIff` | gem5/src/mem/cache/prefetch/eip.hh:151-180 | compressing and extending gives the destination back exactly for the formats up to the chosen one |
| `EntangledFormat.ExtendedFormat` | gem5/src/mem/cache/prefetch/eip.hh:151-180 | any stored address extends to a line whose own format is at least the one it is stored in |
| `EntangledEntry.Survey` | gem5/src/mem/cache/prefetch/eip.hh:805-830 | one pass counts the live destinations, finds the format all of them need and the first of the least confident ones |
| `EntangledEntry.FitsIff` | gem5/src/mem/cache/prefetch/eip.hh:802-835 | there is room for one more exactly when the format of every destination, the new one included, has that many places |
| `EntangledEntry.Evict` | gem5/src/mem/cache/prefetch/eip.hh:802-835 | terminates with room for one more in the format needed; destinations go in the order of confidence and then of place, none when all fit, and otherwise no more than needed: with the last one given up they did not fit |
| `EntangledEntry.Reformat` | gem5/src/mem/cache/prefetch/eip.hh:837-853 | changing the format changes no destination |
| `EntangledEntry.FindSlot` | gem5/src/mem/cache/prefetch/eip.hh:784-796 | finds a live slot for the destination if and only if there is one |
| `EntangledEntry.AddDestination` | gem5/src/mem/cache/prefetch/eip.hh:784-868 | keeps the entry's invariant, stores the destination with full confidence, keeps the others in place with theirs, gives up the least confident ones first, only when they do not fit and then no more than needed |
| `EntangledEntry.UpdateConfidence` | gem5/src/mem/cache/prefetch/eip.hh:926-958 | keeps the invariant and moves at most one slot, up for an access and down for a useless prefetch, by one within 0 to 3; no slot comes to life |
| `EntangledEntry.ReportEffect` | gem5/src/mem/cache/prefetch/eip.hh:926-958 | after an access the destination reported is live if it was and surer by one up to the maximum; after a useless prefetch it is less sure by one; other destinations keep their confidence and all keep their line |
| `EntangledEntry.UselessAreForgotten` | gem5/src/mem/cache/prefetch/eip.hh:926-958 | a destination reported useless three times in a row is no longer known, whatever its confidence was |
| `EntangledEntry.PrefetchScan` | gem5/src/mem/cache/prefetch/eip.cc:181-225 | the assertion format >= num_entangled never fails, whatever confidence is lost during the scan, and none is gained; the lines handled are destinations of the entry and include all that stay live; those without an ongoing request are issued |
| `EntangledHash.HashBit` | gem5/src/mem/cache/prefetch/eip.hh:653-657 | bit i of the hash is the parity of bits i, i + 2 and i + 5 of the line |
| `EntangledHash.EntryIsHash` | gem5/src/mem/cache/prefetch/eip.hh:681-683 | set and tag together are the low eighteen bits of the hash, neither overlapping nor leaving one out |
| `EntangledHash.SharesEntryIff` | gem5/src/mem/cache/prefetch/eip.hh:653-683 | of lines that agree from bit eighteen on, only equal ones have the same set and tag |
| `EntangledTable.GetWay` | gem5/src/mem/cache/prefetch/eip.hh:679-692 | finds the first way with the tag, or none |
| `EntangledTable.Reallocate` | gem5/src/mem/cache/prefetch/eip.hh:694-759 | the entry up for replacement moves onto a least worthy way, exactly when some way is worth less than it; one with destinations is worth more than one without, and then one with a basic block |
| `EntangledTable.Claim` | gem5/src/mem/cache/prefetch/eip.hh:768-783 | keeps tags unique in the set and loses only a least worthy entry of the whole set |
| `EntangledTable.ClaimedRow` | gem5/src/mem/cache/prefetch/eip.hh:694-783 | moving and claiming together keep the set's invariant and every entry but one |
| `EntangledTable.Table.constructor` | gem5/src/mem/cache/prefetch/eip.hh:659-677 | the initial table satisfies the invariant |
| `EntangledTable.Table.Locate` | gem5/src/mem/cache/prefetch/eip.hh:763-783 | after it the line has a way, the old one if it had one |
| `EntangledTable.Table.AddEntangled` | gem5/src/mem/cache/prefetch/eip.hh:761-869 | the line's entry gains the destination; nothing else changes but a least worthy entry if room was needed |
| `EntangledTable.Table.AddBbSize` | gem5/src/mem/cache/prefetch/eip.hh:871-895 | the line's entry has the larger basic block size; same frame |
| `EntangledTable.Table.GetEntangled` | gem5/src/mem/cache/prefetch/eip.hh:897-913 | gives the destination in the slot if it is live, zero otherwise |
| `EntangledTable.Table.Adjust` | gem5/src/mem/cache/prefetch/eip.hh:926-958 | changes only the confidences of the named way |
| `EntangledTable.StoreEntry` | gem5/src/mem/cache/prefetch/eip.hh:784-868 | writing an entry back leaves every look-up in the set as it was |
| `EntanglingHistory.AddedConserves` | gem5/src/mem/cache/prefetch/eip.hh:985-1031 | adding loses no entry: what stays followed by what leaves is what came in followed by what there was, filler entries included |
| `EntanglingHistory.AddedAccounted` | gem5/src/mem/cache/prefetch/eip.hh:992-1029 | however long the gap, an addition credits nothing: every entry that stays keeps its time, and the new one gets the current time |
| `EntanglingHistory.SquashedAccounted` | gem5/src/mem/cache/prefetch/eip.hh:253-293 | after a squash every entry is still ahead of its real time by exactly what it was credited, the survivor having been credited with the time differences of the squashed ones |
| `EntanglingHistory.SquashExactIff` | gem5/src/mem/cache/prefetch/eip.hh:253-293 | a squash takes a history off the real times if and only if its survivor is a line and the squashed time differences do not sum to zero |
| `EntanglingHistory.SquashedLines` | gem5/src/mem/cache/prefetch/eip.hh:253-293 | a squashed line loses its tag, block and source; one that stays keeps everything but its block, which ends at the squashed line if and only if it held it |
| `EntanglingHistory.SquashedBlocksEnd` | gem5/src/mem/cache/prefetch/eip.hh:253-293 | every line left in the history is one that came before, and no block that held the squashed line reaches past it |
| `EntanglingHistory.GapIsRealTime` | gem5/src/mem/cache/prefetch/eip.hh:341-351 | the time the search adds up is the real time between two lines plus the difference of their credits |
| `EntanglingHistory.LatencyIff` | gem5/src/mem/cache/prefetch/eip.hh:137-146 | the 12-bit latency is right exactly below 4096 cycles |
| `EntanglingRing.Weigh` | gem5/src/mem/cache/prefetch/eip.hh:352-391 | the branches on formats and room amount to comparing ranks |
| `EntanglingHistory.RankMeans` | gem5/src/mem/cache/prefetch/eip.hh:352-391 | the ranks are: fits in the format there is; fits in another format; not in the table yet; none of these |
| `EntanglingHistory.BestMeans` | gem5/src/mem/cache/prefetch/eip.hh:352-391 | the source taken is the first that fits as it is, else the first that fits in another format, else the first not in the table, else the first |
| `EntanglingRing.Search` | gem5/src/mem/cache/prefetch/eip.hh:320-406 | gives the earliest of the best ranked among the first 24 eligible sources, never the line itself, and gives one exactly when there is one before the line occurs again |
| `EntanglingRing.History.constructor` | gem5/src/mem/cache/prefetch/eip.hh:211-226 | the empty history satisfies the invariant |
| `EntanglingRing.History.Find` | gem5/src/mem/cache/prefetch/eip.hh:228-242 | finds the newest entry for the line, or none |
| `EntanglingRing.History.Add` | gem5/src/mem/cache/prefetch/eip.hh:985-1031 | the ring holds the history with the new entry at the current time, and what leaves never names itself as its source |
| `EntanglingRing.History.Sweep` | gem5/src/mem/cache/prefetch/eip.hh:253-292 | the pass in place turns every entry into its squashed form and finds the survivor |
| `EntanglingRing.History.Squash` | gem5/src/mem/cache/prefetch/eip.hh:253-293 | the ring holds the squashed history, survivor newest |
| `EntanglingRing.History.Fill` | gem5/src/mem/cache/prefetch/eip.cc:355-367 | the assertion that a line is not its own source never fails; source and destination are updated and nothing else; the source is early enough if the destination inherited no more time than it |
| `EntanglingRuns.RunIsBalanced` | gem5/src/mem/cache/prefetch/eip.hh:195-406 | in every state of every run of accesses, squashes and fills, every line is ahead of its real time by exactly the time it inherited in squashes |
| `EntanglingRuns.RunExactIff` | gem5/src/mem/cache/prefetch/eip.hh:195-406 | a run stays on the real times if and only if no squash leaves a line newest and drops time after it |
| `EntanglingRuns.RunTimelyIff` | gem5/src/mem/cache/prefetch/eip.hh:320-406 | in every state of every run, every latency a source is eligible for is really covered if and only if the destination inherited no more time than the source |
| `EntanglingRuns.RunIsTimely` | gem5/src/mem/cache/prefetch/eip.hh:320-406 | until the first squash that leaves a line newest and drops time after it, no eligible source is later than the latency asks for |
| `EntanglingRuns.SquashMakesLate` | gem5/src/mem/cache/prefetch/eip.hh:284-289 | a run from the empty history, three accesses and a squash, after which the source chosen for a latency of twelve cycles came five cycles before |
| `PipeviewOrder.SortPermutes` | gem5/util/o3-pipeview.py:165 | sorting by sequence number permutes |
| `PipeviewOrder.SortSorts` | gem5/util/o3-pipeview.py:165 | sorting by sequence number sorts |
| `PipeviewOrder.SortStable` | gem5/util/o3-pipeview.py:165 | instructions with one sequence number keep their order |
| `PipeviewOrder.SortedStableUnique` | gem5/util/o3-pipeview.py:165 | there is only one sorted stable arrangement |
| `PipeviewOrder.DrainsAreRegular` | gem5/util/o3-pipeview.py:154-167 | the queue is drained by the arrival after its maximum and then by every (maximum - minimum + 1)-th, and its length follows |
| `PipeviewOrder.DrainCuts` | gem5/util/o3-pipeview.py:162-167 | draining sorts the queue and cuts it at the lower threshold |
| `PipeviewOrder.PushStep` | gem5/util/o3-pipeview.py:154-167 | queueing an instruction conserves all of them and drains exactly at the expected moments |
| `PipeviewOrder.StreamConserves` | gem5/util/o3-pipeview.py:154-167 | every instruction leaves exactly once, with bounded memory |
| `PipeviewOrder.DocumentedAssumptionSuffices` | gem5/util/o3-pipeview.py:45-50 | the documented bound on displacement implies the exact condition |
| `PipeviewOrder.StreamSortsIffOrdered` | gem5/util/o3-pipeview.py:154-167 | the output of the queue is the sorted input, and is sorted at all, if and only if at each drain every later arrival is displaced by at most the instructions held back |
| `PipeviewTrace.FilterSort` | gem5/util/o3-pipeview.py:173-183 | selecting what to print commutes with sorting |
| `PipeviewTrace.Viewer.PrintInsts` | gem5/util/o3-pipeview.py:162-184 | drains the queue and prints the selected instructions in order |
| `PipeviewTrace.Viewer.QueueInst` | gem5/util/o3-pipeview.py:154-159 | one step of the reordering queue |
| `PipeviewTrace.Viewer.RegionOfInterest` | gem5/util/o3-pipeview.py:124-149 | prints the selected instructions of the stream of arrivals and flushes the rest |
| `PipeviewTrace.Viewer.ProcessTrace` | gem5/util/o3-pipeview.py:68-149 | prints what the specification of the whole trace says |
| `PipeviewTrace.RegionIsSuffix` | gem5/util/o3-pipeview.py:81-105 | skipping to the region drops whole instructions, none of them printable |
| `PipeviewTrace.BlocksArrive` | gem5/util/o3-pipeview.py:124-143 | the reused instruction record yields each instruction with its own ticks and no leftovers |
| `PipeviewTrace.QuietDrops` | gem5/util/o3-pipeview.py:124-128 | lines of other kinds make no difference wherever they stand |
| `PipeviewTrace.DriftBoundSuffices` | gem5/util/o3-pipeview.py:60-64 | the documented drift bound implies that stopping early loses nothing |
| `PipeviewTrace.PrintedIsRegion` | gem5/util/o3-pipeview.py:68-184 | if the instructions queued are ordered at the drains, what is printed is their sorted selection |
| `PipeviewTrace.PrintedIff` | gem5/util/o3-pipeview.py:162-184 | whatever the order of the trace, an instruction is printed as often as it is queued if it lies within the sequence number and tick ranges, ends included, and has retired where only committed ones are asked for, and never otherwise |
| `PipeviewTrace.QueuedBounds` | gem5/util/o3-pipeview.py:81-149 | the instructions queued are those from the first whose fetch reaches the start, or the one after the first that reaches it later, up to the first fetched past the end and its slack |
| `PipeviewTrace.PrintsSortedTrace` | gem5/util/o3-pipeview.py:68-184 | if the instructions queued are ordered at the drains, what is printed is the sorted selection of the whole trace if and only if nothing printable follows the stop |
| `PipeviewTrace.DocumentedAssumptionsPrintTrace` | gem5/util/o3-pipeview.py:45-64 | the two documented assumptions together make the viewer print the sorted selection of the whole trace |
| `PipeviewTimeline.OneLineIffCompact` | gem5/util/o3-pipeview.py:233-238 | one line is drawn exactly when all events fall in the window of the fetch, and the last line drawn is needed |
| `PipeviewTimeline.WindowIsRow` | gem5/util/o3-pipeview.py:246-258 | an event is in the window of a line exactly when its tick puts it there |
| `PipeviewTimeline.RanksAreAlphabetical` | gem5/util/o3-pipeview.py:252-259 | events with one tick are drawn in the alphabetical order of the stage names |
| `PipeviewTimeline.RowWidthIff` | gem5/util/o3-pipeview.py:259-279 | a line has the chart's width exactly when no two of its events share a column |
| `PipeviewTimeline.RowCell` | gem5/util/o3-pipeview.py:259-279 | each cell shows the event of its column, or the filler if there is none: a dot for a retired instruction and an equals sign for one that is not |
| `PipeviewTimeline.PictureIsExactIff` | gem5/util/o3-pipeview.py:223-279 | all lines have the right width if and only if no events overlap, and then every stage with a tick is at its row and column, dispatch left out where it is in the cycle of issue |
| `PipeviewTimeline.CellGivesTick` | gem5/util/o3-pipeview.py:246-279 | the tick can be read back from row and column |
| `PipeviewTimeline.RegularHasNoOverlap` | gem5/util/o3-pipeview.py:223-279 | stages in different cycles never overlap |
| `PipeviewTimeline.PaintRow` | gem5/util/o3-pipeview.py:261-278 | the loop paints the line the specification says |
| `PipeviewTimeline.PrintInst` | gem5/util/o3-pipeview.py:223-290 | draws all lines, and fails with an IndexError exactly for a compact instruction without any event |
| `CheckpointUpgrader.Upgraders.Load` | gem5/util/cpt_upgrader.py:90-136 | the tables describe the scripts loaded so far |
| `CheckpointUpgrader.LegacyOfIff` | gem5/util/cpt_upgrader.py:133-134 | a legacy version has a script exactly if one was loaded for it, and of several the last |
| `CheckpointUpgrader.Upgraders.LinkLegacy` | gem5/util/cpt_upgrader.py:165-169 | each legacy script depends on its predecessor up to the first gap; fails exactly when version 3 has none |
| `CheckpointUpgrader.ForwardDeps` | gem5/util/cpt_upgrader.py:172-178 | forward dependencies add the tag to exactly the scripts named |
| `CheckpointUpgrader.Upgraders.ResolveTag` | gem5/util/cpt_upgrader.py:172-183 | succeeds exactly when all tags it mentions are loaded |
| `CheckpointUpgrader.Upgraders.ResolveAll` | gem5/util/cpt_upgrader.py:171-183 | although dependencies are added while they are checked, it succeeds exactly when all of them are loaded |
| `CheckpointUpgrader.Upgraders.LoadAll` | gem5/util/cpt_upgrader.py:158-183 | loading succeeds exactly for loadable sets of scripts and leaves closed dependencies |
| `CheckpointUpgrader.Upgraders.IsReady` | gem5/util/cpt_upgrader.py:138-142 | ready means that all dependencies are among the tags |
| `CheckpointUpgrader.Upgraders.ReadyTags` | gem5/util/cpt_upgrader.py:244 | the set of pending tags that are ready |
| `CheckpointUpgrader.Upgraders.ApplyRound` | gem5/util/cpt_upgrader.py:250-252 | a round has the same effect in every order, and removing a tag never fails |
| `CheckpointUpgrader.Upgraders.Migrate` | gem5/util/cpt_upgrader.py:242-254 | the loop terminates with the tags, the stuck ones, an order that linearizes the rounds and the file edited in that order |
| `CheckpointUpgrader.Upgraders.ProcessFile` | gem5/util/cpt_upgrader.py:206-264 | each kind of version information leads to its outcome, a missing section included, and the scripts have edited the file in an order that linearizes the rounds |
| `CheckpointUpgrader.EditsInOrder` | gem5/util/cpt_upgrader.py:144-152 | each script edits what the one before it left |
| `UpgradeSchedules.RunAccounting` | gem5/util/cpt_upgrader.py:243-254 | every pending tag is applied once or stuck, each round makes progress, and the final tags are accounted for |
| `UpgradeSchedules.Outcomes` | gem5/util/cpt_upgrader.py:206-264 | the version is unknown exactly when a number up to it has no script, information is missing exactly when the three places have none, and a file is left alone only if no script ran, and rewritten only if one did or it had a linear version |
| `UpgradeSchedules.VersionRuns` | gem5/util/cpt_upgrader.py:209-254 | for a file with a linear version no upgrade up to it is run and none runs twice; if the run finishes, all later upgrades have run and exactly the downgrades up to the version |
| `UpgradeSchedules.ListedRuns` | gem5/util/cpt_upgrader.py:223-254 | for a file with tags, those of Globals if there are any, only upgrades not listed and downgrades listed are run, and all of them if the run finishes |
| `UpgradeSchedules.FinalTags` | gem5/util/cpt_upgrader.py:240-254 | a finished migration has all upgrades, no downgrades and nothing pending |
| `UpgradeSchedules.IdempotentIff` | gem5/util/cpt_upgrader.py:206-264 | processing a rewritten file again changes nothing if and only if it has no linear version and no tags under Globals that leave something to apply |
| `UpgradeSchedules.IdempotentFromStartIff` | gem5/util/cpt_upgrader.py:206-264 | with scripts that leave the version alone this can be told from the file before the first pass |
| `UpgradeSchedules.GlobalsHideRewrite` | gem5/util/cpt_upgrader.py:223-260 | a file whose one upgrade is applied at every pass, and one whose tags cannot be written |
| `UpgradeSchedules.LogListsApplied` | gem5/util/cpt_upgrader.py:250-254 | every order of execution lists each applied tag once |
| `UpgradeSchedules.DependenciesPresent` | gem5/util/cpt_upgrader.py:243-254 | in each round all dependencies are present |
| `UpgradeSchedules.DependencyOrder` | gem5/util/cpt_upgrader.py:243-254 | pending dependencies that upgrade have run before; those that downgrade have not |
| `UpgradeSchedules.RemovesFirstIff` | gem5/util/cpt_upgrader.py:56-61 | the documented rule for downgraded dependencies holds exactly when there are none |
| `UpgradeSchedules.LogRespects` | gem5/util/cpt_upgrader.py:243-254 | every order of execution has dependencies before dependents |
| `UpgradeSchedules.FinishesIffOrderExists` | gem5/util/cpt_upgrader.py:242-254 | with no dependency about to be removed, migration finishes if and only if some order respects all dependencies |
| `UpgradeSchedules.FinishesIffLevels` | gem5/util/cpt_upgrader.py:242-254 | for all tags and scripts: migration finishes if and only if every pending tag can be given a round right after the last upgrade it depends on and no later than any removal it depends on |
| `UpgradeSchedules.CycleSticks` | gem5/util/cpt_upgrader.py:245-248 | a cycle among the pending tags is never resolved |
| `UpgradeSchedules.MissingSticks` | gem5/util/cpt_upgrader.py:245-248 | a dependency no script can add is never resolved |
| `UpgradeSchedules.AbortsIffCycle` | gem5/util/cpt_upgrader.py:242-254 | migration aborts if and only if there is a cycle or a dependency on an absent tag that only has a downgrader |
| `UpgradeSchedules.StuckHasCycle` | gem5/util/cpt_upgrader.py:245-248 | otherwise the tags the message lists contain a cycle |
| `UpgradeSchedules.DependentMayRunBeforeRemoval` | gem5/util/cpt_upgrader.py:56-61 | a dependent and the downgrade it depends on can run in either order |
| `UpgradeSchedules.DependentStuckAfterRemoval` | gem5/util/cpt_upgrader.py:56-61 | after the removal the dependent can never run, without any cycle |
| `UpgradeSchedules.RemovalCanStrand` | gem5/util/cpt_upgrader.py:242-254 | with a dependency about to be removed the rounds can abort although an order exists |
| `PortBinder.SortPermutes` | gem5/configs/example/read_config.py:325 | sorting keeps the connections |
| `PortBinder.SortSorts` | gem5/configs/example/read_config.py:151-153 | sorting orders them by ends |
| `PortBinder.StringBeforeIff` | gem5/configs/example/read_config.py:151-153 | the order on names is the lexicographic one: the first difference decides, and a prefix comes first |
| `PortBinder.SortedGroups` | gem5/configs/example/read_config.py:151-153 | after sorting, the connections of an object are together, those of a port are together, and they ascend by index |
| `PortBinder.SortedPeers` | gem5/configs/example/read_config.py:151-153 | connections from one end are sorted by the other |
| `PortBinder.UsedIffCounted` | gem5/configs/example/read_config.py:306-312 | an end is bound exactly when its index is below the port's counter |
| `PortBinder.EndsCount` | gem5/configs/example/read_config.py:325-334 | each binding uses two fresh ends |
| `PortBinder.GreedyInOrder` | gem5/configs/example/read_config.py:325-334 | the pass binds every port in index order |
| `PortBinder.HalfIsAll` | gem5/configs/example/read_config.py:336-339 | the final count is right if and only if every end is bound, one direction of each pair |
| `PortBinder.BoundPeers` | gem5/configs/example/read_config.py:341-347 | both ends of a binding find each other at their indices |
| `PortBinder.WiringRestored` | gem5/configs/example/read_config.py:293-347 | a pass that succeeds recreates exactly the configured wiring |
| `PortBinder.GreedyDominates` | gem5/configs/example/read_config.py:325-334 | no other selection from the order binds an end the pass does not |
| `PortBinder.PassesIffSchedulable` | gem5/configs/example/read_config.py:314-339 | the pass succeeds if and only if some selection from the order does |
| `PortBinder.InitIndices` | gem5/configs/example/read_config.py:301-304 | exactly the ports that stand first in a connection have an index, and it is zero |
| `PortBinder.KeyErrorMeans` | gem5/configs/example/read_config.py:301-312 | the look-up fails only when some port stands second in a connection and first in none |
| `PortBinder.OneSidedFails` | gem5/configs/example/read_config.py:301-312 | and does fail for a single connection given in one direction |
| `PortBinder.BindPorts` | gem5/configs/example/read_config.py:293-339 | the loop and its counters compute the outcome of the pass, failures included |
| `PortBinder.BindPortsIsExact` | gem5/configs/example/read_config.py:293-347 | for every consistent wiring: restored exactly, or no selection of the sorted order could |
| `PortBinder.SortedPassMayFail` | gem5/configs/example/read_config.py:314-316 | a consistent wiring that can be bound but not in sorted order |
| `PortBinder.CommentedExample` | gem5/configs/example/read_config.py:317-323 | the connections of the commented example in sorted order and the three bindings the pass makes of them |
| `Protolib.GroupsSnoc` | gem5/util/protolib.py:110-124 | one more byte adds its seven bits above the others |
| `Protolib.VarintGroups` | gem5/util/protolib.py:143-155 | the groups of an encoded number are the number |
| `Protolib.VarintExamples` | gem5/util/protolib.py:143-155 | the encodings of 1, 150 and 300 of the Base 128 Varints section of the Protocol Buffers Encoding specification |
| `Protolib.VarintLength` | gem5/util/protolib.py:143-155 | it has at most n bytes exactly below two to the 7n |
| `Protolib.DecodeVarint` | gem5/util/protolib.py:98-126 | decoding gives the number wrapped to 32 bits, which is the number exactly below two to the 32, or an error when it takes more than ten bytes |
| `Protolib.EncodeVarint32` | gem5/util/protolib.py:143-155 | appends the encoding to the file |
| `Protolib.DecodeVarint32` | gem5/util/protolib.py:98-126 | reads one varint and not a byte more, in all cases |
| `Protolib.TakeFrame` | gem5/util/protolib.py:128-141 | a frame gives its payload back, unless it is empty |
| `Protolib.UnframeFrames` | gem5/util/protolib.py:128-163 | reading gives the payloads up to the first empty one |
| `Protolib.RoundTripIff` | gem5/util/protolib.py:128-163 | all payloads come back if and only if none is empty |
| `Protolib.FrameTake` | gem5/util/protolib.py:98-163 | what is read of a frame of any size, reduced, zero, negative and too long sizes included |
| `Protolib.FrameReadsBackIff` | gem5/util/protolib.py:98-163 | a payload comes back with the rest untouched if and only if its size is positive and below two to the 32, or comes back as -1 with nothing after it |
| `Protolib.EncodeMessage` | gem5/util/protolib.py:157-163 | appends length and payload |
| `Protolib.DecodeMessage` | gem5/util/protolib.py:128-141 | takes one frame off the file |
| `Protolib.DecodeAll` | gem5/util/decode_inst_dep_trace.py:154-203 | reads messages until there is none |
| `Protolib.EncodeAll` | gem5/util/encode_inst_dep_trace.py:147-195 | writes a frame per message |
| `DepTrace.ParsePrinted` | gem5/util/encode_inst_dep_trace.py:147-194 | dependency lists come back whatever the other fields are |
| `DepTrace.InfoParses` | gem5/util/encode_inst_dep_trace.py:149-177 | the other fields come back exactly for well-formed records |
| `DepTrace.KindOfIff` | gem5/util/encode_inst_dep_trace.py:155-160 | a type name is accepted exactly if it is that of a type |
| `DepTrace.LineLayout` | gem5/util/encode_inst_dep_trace.py:76-80 | the line of a record has the documented fields in the documented order, those of memory accesses for loads and stores only |
| `DepTrace.DepLayout` | gem5/util/decode_inst_dep_trace.py:190-201 | every dependency is written after a comma |
| `DepTrace.RecordRoundTripIff` | gem5/util/decode_inst_dep_trace.py:157-203 | a printed record parses to itself, unprinted fields aside, if and only if it is well-formed |
| `DepTrace.PrintAllLines` | gem5/util/decode_inst_dep_trace.py:157-203 | the file has one line per record |
| `DepTrace.TraceRoundTripIff` | gem5/util/decode_inst_dep_trace.py:157-203 | a printed trace parses to itself if and only if every record is well-formed |
| `DepTrace.PrintDeps` | gem5/util/decode_inst_dep_trace.py:190-201 | prints the dependency list with its separators |
| `DepTrace.PrintRecord` | gem5/util/decode_inst_dep_trace.py:157-203 | prints the line of a record |
| `DepTrace.PrintTrace` | gem5/util/decode_inst_dep_trace.py:157-203 | prints all lines |
| `DepTrace.ReadDeps` | gem5/util/encode_inst_dep_trace.py:179-192 | reads a dependency list, or fails on a bad item |
| `DepTrace.EncodeTrace` | gem5/util/encode_inst_dep_trace.py:147-195 | reads lines up to the first bad one |
| `ScriptedCheckpoints.Machine.Continue` | gem5/configs/common/Simulation.py:232-236 | resumes over guest checkpoints up to the target tick |
| `ScriptedCheckpoints.Machine.Run` | gem5/configs/common/Simulation.py:226-261 | the loop does what the specification of a run says |
| `ScriptedCheckpoints.PeriodsSafe` | gem5/configs/common/Simulation.py:245-259 | periodic checkpoints are at the scheduled ticks, within both limits, for every behaviour of the simulator |
| `ScriptedCheckpoints.ScriptRunSafe` | gem5/configs/common/Simulation.py:226-261 | the same for the whole run, whose first checkpoint ignores a maximum of zero |
| `ScriptedCheckpoints.ResumeReaches` | gem5/configs/common/Simulation.py:232-236 | the target is reached exactly when only guest checkpoints come before |
| `ScriptedCheckpoints.TakesAllIff` | gem5/configs/common/Simulation.py:245-259 | all wanted checkpoints are taken if and only if no other exit disturbs a period |
| `ScriptedCheckpoints.WantedIsMin` | gem5/configs/common/Simulation.py:243-254 | the number of checkpoints asked for is what fits below the maximum count and the last tick |
| `ScriptedCheckpoints.ScriptTakesAllIff` | gem5/configs/common/Simulation.py:226-261 | the same for the whole run |
| `ScriptedCheckpoints.GuestCheckpointEndsRun` | gem5/configs/common/Simulation.py:252-259 | one guest checkpoint within a period ends the run early |
| `ScriptedCheckpoints.LimitsOnlyEnd` | gem5/configs/common/Simulation.py:245-259 | without other exits the loop ends at the last checkpoint if it took the maximum number, and at the last tick otherwise |
| `ScriptedCheckpoints.ScriptLimitsOnlyEnd` | gem5/configs/common/Simulation.py:226-261 | the same for the whole run, with the number of checkpoints |
| `CpuSwitching.Switcher.SwapList` | gem5/configs/common/Simulation.py:418-421 | swaps every pair |
| `CpuSwitching.Switcher.RepeatSwitch` | gem5/configs/common/Simulation.py:407-425 | the loop does what the specification says, for every list of exits and every interval |
| `CpuSwitching.StopsInTime` | gem5/configs/common/Simulation.py:407-425 | against a simulator that never runs out of exits the loop stops, the remaining ticks decreasing from one interval to the next, and the number of exits it uses is bounded by them |
| `CpuSwitching.FinitePartSuffices` | gem5/configs/common/Simulation.py:407-425 | every endless run is the run over a long enough list of exits, so what holds for all lists holds for it |
| `CpuSwitching.SwitchesAreLegal` | gem5/configs/common/Simulation.py:407-425 | every switch of every run replaces active CPUs by inactive ones, and one of the two sets is active throughout |
| `CpuSwitching.IllegalIsNoticed` | gem5/configs/common/Simulation.py:407-425 | the account of legality misses no pair with an idle CPU to switch from or an active one to switch to |
| `CpuSwitching.IllegalStays` | gem5/configs/common/Simulation.py:407-425 | and keeps what it noticed to the end of the run |
| `CpuSwitching.EnoughTicksIsSafe` | gem5/configs/common/Simulation.py:407-425 | with one period left no run passes the last tick or asks for negative time |
| `CpuSwitching.TickLimitIff` | gem5/configs/common/Simulation.py:407-425 | that holds for all runs if and only if one period is left at the start |
| `SimPoints.PlanOne` | gem5/configs/common/Simulation.py:323-331 | start and warm-up add up to the interval's beginning, and warm-up is short only at the start of the program |
| `SimPoints.SortPointFacts` | gem5/configs/common/Simulation.py:336-337 | sorting by start permutes and sorts |
| `SimPoints.SortStable` | gem5/configs/common/Simulation.py:336-337 | points with one start keep their order |
| `SimPoints.PlanIsSound` | gem5/configs/common/Simulation.py:304-342 | the plan is ascending, complete and every point is placed right |
| `SimPoints.TakeCheckpoints` | gem5/configs/common/Simulation.py:349-386 | the loop does what the specification says, and fails without any point |
| `SimPoints.StopsAscend` | gem5/configs/common/Simulation.py:349-382 | the distinct starts are strictly ascending |
| `SimPoints.TakesEach` | gem5/configs/common/Simulation.py:349-382 | when the simulator stops at the distinct starts, each point gets its checkpoint at its start |
| `SimPoints.TakesPlan` | gem5/configs/common/Simulation.py:304-382 | the same for the plan of an analysis |
| `SimPoints.TakesAllIff` | gem5/configs/common/Simulation.py:349-382 | all checkpoints are taken if and only if there are as many stops as distinct starts |
| `CacheTree.NumTesters` | gem5/configs/example/memtest.py:105-116 | the loop computes the sum over levels |
| `CacheTree.TotalIsSubtree` | gem5/configs/example/memtest.py:105-116 | the sum over levels is the recursive count of the tree |
| `CacheTree.FanoutIsMultiplier` | gem5/configs/example/memtest.py:105-116 | the multiplier is the number of subsystems at a level |
| `CacheTree.System.NewSubsystem` | gem5/configs/example/memtest.py:221-234 | names are never used twice |
| `CacheTree.System.MakeCacheLevel` | gem5/configs/example/memtest.py:223-286 | a level adds exactly its subtree of testers and subsystems |
| `CacheTree.BuildTree` | gem5/configs/example/memtest.py:221-289 | the tree built has the number of testers computed in advance and one name per subsystem |
| `CacheTree.CheckSpec` | gem5/configs/example/memtest.py:140-166 | each refusal has its cause, and what is accepted has a tester entry more than caches, testers at the top, a cache at every level and at most 64 testers, which is enough to build the tree |
| `Aggregator.TagFacts` | gem5/util/checkpoint_aggregator.py:56-66 | the padded numbers have one width and tell the checkpoints apart |
| `Aggregator.RenameInjective` | gem5/util/checkpoint_aggregator.py:64-67 | replacing cpu by a numbered cpu loses no information |
| `Aggregator.RenamedSectionsDistinct` | gem5/util/checkpoint_aggregator.py:64-67 | renamed CPU sections never collide |
| `Aggregator.RenamedHasCpu` | gem5/util/checkpoint_aggregator.py:64-67 | a renamed section is still a CPU section |
| `Aggregator.HasCpuIff` | gem5/util/checkpoint_aggregator.py:65 | a CPU section is one with cpu anywhere in its name |
| `Aggregator.ImageStartIff` | gem5/util/checkpoint_aggregator.py:94-109 | memory lands where the page pointer says exactly when every earlier image has all its pages |
| `Aggregator.RelocationIsFaithful` | gem5/util/checkpoint_aggregator.py:69-109 | then every address, once shifted, reads the same byte |
| `Aggregator.RegionsDisjoint` | gem5/util/checkpoint_aggregator.py:94-109 | the regions of two checkpoints do not overlap |
| `Aggregator.RangeSizeIff` | gem5/util/checkpoint_aggregator.py:118-131 | the size written matches the file exactly when every image has all its pages |
| `Aggregator.MergedHeader` | gem5/util/checkpoint_aggregator.py:114-134 | the numbers written for the whole leave room for every checkpoint: the next process number is above all that were given, the page pointer is the end of the last region, the size is padded by less than a page too much and the tick is not before any |
| `Aggregator.AddressesFollowMemory` | gem5/util/checkpoint_aggregator.py:41-136 | every physical address of a CPU section points at its own byte in the merged memory |
| `Aggregator.CopiedSectionsDistinct` | gem5/util/checkpoint_aggregator.py:64-89 | the sections copied, those of CPUs from all checkpoints and the others from the last one, collide only where a checkpoint has a name twice |
| `Aggregator.MergedSectionsIff` | gem5/util/checkpoint_aggregator.py:58-89 | the merged checkpoint has exactly the CPU sections of all checkpoints and the other ones of the last as they are, but for system and Globals |
| `Aggregator.CopiedItems` | gem5/util/checkpoint_aggregator.py:69-77 | a CPU section is copied item by item, its physical addresses moved past the pages of the checkpoints before, and gets a process number exactly if it is a file descriptor map |
| `Aggregator.LatestTickIs` | gem5/util/checkpoint_aggregator.py:81-84 | the tick kept is that of a checkpoint or zero, and no checkpoint is later |
| `Aggregator.FdMapIff` | gem5/util/checkpoint_aggregator.py:76 | the sections that get a process number are those whose name ends in workload, a character and FdMap256 |
| `Aggregator.WithPidSets` | gem5/util/checkpoint_aggregator.py:76-77 | such a section then has the entry M5_pid with the number of its checkpoint, and at most one item more |
| `Aggregator.WithPidKeeps` | gem5/util/checkpoint_aggregator.py:76-77 | every other item stays where it is |
| `Aggregator.CopyPages` | gem5/util/checkpoint_aggregator.py:102-109 | copies the pages there are |
| `Aggregator.CopyItems` | gem5/util/checkpoint_aggregator.py:69-74 | shifts physical addresses and nothing else |
| `Aggregator.SetPid` | gem5/util/checkpoint_aggregator.py:76-77 | replaces the process number of a section or appends it |
| `Aggregator.Aggregate` | gem5/util/checkpoint_aggregator.py:41-136 | the loops build the merged checkpoint |
| `Aggregator.Pad` | gem5/util/checkpoint_aggregator.py:118-126 | pads with the digit zero, by whole pages and by no more than it takes to reach the memory size |
| `CopyrightDates.RunsFacts` | gem5/util/find_copyrights.py:186-197 | the runs are maximal and cover exactly the years |
| `CopyrightDates.RunRoundTrip` | gem5/util/find_copyrights.py:98-116 | a run reads back, or loses at least its last year |
| `CopyrightDates.ReadBackIff` | gem5/util/find_copyrights.py:98-116 | all runs read back exactly when each does |
| `CopyrightDates.DatesRoundTripIff` | gem5/util/find_copyrights.py:98-116 | writing and reading dates gives them back if and only if every longer run lies between 1000 and 9999 |
| `CopyrightDates.FourDigitYearsRoundTrip` | gem5/util/find_copyrights.py:175-199 | four-digit years always read back |
| `CopyrightDates.SortYears` | gem5/util/find_copyrights.py:176-177 | sorts the set |
| `CopyrightDates.MakeDateStr` | gem5/util/find_copyrights.py:175-199 | the loop over neighbours writes the text of the runs |
| `CopyrightDates.ReadDates` | gem5/util/find_copyrights.py:98-116 | reads single years and ranges |
| `LatencyRanges.PowerTestFires` | gem5/configs/dram/lat_mem_rd.py:136-153 | the bit test holds for every fourth size and no other |
| `LatencyRanges.NextSize` | gem5/configs/dram/lat_mem_rd.py:143-153 | each size follows from the last by a step of at most a quarter |
| `LatencyRanges.MakeRanges` | gem5/configs/dram/lat_mem_rd.py:140-153 | the sizes are four per octave up to the first that reaches the maximum, which it exceeds by less than a quarter |
| `LogRoll.Buffer.DumpShowsLast` | gem5/util/logroll.py:52-56 | a dump shows the last lines in order |
| `LogRoll.Buffer.Fill` | gem5/util/logroll.py:70-76 | filling keeps the invariant and says when the buffer is full |
| `LogRoll.Buffer.Overwrite` | gem5/util/logroll.py:78-79 | overwriting keeps the invariant |
| `LogRoll.Run` | gem5/util/logroll.py:62-81 | a dump at any moment shows exactly the last lines read |

## Left out

- The rest of the simulator: only the prefetcher's tables are modelled, not the caches, CPUs and memories around them.
- The prefetcher's timing tables, its queue of issued prefetches, basic block merging (eip.cc:231-266) and the second half of notifySquash.
- Writing the entries that leave the history to the entangled table (eip.hh:960-981): the model hands them out instead.
- Prefetches of the lines of a basic block after a destination, which repeat the same step at consecutive lines.
- 64-bit wrap-around of cycle counts and of the sums of time differences.
- EntangledEntry.AddDestination: destinations are those seen from the line given; two lines with one hash share an entry and see different ones, as in the code.
- UpgradeSchedules.FinishesIffOrderExists: asks that no pending tag depends on one about to be removed, because the equivalence is false otherwise (RemovalCanStrand); FinishesIffLevels covers all cases.
- UpgradeSchedules.AbortsIffCycle: asks for the same, for the same reason.
- CheckpointUpgrader.Upgraders.Load: asks that no two scripts have one tag, which the documentation demands (cpt_upgrader.py:60-61) and the code does not check.
- CheckpointUpgrader.Upgraders.LoadAll: asks for the same.
- CpuSwitching.StopsInTime: asks for a positive interval; with an interval of zero the source need not stop.
- PipeviewTimeline.PrintInst: a width or cycle time of zero, for which the source divides by zero, is not modelled, nor are colours, headers and the columns right of the timeline.
- PipeviewTrace.PrintsSortedTrace: is about traces in which every instruction reports the same stages, as gem5 writes them.
- Splitting trace lines into fields, and the printing of timestamps.
- Protobuf serialisation, gzip files and the magic number.
- DepTrace.RecordRoundTripIff: is up to the fields the decoder never prints (virtual address and address space).
- Underscores, other alphabets and floating point in the numerals Python's int() accepts.
- Parsing of configuration and checkpoint files; the model starts from sections and items.
- Two scripts with one legacy version number, as shipped for version 15, leave the later one in the table; their shared number is modelled, their effect on a checkpoint is not.
- What a script does to a checkpoint, beyond being some function on its version information; a script that raises an exception; tags that contain blanks.
- Instantiating simulation objects in read_config.py, and the semantics of assigning to a vector port, which is taken to append.
- Scripted checkpoints by instruction count, benchmark checkpoints and restoring.
- The prototypes, sizes and port connections of the memory tester's caches.
- Aggregator.Aggregate: starts from at least one checkpoint and a last one that has the section system.physmem.store0; without them the source fails.
- The rest of find_copyrights.py: file types, comment syntax and owners.
