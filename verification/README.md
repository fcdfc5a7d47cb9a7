# Verification models for OpenTitan utilities

Dafny models of the most intricate utilities of the repository, with proofs of what they are for.
`dafny verify dfyconfig.toml` checks the whole project.

* **SECDED codes** (`util/design/secded_gen.py`, `util/design/gen-flash-img.py`). The matrix generators
  are loops over columns; the printed SystemVerilog is modelled by its meaning on bit vectors. The
  main results: every matrix the generators can return, for every outcome of the shuffles, corrects
  single and detects double errors for all data and all error positions, has optimal fan-in, and
  the Python, C and SystemVerilog encoders agree (or differ exactly where stated).
  Files `Bits`, `Secded`, `Combinations`, `Hsiao`, `Hamming`, `FaninOptimality`, `Encoders`,
  `FlashImage`, `Guarantees`, `Inversion`.
* **The regression job scheduler** (`util/dvsim/Scheduler.py`). A class with the same fields, in files
  `Jobs` (items and collections), `SchedulerState` (atomic changes and the partition invariant),
  `Dependencies` (what holds along the dependency graph), `SchedulerSteps`, `Polling`, `PollSteps`,
  `DispatchSteps`, `DispatchPass` (a dispatch pass as a function of the state), `QueueFill` (which
  queues it fills), `PassResults`, `Overrun`, `RunSteps` and `Scheduler`. A launcher is an oracle: it
  answers that its job is running a finite number of times and then gives an outcome; some launchers
  fail to launch. An interrupt may be seen in any round. The main result is total correctness of `Run`.
* **Wildcard substitution** (`util/dvsim/utils.py`), files `Wildcards` and `Expansion`: rewriting in
  place refines recursive expansion.
* **Testplan accounting** (`util/dvsim/Testplan.py`), files `Counting`, `PlanNames` and `Testplan`: totals are
  conserved, with the exact condition.
* **Keccak round constants** (`util/design/keccak_rc.py`), file `Keccak`: the program computes the
  constants of section 3.2.5 of FIPS 202, and the register has period 255.

`Sequences`, `Arith` and `Wrappers` hold stock notions.

## Where code and documentation disagree

The models follow the code.

* `util/dvsim/utils.py:230-231` says that wildcard names may contain backslashes; the regular
  expression at line 129 does not match them.
* `util/dvsim/Scheduler.py:58-59` says that a target whose items are done is removed from the schedule;
  only configurations are ever removed, and the models rely on the targets staying.
* `util/dvsim/Testplan.py:204-208` says that tests that are not found count as 0/1; they count as 0/0.
* `util/design/secded_gen.py:266-271` hopes that inverted codes exclude all-one code words for balanced
  matrices and emits a check. It always holds for inverted Hamming codes
  (`Inversion.HammingAllOnesCheck`); for inverted Hsiao codes `Inversion.AllOnesCheckIff` gives the
  exact condition, and `Inversion.AllOnesCheckCanFail` a matrix with ideal fan-in, reached by some
  shuffle, for which the check fails.
* `util/design/secded_gen.py:369-394` is meant to compute what the printed encoders compute. For the
  shipped inv_hamming widths 32, 64 and 68 (m = 7, 8, 8) it differs from them in the last parity bit
  (`Encoders.HammingEncodersCompare`).
* `util/dvsim/Scheduler.py:407-446` computes the free slots from max_parallel, but a cancellation during
  the pass may fill the queue of the next target, whose weight is not in the total; then more jobs can
  run than max_parallel (`Overrun.TwoStarted`). `DispatchPass.DispatchOf` makes the pass a function of
  the state before it, and `QueueFill.SeenQueues` says which items each queue has gained when its turn
  comes. In these terms `Scheduling.Scheduler.Dispatch` states the number of running items and the
  exact condition for allocating more slots than are free. While the dependencies of all queued items
  let them run, max_parallel is kept.

## Model

| member | source | states |
|---|---|---|
| `Secded.CalcBitmasks` | util/design/secded_gen.py:130-140 | the summed powers of two are exactly the incidence masks of the matrix, with the parity bit's own position for decoding |
| `Secded.MaskBit` | util/design/secded_gen.py:130-140 | a mask has a one at a code bit if and only if that bit takes part in the parity check |
| `Secded.SyndromeMatches` | util/design/secded_gen.py:307-309 | comparing the syndrome with the printed constant is comparing it, bit by bit, with the data bit's column |
| `Secded.PlainSolves` | util/design/secded_gen.py:273-275 | after all assignments, each of which reads the word the earlier ones wrote, every parity bit satisfies its own equation in the final word |
| `Secded.SyndromeOfError` | util/design/secded_gen.py:302-304 | for every code type, the syndrome of an encoded word hit by an error pattern depends on the error alone (inversion cancels) |
| `Secded.SecdedTheorem` | util/design/secded_gen.py:797-811 | for every good matrix, all data and every error of at most two flips among all code bits: all seven emitted FPV checks, which cover both directions; no miscorrection of double errors; data is corrected after one flip |
| `HsiaoGen.MinParitysize` | util/design/secded_gen.py:93-99 | the result is the least number of parity bits whose odd columns of weight at least three are enough for k data bits; -1 only when ten are not enough |
| `Combinations.OddSubsets` | util/design/secded_gen.py:93-96 | there are 2^(m-1) subsets of odd size and m of them are singletons: what the parity size formula counts |
| `Combinations.CombosComplete` | util/design/secded_gen.py:531 | every ascending tuple of the given length is among the combinations |
| `Combinations.CombosDistinct` | util/design/secded_gen.py:531 | no combination is listed twice |
| `Combinations.CombosInOrder` | util/design/secded_gen.py:531 | the combinations are in lexicographic order |
| `Combinations.CombosFanin` | util/design/secded_gen.py:540-541 | every parity bit occurs in the same number of combinations |
| `Combinations.DoubleCounting` | util/design/secded_gen.py:119-127 | the fan-ins of all rows add up to the weights of all columns |
| `HsiaoGen.IdealFanin` | util/design/secded_gen.py:102-116 | the result is the least total weight of k distinct odd columns, divided by m and rounded up |
| `HsiaoGen.CalcFanin` | util/design/secded_gen.py:119-127 | entry e of the result is the number of columns that contain e |
| `HsiaoGen.Shuffle` | util/design/secded_gen.py:551 | any permutation may come out, and nothing else |
| `HsiaoGen.WithinIdeal` | util/design/secded_gen.py:556-563 | true exactly when no row of the two parts together exceeds the ideal fan-in |
| `HsiaoGen.ChooseSubset` | util/design/secded_gen.py:542-566 | for every sequence of shuffles: an accepted subset has the required size, distinct columns of the layer, and keeps every row within the ideal |
| `HsiaoGen.HsiaoCode` | util/design/secded_gen.py:496-576 | for every sequence of shuffles: whatever is returned consists of distinct odd columns of weight at least three, of least total weight, within the ideal fan-in, and of k of them or else of all there are; complete layers come first, by weight and in lexicographic order, and the rest is a part of the next |
| `FaninOptimality.IdealIsLowerBound` | util/design/secded_gen.py:102-116 | every matrix of k distinct odd columns of weight at least three, generated or not, has a row with at least the ideal fan-in |
| `FaninOptimality.GeneratedIsOptimal` | util/design/secded_gen.py:541-569 | the busiest row of a generated matrix has exactly the ideal fan-in, and no other Hsiao matrix does better |
| `FaninOptimality.RetryCanSucceed` | util/design/secded_gen.py:547-563 | whenever the generator reaches its random search, some permutation is accepted (by exchanging entries until rows are balanced) |
| `HammingGen.DataPositionIffNotPower` | util/design/secded_gen.py:596 | b & (b - 1) is zero exactly for powers of two |
| `HammingGen.HammingColumnCount` | util/design/secded_gen.py:588-605 | the construction yields exactly k data columns if and only if 2^(m-2) < k + m <= 2^(m-1) |
| `HammingGen.HammingIsGood` | util/design/secded_gen.py:588-605 | under that condition the columns are distinct, have weight at least three and all contain the last parity bit |
| `HammingGen.HammingColumns` | util/design/secded_gen.py:588-605 | column i spells the binary digits of the i-th number in 1, ..., k + m - 1 that is not a power of two, and ends in the last parity bit; the columns after those contain it alone |
| `Guarantees.HsiaoEndToEnd` | util/design/secded_gen.py:496-576 | with at least the least number of parity bits, every matrix the generator may return corrects single and detects double errors, plain or inverted |
| `Guarantees.LeastParityFitsHamming` | util/design/secded_gen.py:93-99 | the minimal parity size satisfies the condition of the Hamming construction |
| `Guarantees.HammingEndToEnd` | util/design/secded_gen.py:588-605 | whenever 2^(m-2) < k + m <= 2^(m-1), least parity size or not, the generated Hamming encoder and decoder correct single and detect double errors, plain or inverted |
| `Inversion.AllZerosCheck` | util/design/secded_gen.py:776 | all-zero data never encodes to all zeros for an inverted code with two or more parity bits |
| `Inversion.AllOnesCheckIff` | util/design/secded_gen.py:777 | all-one data encodes to all ones for an inverted Hsiao code if and only if the row fan-ins alternate odd, even, ... |
| `Inversion.AllOnesCheckCanFail` | util/design/secded_gen.py:777 | for k = 2, m = 4 a shuffle of the columns of weight three leads the generator to a matrix that encodes all ones to all ones: the emitted check does not hold of it |
| `Inversion.SampleReturned` | util/design/secded_gen.py:547-563 | that shuffle: it starts with the matrix, and the fan-in test accepts its first two columns |
| `Inversion.HammingAllOnesCheck` | util/design/secded_gen.py:777 | all-one data never encodes to all ones for an inverted Hamming code with three or more parity bits that fit the data |
| `Encoders.ParityBit` | util/design/secded_gen.py:386-389 | the loop over two reversed binary strings computes the parity of the selected digits |
| `Encoders.EccEncode` | util/design/secded_gen.py:369-394 | the string built by prepending parity digits is the word that solves the parity equations in order, with inversion applied as digits are made |
| `Encoders.HsiaoEncodersAgree` | util/design/secded_gen.py:369-394 | the Python encoder equals the printed one for both Hsiao types |
| `Encoders.HammingEncodersCompare` | util/design/secded_gen.py:369-394 | for Hamming types they agree on all bits but the last, which differs exactly for the inverted type with (m - 1) / 2 odd |
| `Encoders.CalcParity` | util/design/secded_gen.py:38-50 | the parity of the ones of the word, inverted on request |
| `Encoders.JoinBytes` | util/design/secded_gen.py:658-661 | the little-endian number of the bytes |
| `Encoders.CEncode` | util/design/secded_gen.py:664-672 | the loop over the masks computes the field of parity bits of the number given by the bytes |
| `Encoders.CFieldIsField` | util/design/secded_gen.py:664-672 | the C arithmetic on the little-endian number of a word gives the number of the eagerly computed parity bits |
| `Encoders.ThreeEncodersAgree` | util/design/secded_gen.py:369-394 | for both Hsiao types the Python string reads as the word of the printed encoder, and the C result is the number of that word's parity bits |
| `FlashImage.DropNibble` | util/design/gen-flash-img.py:25-26 | dropping the first hex digit keeps the low bits |
| `FlashImage.StoredWord` | util/design/gen-flash-img.py:29-36 | what is formatted as hex reads back as the encoded word |
| `FlashImage.AddIntgEcc` | util/design/gen-flash-img.py:19-26 | 17 lower-case hex digits whose value is the low 68 bits of the encoded word |
| `FlashImage.AddReliabilityEcc` | util/design/gen-flash-img.py:29-36 | 19 lower-case hex digits whose value is the (76,68) encoding |
| `FlashImage.FlashWord` | util/design/gen-flash-img.py:64-66 | for every 64-bit word: 19 hex digits that encode the word with its integrity bits; for every error of at most two flips, after one flip word and integrity bits are decoded as they were, and two flips are reported |
| `Keccak.StepIsFips` | util/design/keccak_rc.py:44-49 | the program's shift and conditional mask is the register step of section 3.2.5 of FIPS 202 |
| `Keccak.OutputBits` | util/design/keccak_rc.py:36-51 | entry t of the array is the output of the register after t steps, for t up to 255 |
| `Keccak.Period` | util/design/keccak_rc.py:42-51 | the register repeats after 255 steps |
| `Keccak.LeastPeriod` | util/design/keccak_rc.py:42-51 | and not earlier: no register on the way equals the first one |
| `Keccak.RcIsUnreduced` | util/design/keccak_rc.py:65 | the reduction of the index modulo 255 changes nothing |
| `Keccak.RoundConstant` | util/design/keccak_rc.py:60-65 | bit 2^j - 1 is the register's output after j + 7 * round steps, unreduced, and all other bits are zero |
| `Keccak.RoundConstants` | util/design/keccak_rc.py:58-66 | one constant per round, for every number of rounds |
| `Keccak.RndHexValue` | util/design/keccak_rc.py:69-70 | one hex digit for every four bits, and their value is the number with bit i at weight 2^i |
| `Jobs.SumDictLists` | util/dvsim/Scheduler.py:16-19 | the lengths of disjoint lists of distinct items add up to the number of items |
| `Polling.GetNextItem` | util/dvsim/Scheduler.py:22-45 | the next index, circularly; nothing exactly for an empty list |
| `Polling.RoundRobin` | util/dvsim/Scheduler.py:367-387 | as many polls as there are running items visit each exactly once, in circular order, whichever are removed on the way |
| `PollSteps.EachPolledOnce` | util/dvsim/Scheduler.py:367-387 | the same for the recorded poll history of each target that a call visits |
| `Polling.RoundIsNearest` | util/dvsim/Scheduler.py:442-443 | the rounded share is the whole number nearest to it, the even one if there are two, and no other number is |
| `Polling.RoundExceeds` | util/dvsim/Scheduler.py:442-443 | half-to-even rounding of s slots and a fraction exceeds s exactly above half, or at half for odd s |
| `SchedulerState.PartitionCovers` | util/dvsim/Scheduler.py:69-74 | between steps the six collections are pairwise disjoint and cover all items |
| `SchedulerState.EnqueueKeeps` | util/dvsim/Scheduler.py:245-250 | enqueueing keeps every item in exactly the collection its status letter names |
| `SchedulerState.CancelQueuedKeeps` | util/dvsim/Scheduler.py:533-536 | so does cancelling a queued item |
| `SchedulerState.CancelScheduledKeeps` | util/dvsim/Scheduler.py:533-538 | and cancelling a scheduled one |
| `SchedulerState.CancelPoppedKeeps` | util/dvsim/Scheduler.py:449-453 | and cancelling an item dispatch has popped, which is in no list |
| `SchedulerState.StartKeeps` | util/dvsim/Scheduler.py:465-467 | and starting a popped item |
| `SchedulerState.FinishKeeps` | util/dvsim/Scheduler.py:377-388 | and filing a finished item |
| `Dependencies.CompleteOne` | util/dvsim/Scheduler.py:303-319 | completing an item leaves only its own dependents possibly ready and not enqueued |
| `Dependencies.WorkFalls` | util/dvsim/Scheduler.py:236-260 | three per scheduled, two per queued and one per running item: never rises as statuses advance, and falls when any item moves on |
| `Dependencies.WorkIsCount` | util/dvsim/Scheduler.py:236-260 | that measure is the weighted count of the collections |
| `Dependencies.NothingLeft` | util/dvsim/Scheduler.py:489-502 | no deadlock: with nothing queued, running or orphaned every item is complete |
| `Dependencies.FinalOfReady` | util/dvsim/Scheduler.py:321-345 | the recursive evaluation over the dependency graph is decided by the same test as launching |
| `SchedulerSteps.SuccessorsMembers` | util/dvsim/Scheduler.py:262-301 | the successors found in one target and configuration are exactly all scheduled dependents of the item that are ready |
| `SchedulerSteps.SuccessorsInOrder` | util/dvsim/Scheduler.py:290-299 | they come in the order in which the jobs were given to the scheduler |
| `SchedulerSteps.SlotExists` | util/dvsim/Scheduler.py:290 | the dictionary lookup for successors is always defined |
| `SchedulerSteps.SuccessorsHaveDependencies` | util/dvsim/Scheduler.py:292-294 | the assertion on dependency lists holds |
| `SchedulerSteps.EnqueueStep` | util/dvsim/Scheduler.py:245-250 | enqueueing the ready dependents of a completed item leaves no item orphaned |
| `SchedulerSteps.CascadeStep` | util/dvsim/Scheduler.py:256-260 | one step of a cancellation cascade keeps all invariants and cancels a ready scheduled item |
| `SchedulerSteps.CascadeNext` | util/dvsim/Scheduler.py:256-260 | after it the worklist again holds exactly the items that nothing keeps waiting |
| `SchedulerSteps.AllOver` | util/dvsim/Scheduler.py:489-502 | with empty queues and running lists every item is complete and the schedule is empty |
| `RunSteps.AddItem` | util/dvsim/Scheduler.py:189-193 | an item is added to its target and configuration unless it is there |
| `RunSteps.AddToScheduled` | util/dvsim/Scheduler.py:183-193 | the schedule holds exactly the items, each of its lists is in the order of the items, and its keys are the targets |
| `Jobs.TargetsInOrder` | util/dvsim/Scheduler.py:189-193 | the targets come in the order in which the items first mention them |
| `RunSteps.FirstReady` | util/dvsim/Scheduler.py:275-277 | at the start exactly the items of the first target are ready |
| `RunSteps.FirstStep` | util/dvsim/Scheduler.py:236-250 | enqueueing them leaves no item orphaned |
| `RunSteps.DoneCount` | util/dvsim/Scheduler.py:495-502 | as many items of a target are filed as it has exactly when all of them are complete |
| `RunSteps.IdleIsDone` | util/dvsim/Scheduler.py:489-502 | when nothing is queued and nothing runs, every item is complete |
| `Scheduling.Scheduler.constructor` | util/dvsim/Scheduler.py:51-118 | for any list of jobs: everything is scheduled, all other collections have all targets and are empty, polling starts before the first target and item, totals are right, invariants hold |
| `Scheduling.Scheduler.RemoveFromScheduled` | util/dvsim/Scheduler.py:195-209 | the first occurrence goes, and the configuration with the last one |
| `Scheduling.Scheduler.GetNextTarget` | util/dvsim/Scheduler.py:211-234 | the following target, the first one at the start, none after the last |
| `Scheduling.Scheduler.OkToEnqueue` | util/dvsim/Scheduler.py:303-319 | true exactly when all scheduled dependencies are complete |
| `Scheduling.Scheduler.OkToRun` | util/dvsim/Scheduler.py:321-345 | true exactly when all scheduled dependencies passed, or one of them if that is enough |
| `Scheduling.Scheduler.GetSuccessors` | util/dvsim/Scheduler.py:262-301 | the ready dependents, in the order in which the jobs were given to the scheduler; the lookup and the assertion never fail |
| `Scheduling.Scheduler.GetFirst` | util/dvsim/Scheduler.py:275-301 | each item of the first target once; those of a configuration together and in the order of the items, in whatever order configurations are visited |
| `Scheduling.Scheduler.EnqueueSuccessors` | util/dvsim/Scheduler.py:236-250 | exactly the ready dependents join the end of their queue, in the order in which the jobs were given to the scheduler; both assertions hold; no orphan remains; nothing completes |
| `Scheduling.Scheduler.EnqueueFirst` | util/dvsim/Scheduler.py:152-153 | exactly the first target's items are enqueued, by configuration and in the order of the items, all other queues are empty, and all invariants are established |
| `Scheduling.Scheduler.CancelItemOnly` | util/dvsim/Scheduler.py:526-538 | the item is killed and leaves the queue, or else the schedule |
| `Scheduling.Scheduler.CancelSuccessors` | util/dvsim/Scheduler.py:252-260 | terminates; only scheduled items are cancelled, no queue changes, and no orphan remains |
| `Scheduling.Scheduler.CancelItem` | util/dvsim/Scheduler.py:526-541 | the same for a queued item with its successors |
| `Scheduling.Scheduler.KillItem` | util/dvsim/Scheduler.py:543-550 | the item leaves the running list, its successors are cancelled, nothing else changes |
| `Scheduling.Scheduler.CancelQueue` | util/dvsim/Scheduler.py:479-481 | one target's queue is emptied although it changes while a copy is traversed |
| `Scheduling.Scheduler.KillRunning` | util/dvsim/Scheduler.py:485-487 | one target's running list is emptied likewise |
| `Scheduling.Scheduler.Kill` | util/dvsim/Scheduler.py:474-487 | afterwards queued, running and scheduled are empty, every unfinished item is killed, and no earlier outcome has changed |
| `Scheduling.Scheduler.FileResult` | util/dvsim/Scheduler.py:373-400 | a finished item moves from the running list to the collection of its outcome, and its ready dependents join the end of their queue in the order of the items |
| `Scheduling.Scheduler.PollOne` | util/dvsim/Scheduler.py:367-400 | one launcher poll: circular index, in-place removal, the effect of the answer, no launcher polled after its job was over |
| `Scheduling.Scheduler.PollTarget` | util/dvsim/Scheduler.py:367-400 | the inner loop is a circular run over the target's list; other targets' lists do not change |
| `Scheduling.Scheduler.Poll` | util/dvsim/Scheduler.py:347-402 | terminates after exactly min(max_poll, running) launcher polls; sweeps the targets circularly from where the last call stopped, passing only those with nothing left running; the polls of every target visited are one circular run over its list; true exactly when nothing ran or some job was over; finished statuses stay |
| `Scheduling.Scheduler.PopNext` | util/dvsim/Scheduler.py:449-457 | the head of a queue is kept if its dependencies let it run, else cancelled and its ready dependents appended to their queue in the order of the items |
| `Scheduling.Scheduler.FillSlots` | util/dvsim/Scheduler.py:448-457 | the items kept are the first ones, as many as there are slots, whose dependencies let them run; the rest of the queue is left |
| `Scheduling.Scheduler.LaunchItem` | util/dvsim/Scheduler.py:465-472 | the item runs, or is killed with its successors cancelled if its launcher fails |
| `Scheduling.Scheduler.LaunchAll` | util/dvsim/Scheduler.py:465-472 | all items kept are started, in order, those that fail to launch excepted |
| `Scheduling.Scheduler.DispatchTarget` | util/dvsim/Scheduler.py:448-472 | the service of one target with a number of slots: which items are started, which are left, how far the work falls |
| `Scheduling.Scheduler.DispatchNext` | util/dvsim/Scheduler.py:425-472 | one round of the loop keeps what is stated of the targets served so far |
| `Scheduling.Scheduler.TotalWeight` | util/dvsim/Scheduler.py:415-416 | the weights at the heads of the queues that are not empty |
| `Scheduling.Scheduler.Dispatch` | util/dvsim/Scheduler.py:404-472 | the new state is a stated function of the old one: after every target the slots given away are the whole number nearest to the share of the weights so far, each target gets its own share give or take one slot, and is served accordingly; the number of running items afterwards; max_parallel is kept if the dependencies of all queued items let them run; more slots than free are allocated exactly when queues empty at the start are filled with weights that round up; with a free slot and a queued item some item moves on |
| `DispatchSteps.ChosenIsFirst` | util/dvsim/Scheduler.py:449-457 | a prefix of the queue is taken, exactly its items that may run are started, and slots stay unused only when the queue runs empty |
| `DispatchSteps.ChosenInOrder` | util/dvsim/Scheduler.py:448-457 | items are started in the order of the queue |
| `DispatchSteps.LastTaken` | util/dvsim/Scheduler.py:448-457 | no more is taken from a queue than needed: once the slots are used, the last item taken is one that is started |
| `DispatchSteps.LaunchingIs` | util/dvsim/Scheduler.py:465-472 | the items that launch join the running list in that order |
| `DispatchSteps.QueuedWeighs` | util/dvsim/Scheduler.py:415-416 | the total weight is zero exactly when nothing is queued, so the division is safe |
| `DispatchSteps.AllocationTotal` | util/dvsim/Scheduler.py:422-446 | the allocated slots add up to exactly the free slots if no empty queue was filled during the pass, and to more exactly when the late weights round up |
| `DispatchSteps.AllocatedIsFair` | util/dvsim/Scheduler.py:422-446 | slots are given by rounded running shares if and only if, after every target, their sum is the whole number nearest to the share of the weights seen; then each target gets its own share, give or take one slot at most |
| `DispatchPass.OverFair` | util/dvsim/Scheduler.py:422-446 | so it is after every target of every pass |
| `QueueFill.QueueFilled` | util/dvsim/Scheduler.py:449-454 | emptying a queue leaves all others as they were but the next target's: behind its old items it gets, each once, exactly the scheduled items whose dependencies are all complete or dropped |
| `QueueFill.SeenQueues` | util/dvsim/Scheduler.py:425-457 | for every state before a pass: the queue each target has at its turn is the old one, followed by what the drops from the preceding target's queue release |
| `QueueFill.SlotsGiven` | util/dvsim/Scheduler.py:439-446 | each target gets the rounded share of all weights up to its own (the nearest whole number, by Polling.RoundIsNearest), less what was given before |
| `QueueFill.OverRunning` | util/dvsim/Scheduler.py:465-472 | each target's running list grows by exactly the items chosen from the queue it had at its turn, those that fail to launch excepted |
| `QueueFill.OverAllPass` | util/dvsim/Scheduler.py:425-457 | if the dependencies of all queued items let them run, a pass finds every queue as it was at the start |
| `QueueFill.CascadeSteady` | util/dvsim/Scheduler.py:252-260 | a cancellation cascade keeps the partition and all dependency invariants and leaves no orphan |
| `PassResults.RunningSize` | util/dvsim/Scheduler.py:407-410 | the number of running items is the sum of the lengths of the targets' running lists |
| `PassResults.StartedAtMost` | util/dvsim/Scheduler.py:448-457 | no more items are started than slots are allocated |
| `Overrun.SceneExists` | util/dvsim/Scheduler.py:404-472 | five jobs with the dependencies of the next row exist |
| `Overrun.TwoStarted` | util/dvsim/Scheduler.py:404-472 | a state that keeps all invariants, in which nothing runs, and from which a pass with max_parallel 1 starts two jobs: one dropped from the first queue fills the second |
| `DispatchSteps.SuccessorQueues` | util/dvsim/Scheduler.py:451-454 | a cancellation during dispatch only extends the queue of the next target |
| `Scheduling.Scheduler.CheckIfDone` | util/dvsim/Scheduler.py:489-502 | true exactly when every item is complete |
| `Scheduling.Scheduler.KillIf` | util/dvsim/Scheduler.py:157-159 | an interrupt kills everything that is not over, and nothing changes without one |
| `Scheduling.Scheduler.PollAndDispatch` | util/dvsim/Scheduler.py:162-163 | as many jobs are polled as were running, up to the limit; then a pass is dispatched; either there is less to do or all is complete |
| `Scheduling.Scheduler.Round` | util/dvsim/Scheduler.py:156-166 | an interrupt kills what is left and ends the run, without any poll; otherwise jobs are polled, then dispatched; the run ends exactly when all items are complete and the timer, a finished job or an empty poll calls for the check; or else there is less to do |
| `Scheduling.Scheduler.Run` | util/dvsim/Scheduler.py:120-181 | every run ends, at the latest in the first round in which the interrupt is seen: all items finished, only items whose dependencies let them run were started, no launcher polled after its job was over; whatever the interrupts and launch failures, once a launcher has said how its job ended, that is the job's result, every P or F comes from such an answer, and all other results are K; without interrupt and launch failure the result is the recursive evaluation, whatever the order of polls and dispatches and max_parallel |
| `Wildcards.MatchFront` | util/dvsim/utils.py:129 | a match is a brace, name characters and a brace |
| `Wildcards.SearchIsLeftmost` | util/dvsim/utils.py:140 | the search finds the leftmost match |
| `Wildcards.NameChars` | util/dvsim/utils.py:129 | the characters of a name are the letters, the digits and the underscore |
| `Wildcards.StringifyIs` | util/dvsim/utils.py:98-116 | a string stays itself; a list becomes the strings of its elements, in order, with single spaces between them, if all have one; unsupported values have none |
| `Wildcards.StringifyNumber` | util/dvsim/utils.py:108-109 | a decimal reader gives back the number, 1 for true and 0 for false; there is no leading zero, and a sign for negative numbers only |
| `Wildcards.Lookup` | util/dvsim/utils.py:190-195 | the dictionary's value if it has one, else the environment's |
| `Wildcards.PiecesOfRender` | util/dvsim/utils.py:129 | reading a rendered sequence of pieces gives those pieces |
| `Wildcards.RenderOfPieces` | util/dvsim/utils.py:129 | rendering the pieces of a properly braced string gives the string |
| `Expansion.StringifyBraced` | util/dvsim/utils.py:98-116 | a value whose strings are properly braced becomes a properly braced string |
| `Expansion.SubstWildcards` | util/dvsim/utils.py:119-219 | the rewriting loop terminates and computes the piece-by-piece recursive expansion, with the same first error |
| `Expansion.Subst` | util/dvsim/utils.py:222-293 | the same for the entry point |
| `Expansion.ExpandedIsStable` | util/dvsim/utils.py:145-151 | an expansion leaves only wildcards that are ignored, or unknown when errors are ignored |
| `Expansion.BadPathFails` | util/dvsim/utils.py:153-204 | a path of references into a cycle, an unknown name or an unsupported value makes the substitution fail |
| `Expansion.FailureHasBadPath` | util/dvsim/utils.py:153-204 | and a failing substitution has such a path, whose end is what the error names |
| `Expansion.SucceedsIff` | util/dvsim/utils.py:119-219 | a substitution succeeds if and only if there is no such path |
| `Expansion.TameSettings` | util/dvsim/utils.py:119-219 | the condition of these theorems on the values reached from the text holds if all values are properly braced and eval_cmd is ignored |
| `Expansion.LeftIsReached` | util/dvsim/utils.py:145-151 | a wildcard left in a result, unless ignored, was reached from the text |
| `Expansion.SubstAgain` | util/dvsim/utils.py:119-219 | substituting in the result again changes nothing |
| `Testplans.Testpoint.MapListed` | util/dvsim/Testplan.py:220-224 | the matching results are added in order and marked |
| `Testplans.Testpoint.AddMissing` | util/dvsim/Testplan.py:226-231 | the listed tests that were not found are added, which PlanNames.MissingIs describes |
| `Testplans.Testpoint.MapTestResults` | util/dvsim/Testplan.py:201-231 | the results of a testpoint are its listing, which PlanNames.ListingNames and PlanNames.ListingIs describe, and exactly the results it maps are marked |
| `Testplans.Testplan.ProcessTestpoint` | util/dvsim/Testplan.py:557-586 | progress, totals and seen names are those of counting the testpoint's results in order |
| `Testplans.Testplan.CountResult` | util/dvsim/Testplan.py:566-586 | one result is counted unless its name was seen |
| `Testplans.Testplan.AddToTotals` | util/dvsim/Testplan.py:581-586 | the stage total and the grand total grow, once for results of no stage |
| `Testplans.Testplan.ProgressOne` | util/dvsim/Testplan.py:574-579 | how one result counts for the progress of a stage |
| `Testplans.Testplan.NotMappedResults` | util/dvsim/Testplan.py:617 | the results that no testpoint maps |
| `Testplans.Testplan.MapAll` | util/dvsim/Testplan.py:611-614 | all testpoints are mapped and counted in order |
| `Testplans.Testplan.CountAll` | util/dvsim/Testplan.py:588-618 | the totals and the progress are those of the whole count |
| `Testplans.RankIsByName` | util/dvsim/Testplan.py:465-467 | the stages are ranked by the order of their names |
| `Testplans.SortIsStable` | util/dvsim/Testplan.py:465-468 | sorting puts stages in order, keeps the order within each stage, and loses nothing |
| `Testplans.Testplan.AppendTotals` | util/dvsim/Testplan.py:620-628 | the stage totals are appended and sorted in by stage, then the unmapped results if any and the grand total are appended |
| `Testplans.Testplan.MapTestResults` | util/dvsim/Testplan.py:552-642 | every testpoint shows its listing; the final testpoints in their order, totals and progress, stages without tests removed |
| `Counting.FlowFirst` | util/dvsim/Testplan.py:565-573 | where the first entry of a result's name is, which decides how it counts |
| `Counting.CountedOnce` | util/dvsim/Testplan.py:557-618 | every stage total and the grand total is the sum over results, each counted once for the first testpoint that maps it, or as unmapped, but not if a testpoint without tests has its name first |
| `Counting.Conservation` | util/dvsim/Testplan.py:588-618 | the grand total is the sum over all results if and only if no result with runs is taken by such a testpoint |
| `Counting.NoneLost` | util/dvsim/Testplan.py:588-618 | in particular when no testpoint without tests is called like a result |
| `Counting.ResultLost` | util/dvsim/Testplan.py:211-213 | a concrete plan that loses five runs |
| `Counting.PlanProgressOrdered` | util/dvsim/Testplan.py:574-579 | in every stage passing <= written <= total |
| `PlanNames.MatchingIs` | util/dvsim/Testplan.py:220-224 | the results of the listed tests are shown in the order of the results |
| `PlanNames.MissingIs` | util/dvsim/Testplan.py:226-231 | each listed test without a result is added with no runs, in the order of the list |
| `PlanNames.UnmappedIs` | util/dvsim/Testplan.py:617 | the results that no testpoint maps, in their order |
| `PlanNames.ListingNames` | util/dvsim/Testplan.py:211-231 | a testpoint shows exactly the names of its tests, or its own if it has none: results, and tests without one as not run; one marked as not mapped shows nothing |
| `PlanNames.ListingIs` | util/dvsim/Testplan.py:220-231 | a testpoint with tests shows first the results of its tests in their order, then the tests without a result in theirs |
| `PlanNames.StageTotal` | util/dvsim/Testplan.py:557-586 | the total of a stage is the number of names whose first testpoint, of those that list the name or have no tests and are called so, is of the stage, whatever the results |
| `Counting.ProgressCounts` | util/dvsim/Testplan.py:574-579 | written and passing count the results of the stage that have run, and that passed every time |

## Left out

* Emitting SystemVerilog, C, FuseSoC and package text, splitting flash images into
  words, file writing, formatting and loading of
  configurations: the emitted expressions are modelled by their meaning.
- HsiaoGen.HsiaoCode: the random retry is given a number of tries and returns nothing when they are used up, because its termination depends on the random numbers; RetryCanSucceed shows that some shuffle is always accepted.
- HsiaoGen.IdealFanin: the floating-point ceiling is an exact integer ceiling.
* Hamming codes for m with 2^(m-2) >= k + m: the configuration check accepts them, but the construction
  then has more than k data columns (`HammingGen.HammingColumnCount`).
- Encoders.CEncode: integer widths of the generated C code; the model's numbers are unbounded, and the word and the field fit the chosen C types.
* Jobs are values, so two jobs with equal fields are one; the original compares objects by identity.
- Scheduling.Scheduler.Run: the shape of the job graph is a precondition (`Jobs.WellFormed`): items are distinct, depend on scheduled items of the same configuration in the preceding target only, every item of a later target has such a dependency and every item of an earlier target a dependent. Without the last condition the lookup at Scheduler.py:290 can fail.
- Scheduling.Scheduler.Dispatch: shares of slots are exact rationals, not floating-point numbers.
- Scheduling.Scheduler.KillIf: signals and timers are inputs, seen once per round. With interrupts or launch failures the contract of `Run` ties every P and F to the launcher's answer but does not say which jobs are killed, since that depends on which jobs were over at that time (a failed launch cancels dependents that are ready at that moment, even those for which one passing dependency is enough).
* Launchers, status printing, logging and waiting.
- Expansion.SubstWildcards: only texts in which every brace belongs to a wildcard, and only if so it is in the values that can be reached from the text; with pasted braces, as in util/dvsim/utils.py:279-285, rewriting can create wildcards and need not end. `{eval_cmd}`, which runs a shell command, must not be reached unless it is ignored. The environment is a dictionary.
* `find_and_substitute_wildcards`, which applies the substitution to every string of nested dictionaries.
- Testplans.Testplan.MapTestResults: percentages are left out; results carry no runtimes, and covergroups are not sorted. A plan is mapped once, to results that no other plan has mapped, as the simulation flow does (util/dvsim/SimCfg.py:630).
* Tables, publishing, parsing of testplans, report parsers, the other drivers, `sparse-fsm-encode.py`,
  `JobTime.py` and `MsgBuckets.py`.
