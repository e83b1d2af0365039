# Hexagon runtime: a model and its proofs

A Dafny model of the parts of the Hexagon plugin (host runtime, DSP runtime, compiler checks and test tools) whose
correctness cannot be seen from one function at a time, with proofs of what they are for. `dafny verify dfyconfig.toml`
checks everything.

## What is modelled

**Executing a command buffer on the DSP** (`Memory`, `Commands`, `ScheduleState`, `ScheduleSteps`, `Scheduler`). A master
walks dispatches, barriers, copies and fills; dispatches that need no matrix unit go to workers, up to a limit; buffers
are mapped on demand; completions are claimed under a lock. A worker advances one workgroup at a time, a copy or fill one
byte at a time. The class `CommandExecution` has the scheduler's fields and loops; between any two steps that matter to
each other the workers take any number of steps: `Interfere` and `Sleep` let them run before a command is begun, while
waiting, before a completion is claimed, before a buffer is acquired and around works of the master. With everything else
the master does a worker step commutes (`WorkerCommutes` and the lemmas behind it), so that nothing is lost by not letting
them run there. The idea that carries the proofs: completing whatever is pending always leads to the memory of an in-order
interpreter after the commands taken so far. A log of the executed works, each with its command, and a history of
beginnings, works and noticed failures say in which order things happened. `ExecCmds` states the result.

**The residency cache** (`ResidencySpec`, `Residency`, `ResidencyLaws`). The class `ResidencyCache` keeps the array with
swap-remove, reference counts, use counter and both byte counters. It is proved equal, call by call, to a list in recency
order, and everything else is proved about the list. The scheduler uses the cache through that list.

**Cache coherence** (`Coherence`, `Execution`). Each byte has a DDR value and possibly a cached, possibly dirty copy. The
hardware writes back, drops and fetches at will, evictions flush. Maintenance once per command buffer makes all this
invisible. `ExecuteBuffer` puts parsing, maintenance and scheduling together.

**The wire format** (`Wire`, `Recording`, `Parsing`, `Resolution`). Packed little-endian bytes, written by the host
through a cursor and read back by the DSP in two walks, one that collects buffer ranges (`Ranges` merges them in place)
and one that executes. `Cursor` is the executing walk as it moves through the bytes: mapping may stop in the middle of an
entry, and a retry starts over.

**Lifetime of shared memory** (`Lifetime`). Host reference counts, command buffers that retain what they serialize,
executions, the forget call and deregistration, with descriptor numbers that are reused. A release is several events, so
that other threads come in between.

**Smaller parts.** The alignment analysis of the compiler (`HmxAlignment`), the emission of nested profiler zones
(`ZoneEmission`), the sweeps over profile zones (`SweepLines`), and the kill sequence of the lifetime limiter
(`KillSequence`).

## What is taken as given

- Foreign calls are parameters. Mapping may fail at each attempt (an oracle), allocation and registration of shared
  memory may fail, a new GPU context may get any number, polling may find anything.
- A workgroup is an arbitrary function of the bytes it may read; it changes only bytes it may write. `KernelsBehave` says
  that these lie in the ranges of its bindings.
- Critical sections are atomic. Claiming a completed task and giving back what it holds is one step, with which worker
  steps commute (`ClaimCommutes`): a release never unmaps. Accesses of different threads to one byte are ordered; commands between
  barriers that do conflict are executed in some order.
- The VTCM pool hands out a partition for sure when nothing holds VTCM and never more than is free; in between it depends
  on fragmentation. No dispatch declares more than the pool has, where the code aborts.
- The operating system does not hand out a descriptor that is in use, and application code uses only references it has
  and keeps the command buffer and the bound buffers of an execution until it returns.
- The library sorts return a sorted permutation.

## Where the code does less than one would hope

Each of these has its exact condition and an input that shows it.

- A fill of "the rest" of a binding table entry runs over the length marker, not over the resolved length
  (`FillCommandStaysWithin`, `WholeBufferFillEscapes`).
- The z workgroup count is stored in 16 bits without a check (`CountArrives`, `NarrowedCountIsLost`).
- An allocation without an alignment attribute counts as declaring 0 and passes every check (`SoundIffDeclared`,
  `UndeclaredIsAccepted`).
- The budget can be set below what is mapped (`StepAndBudget`, `LoweredBudgetBreaksBound`).
- The padding of an allocation size near the end of the 64-bit range wraps around before it is checked
  (`PaddingSuffices`, `LargestSizeWraps`).
- Zones of a lane that start together are emitted with the shorter one outside (`TimesRiseIffLaminar`,
  `EqualStartsGoBack`).
- With zones of negative duration the sweep returns the most running zones only if they run at an instant no zone runs
  backwards over (`MaxConcurrency`, `BackwardZonesAreMissed`), and the pairs found overlap only if no zone is cut short
  (`Overlapping`, `CutShortIsListed`).

## Model

| member | source | states |
|---|---|---|
| Memory.ApplyCommutes | plugins/runtime/hexagon/dsp/command_buffer.c:1090-1091 | works with non-conflicting footprints (the promise made for commands between barriers) can run in either order: same memory, same success of both |
| Memory.FlushCommutes | plugins/runtime/hexagon/dsp/command_buffer.c:742-755 | a work that is independent of all pending queues can run before or after them: same memory, same success |
| Memory.FlushAbsorbsStep | plugins/runtime/hexagon/dsp/command_buffer.c:671-717 | executing the next pending work of any one queue, for pairwise independent queues, leaves the outcome of completing all queues unchanged; a failing work makes that outcome a failure |
| Memory.FlushAbsorbsSubmit | plugins/runtime/hexagon/dsp/command_buffer.c:905-911 | handing a new queue of works over while others are pending has the outcome of running it after completing the others |
| Commands.CopyMoves | plugins/runtime/hexagon/dsp/command_buffer.c:981-983 | between ranges that do not overlap, the first n bytes of the source arrive in the target and every other location keeps its value |
| Commands.FillRepeats | plugins/runtime/hexagon/dsp/command_buffer.c:1024-1034 | a fill leaves the pattern, repeated from its start, in exactly its range and every other location as it was; a zero pattern length repeats the first byte |
| Residency.ResidencyCache.constructor | plugins/runtime/hexagon/dsp/residency.c:101-110 | a new cache is empty with zero counters |
| Residency.ResidencyCache.Find | plugins/runtime/hexagon/dsp/residency.c:43-51 | the entry of the descriptor, or the end of the array exactly if there is none |
| Residency.ResidencyCache.UnmapEntry | plugins/runtime/hexagon/dsp/residency.c:63-78 | swap-remove of one array entry is removal of that one entry from the recency list; both byte counters follow |
| Residency.ResidencyCache.FindLru | plugins/runtime/hexagon/dsp/residency.c:83-92 | the scan for the smallest use counter finds the first unreferenced entry of the recency list |
| Residency.ResidencyCache.EvictOne | plugins/runtime/hexagon/dsp/residency.c:83-99 | unmaps the least recently acquired entry not in use, and says whether there was one |
| Residency.ResidencyCache.EvictForBudget | plugins/runtime/hexagon/dsp/residency.c:163-175 | evicts as the specification makes room: stops as soon as the size fits, or with nothing left to evict |
| Residency.ResidencyCache.MapEvicting | plugins/runtime/hexagon/dsp/residency.c:189-208 | retries mapping after one more eviction each time, until it succeeds or nothing is left to evict |
| Residency.ResidencyCache.Acquire | plugins/runtime/hexagon/dsp/residency.c:146-223 | status, address and whole new state are those of the list specification, for every answer of the operating system |
| Residency.ResidencyCache.Release | plugins/runtime/hexagon/dsp/residency.c:233-243 | drops one reference of a known descriptor, nothing otherwise; never unmaps |
| Residency.ResidencyCache.Forget | plugins/runtime/hexagon/dsp/residency.c:264-278 | refuses a descriptor in use and otherwise unmaps it if it is mapped |
| Residency.ResidencyCache.SetBudget | plugins/runtime/hexagon/dsp/residency.c:134-143 | rejects zero, otherwise sets the budget and leaves the mappings alone |
| Residency.ResidencyCache.Destroy | plugins/runtime/hexagon/dsp/residency.c:112-131 | unmaps everything not in use; what stays mapped is exactly what is in use, and it reports whether there is any |
| Residency.RepUnmap | plugins/runtime/hexagon/dsp/residency.c:63-78 | if array and counters represent a recency list, moving the last entry into the hole represents the list without that entry |
| Residency.RepTouch | plugins/runtime/hexagon/dsp/residency.c:149-158 | updating reference count and use counter in place represents moving the entry to the end of the recency list |
| Residency.RepRelease | plugins/runtime/hexagon/dsp/residency.c:235-240 | decrementing a reference count in place represents a release; the bytes in use drop exactly when the count reaches zero |
| ResidencyLaws.MakeRoomIsShortest | plugins/runtime/hexagon/dsp/residency.c:163-175 | making room unmaps the k oldest unreferenced entries, with k the smallest that makes it fit, or all of them when none does |
| ResidencyLaws.MapWithRetryRemovesOldest | plugins/runtime/hexagon/dsp/residency.c:189-208 | retries remove the oldest unreferenced entries one per failed attempt; the result is the answer to the last attempt |
| ResidencyLaws.MissOutcome | plugins/runtime/hexagon/dsp/residency.c:163-175 | if mapping succeeds, a miss succeeds exactly if the size fits next to the bytes in use, asks to wait exactly if it does not while something is in use, and fails for good exactly if it exceeds the budget with nothing in use |
| ResidencyLaws.MissEvicts | plugins/runtime/hexagon/dsp/residency.c:160-223 | a miss leaves the survivors of an oldest-unreferenced prefix in their order plus, on success, the new entry as most recent; that prefix is the shortest that makes room when the first mapping attempt succeeds |
| ResidencyLaws.AcquireConserves | plugins/runtime/hexagon/dsp/residency.c:146-223 | one acquire adds one reference to its descriptor exactly on success, changes no other count, keeps the address of everything in use and returns the address that is mapped |
| ResidencyLaws.ReleaseConserves | plugins/runtime/hexagon/dsp/residency.c:233-243 | one release takes one reference from its descriptor if it has any; no other count and no address changes |
| ResidencyLaws.ForgetConserves | plugins/runtime/hexagon/dsp/residency.c:264-278 | forget is refused exactly while the descriptor is in use; afterwards an accepted one is not mapped; nothing else changes |
| ResidencyLaws.RunKeepsWellFormed | plugins/runtime/hexagon/dsp/residency.c:28-41 | through any calls descriptors stay distinct, sizes positive and recency order and use counters in agreement |
| ResidencyLaws.HeldMappingNeverMoves | plugins/runtime/hexagon/dsp/residency.c:83-99 | a descriptor that keeps a reference through any sequence of calls stays mapped at the same address |
| ResidencyLaws.StepAndBudget | plugins/runtime/hexagon/dsp/residency.c:134-223 | a call keeps the mapped bytes within the budget if and only if it is not a change of the budget to less than what is mapped |
| ResidencyLaws.RunStaysWithinBudget | plugins/runtime/hexagon/dsp/residency.c:163-175 | with a fixed budget the mapped bytes never exceed it, over every run |
| ResidencyLaws.LoweredBudgetBreaksBound | plugins/runtime/hexagon/dsp/residency.c:134-143 | a concrete change of the budget after which the bound does not hold |
| ResidencyLaws.AcquireFirstConserves | plugins/runtime/hexagon/dsp/command_buffer.c:613-634 | acquiring in a row takes, for every descriptor, as many references as it occurs among the requests processed |
| ResidencyLaws.InUseIsDistinctSize | plugins/runtime/hexagon/dsp/command_buffer.c:613-634 | starting with nothing in use, the bytes in use after acquiring in a row are those of the distinct allocations, and nothing fails if these fit |
| ResidencyLaws.AcquiredIffFitting | plugins/runtime/hexagon/dsp/residency.c:163-175 | with nothing in use and the cache within its budget, a set of buffers is acquired if and only if its distinct allocations together fit the budget |
| ResidencyLaws.FittingNeverRefused | plugins/runtime/hexagon/dsp/command_buffer.c:837-852 | whatever is in use, a set of buffers that fits the budget is acquired or asked to wait, never refused for good |
| ScheduleState.WorkerStepKeepsInv | plugins/runtime/hexagon/dsp/command_buffer.c:742-755 | every step of every worker keeps the invariant (counters, references, issue order, history, refinement, log) and makes progress |
| ScheduleState.WorkerStepRefines | plugins/runtime/hexagon/dsp/command_buffer.c:671-717 | after a worker step, completing everything pending still leads to the in-order interpreter's memory, and success is still predicted exactly |
| ScheduleState.LogAppend | plugins/runtime/hexagon/dsp/command_buffer.c:671-717 | executing a work of a command that no barrier separates from the present keeps the log: memory is its replay, each work belongs to its command and has its buffers mapped, and no work of a command before a barrier comes after one of a command behind it |
| ScheduleState.WaitingMeansRunning | plugins/runtime/hexagon/dsp/command_buffer.c:763-770 | when the master blocks with nothing completed, some worker in flight has not completed and will signal: no lost wakeup |
| ScheduleState.CompletedMeansClaimable | plugins/runtime/hexagon/dsp/command_buffer.c:772-779 | if a completion is counted, the scan finds a task in flight that is done |
| ScheduleState.FreeSlotExists | plugins/runtime/hexagon/dsp/command_buffer.c:822-831 | below the concurrency limit some task slot is free |
| ScheduleState.TaskFootprintMapped | plugins/runtime/hexagon/dsp/command_buffer.c:728-739 | everything a task in flight may still touch belongs to allocations mapped now |
| ScheduleSteps.ClaimKeepsInv | plugins/runtime/hexagon/dsp/command_buffer.c:763-783 | claiming one completion keeps the invariant: counters, VTCM sum and references drop by exactly that task's, each completion being claimed once |
| ScheduleSteps.ClaimRefines | plugins/runtime/hexagon/dsp/command_buffer.c:728-783 | claiming a task, which records its failure, keeps the exact prediction of success and memory |
| ScheduleSteps.BeginKeepsInv | plugins/runtime/hexagon/dsp/command_buffer.c:1052-1126 | beginning the next command is possible only while no failure was noticed, and keeps the history in order |
| ScheduleSteps.SubmitKeepsInv | plugins/runtime/hexagon/dsp/command_buffer.c:905-912 | submitting to a worker keeps the invariant with one more dispatch in flight; its references move from the master to the task |
| ScheduleSteps.SubmitRefines | plugins/runtime/hexagon/dsp/command_buffer.c:905-912 | taking a dispatch as pending advances the in-order interpreter by one command |
| ScheduleSteps.StartInlineKeepsInv | plugins/runtime/hexagon/dsp/command_buffer.c:893-903 | a dispatch, copy or fill started on the master counts against the concurrency limit only if it is a dispatch, and advances the in-order interpreter |
| ScheduleSteps.MasterStepKeepsInv | plugins/runtime/hexagon/dsp/command_buffer.c:893-903 | each work the master executes itself keeps the invariant |
| ScheduleSteps.FinishInlineKeepsInv | plugins/runtime/hexagon/dsp/command_buffer.c:895-903 | finishing a dispatch on the master gives back its partition and references and records its failure |
| ScheduleSteps.PassBarrierKeepsInv | plugins/runtime/hexagon/dsp/command_buffer.c:925-933 | a barrier is passed with nothing in flight and keeps the invariant; with it no work of an earlier command is executed any more, as the log of `ExecCmds` says |
| ScheduleSteps.Quiescent | plugins/runtime/hexagon/dsp/command_buffer.c:1194-1203 | with nothing in flight, references are the starting ones, memory is the in-order interpreter's and the recorded status says exactly whether it succeeds |
| ScheduleSteps.WorkerCommutes | plugins/runtime/hexagon/dsp/command_buffer.c:742-755 | a worker step commutes with any change of the master's own fields, of the completion count and of another slot that leaves the mapped descriptors alone |
| ScheduleSteps.ReleaseCommutes | plugins/runtime/hexagon/dsp/residency.c:233-243 | a worker step commutes with giving back a reference: a release never unmaps |
| ScheduleSteps.VtcmCommutes | plugins/runtime/hexagon/dsp/command_buffer.c:870-893 | a worker step commutes with taking VTCM |
| ScheduleSteps.FillSlotCommutes | plugins/runtime/hexagon/dsp/command_buffer.c:820-836 | a worker step commutes with filling a free slot |
| ScheduleSteps.SubmitCommutes | plugins/runtime/hexagon/dsp/command_buffer.c:905-912 | a worker step commutes with handing another dispatch over |
| ScheduleSteps.StartInlineCommutes | plugins/runtime/hexagon/dsp/command_buffer.c:893-903 | a worker step commutes with starting a command on the master |
| ScheduleSteps.ClaimCommutes | plugins/runtime/hexagon/dsp/command_buffer.c:728-783 | a worker step of another slot commutes with claiming a completion and giving back what it holds, up to the order in which the history tells them |
| ScheduleSteps.FinishInlineCommutes | plugins/runtime/hexagon/dsp/command_buffer.c:895-903 | a worker step commutes with finishing a dispatch of the master, up to the order in the history |
| Scheduler.RoundedFitsPool | plugins/runtime/hexagon/dsp/command_buffer.c:857-868 | a declaration within the pool still fits after rounding to the granule |
| Scheduler.StartKeepsInv | plugins/runtime/hexagon/dsp/command_buffer.c:1155-1192 | the state an execution starts in satisfies the invariant, with the references it finds as the starting ones |
| Scheduler.CommandExecution.constructor | plugins/runtime/hexagon/dsp/command_buffer.c:1155-1192 | an execution starts with all slots free and its references at the starting counts |
| Scheduler.CommandExecution.RunWorker | plugins/runtime/hexagon/dsp/command_buffer.c:742-755 | one worker step on the task slots is the worker step of the state machine |
| Scheduler.CommandExecution.Interfere | plugins/runtime/hexagon/dsp/command_buffer.c:742-755 | any number of worker steps, in any order, keep the invariant and leave free slots alone |
| Scheduler.CommandExecution.Sleep | plugins/runtime/hexagon/dsp/command_buffer.c:768-770 | waiting on the condition variable ends, with a completion counted |
| Scheduler.CommandExecution.FindCompleted | plugins/runtime/hexagon/dsp/command_buffer.c:772-779 | the scan of the slots finds a completed task |
| Scheduler.CommandExecution.FinishDispatch | plugins/runtime/hexagon/dsp/command_buffer.c:728-739 | releases exactly what the task holds, returns its VTCM, frees its slot and notices a failure of its command |
| Scheduler.CommandExecution.WaitOne | plugins/runtime/hexagon/dsp/command_buffer.c:763-783 | finishes exactly one dispatch in flight and keeps the invariant |
| Scheduler.CommandExecution.Drain | plugins/runtime/hexagon/dsp/command_buffer.c:786-790 | ends with nothing in flight; a recorded failure stays |
| Scheduler.CommandExecution.MapBindings | plugins/runtime/hexagon/dsp/command_buffer.c:613-634 | maps the bindings in order, workers going on between any two, stops at the first that fails and holds exactly those before it |
| Scheduler.CommandExecution.PrepareDispatch | plugins/runtime/hexagon/dsp/command_buffer.c:517-660 | fills the free slot with a task holding one reference per binding, or holds nothing; under the residency assumptions it succeeds or asks to wait, and succeeds when nothing is in flight; the cursor is in `Cursor.EntryReader.Prepare` |
| Scheduler.CommandExecution.PartitionAvailable | plugins/runtime/hexagon/dsp/command_buffer.c:870-877 | the partition is available for sure if nothing holds VTCM and not if too little is free |
| Scheduler.CommandExecution.AwaitPartition | plugins/runtime/hexagon/dsp/command_buffer.c:870-893 | waiting for VTCM ends with room in the pool, whatever the fragmentation; it never waits with nothing in flight |
| Scheduler.CommandExecution.PrepareWaiting | plugins/runtime/hexagon/dsp/command_buffer.c:837-856 | the residency retry ends; a request to wait never leaves it, and a dispatch that fits the budget is prepared however many were in flight; the cursor is in `Cursor.EntryReader.PrepareRetrying` |
| Scheduler.CommandExecution.RunHere | plugins/runtime/hexagon/dsp/command_buffer.c:895-903 | runs the dispatch on the master and leaves the master holding nothing |
| Scheduler.CommandExecution.SubmitToWorker | plugins/runtime/hexagon/dsp/command_buffer.c:905-912 | hands the prepared dispatch over and leaves the master holding nothing |
| Scheduler.CommandExecution.ExecDispatch | plugins/runtime/hexagon/dsp/command_buffer.c:807-914 | one dispatch: taken or rejected, never with a request to wait; the master ends holding nothing on every path |
| Scheduler.CommandExecution.ExecBarrier | plugins/runtime/hexagon/dsp/command_buffer.c:925-933 | passes the barrier with nothing in flight |
| Scheduler.CommandExecution.MapAfterDrain | plugins/runtime/hexagon/dsp/command_buffer.c:953-977 | maps one transfer buffer, after draining if it did not fit; a buffer that fits the budget is never refused |
| Scheduler.CommandExecution.MapPair | plugins/runtime/hexagon/dsp/command_buffer.c:953-980 | both buffers of a copy are mapped or neither stays held |
| Scheduler.CommandExecution.ExecCopy | plugins/runtime/hexagon/dsp/command_buffer.c:946-989 | one copy on the master, workers running in between; gives back both references |
| Scheduler.CommandExecution.FillBytes | plugins/runtime/hexagon/dsp/command_buffer.c:1024-1034 | the byte loop with its wrapping pattern position stores exactly the works of the fill |
| Scheduler.CommandExecution.ExecFill | plugins/runtime/hexagon/dsp/command_buffer.c:1001-1038 | one fill on the master, workers running in between; gives back its reference |
| Scheduler.CommandExecution.WalkCmds | plugins/runtime/hexagon/dsp/command_buffer.c:1052-1126 | commands are begun in order, none after a failure was noticed; success means all were taken |
| Scheduler.CommandExecution.WalkAndDrain | plugins/runtime/hexagon/dsp/command_buffer.c:1194-1209 | nothing is in flight at the end on any path; no command was begun after a failure was noticed and none executed that was not begun; the works are in barrier order and the outcome is the in-order interpreter's |
| Scheduler.ExecCmds | plugins/runtime/hexagon/dsp/command_buffer.c:1146-1209 | for every command list, concurrency limit and interleaving: a request to wait never leaves, all references are given back, memory is what the logged works made of it with their buffers mapped; no work of a command before a barrier is executed after one of a command behind it; once a failure is noticed no command is begun, and only begun commands execute; if commands between barriers do not conflict, success means exactly the in-order result and a failed dispatch means in-order execution fails too; buffers that fit the budget are never refused |
| Coherence.StepKeepsInStep | plugins/runtime/hexagon/dsp/residency.c:63-78 | each executed work, hardware write-back, drop, fetch, mapping and unmapping keeps what the commands see equal to plain memory |
| Coherence.RunKeepsInStep | plugins/runtime/hexagon/dsp/command_buffer.c:1219-1227 | under any hardware activity and any evictions in between, commands see what they would see on plain memory |
| Coherence.InvalidatedIsInStep | plugins/runtime/hexagon/dsp/command_buffer.c:1246-1260 | invalidating all bound ranges first makes the commands see the host's last writes, however stale the clean lines were |
| Coherence.FlushedIsPublished | plugins/runtime/hexagon/dsp/command_buffer.c:1269-1281 | flushing all bound ranges last leaves DDR holding everything that was written and no dirty line |
| Coherence.MaintenanceIsTransparent | plugins/runtime/hexagon/dsp/command_buffer.c:1228-1284 | maintenance once per command buffer is enough: DDR afterwards is what the executed works make of DDR before on plain memory, also on error, and the entry condition holds again |
| Ranges.Union | plugins/runtime/hexagon/dsp/command_buffer.c:105-113 | the merged range covers exactly both ranges, and touches exactly what either touched |
| Ranges.AddDirectBuf | plugins/runtime/hexagon/dsp/command_buffer.c:89-121 | merging in place with swap-remove covers exactly the union of the bytes and leaves no two ranges of one descriptor overlapping or adjacent; at most one range more |
| Ranges.CollectDirectBufs | plugins/runtime/hexagon/dsp/command_buffer.c:272-293 | the stored ranges cover exactly all direct references and never exceed the count-only pass that sized the array |
| Wire.LeRoundTrip | plugins/runtime/hexagon/serialize/cmd_dispatch_serialize.c:83-96 | a number within the field width reads back from its little-endian bytes |
| Wire.RefRoundTrip | plugins/runtime/hexagon/serialize/cmd_copy_serialize.c:41-66 | a buffer reference written at any position reads back, negative descriptors included |
| Wire.DispatchRoundTrip | plugins/runtime/hexagon/dsp/command_buffer.c:517-610 | a serialized dispatch parses to the same dispatch and the position behind it |
| Wire.CommandRoundTrip | plugins/runtime/hexagon/dsp/command_buffer.c:1052-1126 | every serialized command parses to itself and the position behind it |
| Wire.EntriesRoundTrip | plugins/runtime/hexagon/serialize/command_buffer_serialize.c:56-63 | concatenated entries parse to the same commands in the same order |
| Wire.BufferRoundTrip | plugins/runtime/hexagon/serialize/command_buffer_serialize.c:44-66 | a whole serialized command buffer parses to the recorded commands, in order, ending where the data ends |
| Wire.TableRoundTrip | plugins/runtime/hexagon/serialize/bindings_serialize.c:30-58 | a serialized binding table reads back by index as the same entries |
| Recording.CountArrives | plugins/runtime/hexagon/serialize/cmd_dispatch_serialize.c:92-94 | the workgroup counts arrive as requested if and only if the z count is below 65536 |
| Recording.NarrowedCountIsLost | plugins/runtime/hexagon/serialize/cmd_dispatch_serialize.c:94-94 | a z count of 65536 is accepted and arrives as 0 |
| Recording.PrepSizeIsExact | plugins/runtime/hexagon/serialize/cmd_dispatch_serialize.c:35-46 | the size computed beforehand is the number of bytes of the encoded command, for every accepted command |
| Recording.SerializeDispatch | plugins/runtime/hexagon/serialize/cmd_dispatch_serialize.c:48-121 | refuses exactly what the checks refuse, in their order, and otherwise writes exactly the encoding; the cursor never meets the end |
| Recording.SerializeBindings | plugins/runtime/hexagon/serialize/cmd_dispatch_serialize.c:100-118 | the advancing cursor appends the encoded references and ends exactly at the end of the buffer |
| Recording.SerializeBarrier | plugins/runtime/hexagon/serialize/cmd_barrier_serialize.c:32-43 | writes exactly the encoding of a barrier |
| Recording.SerializeCopy | plugins/runtime/hexagon/serialize/cmd_copy_serialize.c:22-68 | writes exactly the encoding of a copy |
| Recording.SerializeFill | plugins/runtime/hexagon/serialize/cmd_fill_serialize.c:22-65 | refuses patterns of more than four bytes and otherwise writes the encoding with the pattern padded by zeros |
| Recording.Recorder.constructor | plugins/runtime/hexagon/command_buffer.c:85-124 | a new command buffer has recorded nothing |
| Recording.Recorder.Record | plugins/runtime/hexagon/command_buffer.c:586-676 | records the command at the end, or refuses it for the reason the checks give and records nothing |
| Recording.Recorder.Prep | plugins/runtime/hexagon/serialize/command_buffer_serialize.c:17-42 | size and count are those of the data that will be written |
| Recording.Concatenate | plugins/runtime/hexagon/serialize/command_buffer_serialize.c:44-66 | writes header and entries, filling the buffer exactly |
| Recording.Recorder.End | plugins/runtime/hexagon/command_buffer.c:200-255 | succeeds exactly if the data is not too big, there is memory and the DSP accepts it; then it has passed on the encoding of exactly the recorded commands, in order, and cleared them; every failure has its status and leaves the recorded list as it was |
| Recording.SerializeTable | plugins/runtime/hexagon/serialize/bindings_serialize.c:17-58 | writes exactly the encoding of the binding table, or refuses too many entries |
| Parsing.CollectDispatch | plugins/runtime/hexagon/dsp/command_buffer.c:145-158 | reading a dispatch piece by piece accepts and rejects as the entry parser, with the same end and references |
| Parsing.PrepareEntry | plugins/runtime/hexagon/dsp/command_buffer.c:523-610 | reading constants and references piece by piece after the check of the whole entry accepts and rejects as the entry parser; a rejected entry leaves the cursor where it was |
| Parsing.CollectWalk | plugins/runtime/hexagon/dsp/command_buffer.c:132-190 | the collecting walk has the status of the parser and collects all references of its commands |
| Parsing.ExecuteWalk | plugins/runtime/hexagon/dsp/command_buffer.c:1052-1126 | the executing walk sees the same commands at the same boundaries with the same status; `Cursor.EntryReader.WalkEntries` is the walk that executes as it reads |
| Parsing.CreateCommandBuffer | plugins/runtime/hexagon/dsp/command_buffer.c:240-304 | accepts exactly the data that parses; then the stored ranges are separate and cover exactly the direct references |
| Parsing.RecordedIsParsed | plugins/runtime/hexagon/serialize/command_buffer_serialize.c:17-66 | what the host recorded is what the DSP parses, to the last byte |
| Cursor.AskedByCommand | plugins/runtime/hexagon/dsp/command_buffer.c:395-415 | an attempt at preparing a serialized dispatch asks the residency cache for exactly what the resolved command asks for |
| Cursor.EntryReader.constructor | plugins/runtime/hexagon/dsp/command_buffer.c:1052-1060 | a reader starts at the given position |
| Cursor.EntryReader.MapRefs | plugins/runtime/hexagon/dsp/command_buffer.c:613-634 | reads and maps the references one by one; the cache goes through acquiring them in order, and the cursor stops behind the first that cannot be mapped |
| Cursor.EntryReader.Prepare | plugins/runtime/hexagon/dsp/command_buffer.c:517-660 | one attempt at a dispatch: an incomplete entry leaves cursor and cache alone, success ends where the parser ends with the parser's command, any other failure leaves the cursor inside the entry and gives back everything mapped |
| Cursor.EntryReader.PrepareRetrying | plugins/runtime/hexagon/dsp/command_buffer.c:835-856 | however often an attempt has to wait in the middle of an entry, every attempt begins where the entry begins and success ends at the parser's end with the parser's command; an entry that is incomplete is tried once |
| Cursor.EntryReader.WalkEntries | plugins/runtime/hexagon/dsp/command_buffer.c:1052-1126 | each entry is read from where parsing the entries before it ends, whatever was retried, and success means the commands and the end are the parser's |
| Resolution.ResolvesIffInside | plugins/runtime/hexagon/dsp/command_buffer.c:376-411 | an indirect reference resolves if and only if it names a table entry and lies inside it, and then means that part of the entry |
| Resolution.WorkgroupsCount | plugins/runtime/hexagon/dsp/command_buffer.c:678-716 | a dispatch has as many workgroups as its grid |
| Resolution.WorkgroupAt | plugins/runtime/hexagon/dsp/command_buffer.c:678-716 | each workgroup id of the grid runs at its place in the order z, y, x, x fastest |
| Resolution.FillStaysWithin | plugins/runtime/hexagon/dsp/command_buffer.c:1024-1034 | a fill stays within its buffer if and only if the length in the entry is not greater than the resolved one |
| Resolution.FillCommandStaysWithin | plugins/runtime/hexagon/dsp/command_buffer.c:1024-1034 | a fill stays within its buffer if and only if it is not an indirect reference to the rest of an entry shorter than the marker |
| Resolution.WholeBufferFillEscapes | plugins/runtime/hexagon/dsp/command_buffer.c:1027-1027 | a fill of the rest of an 8-byte entry stores behind that entry |
| Resolution.CommandStaysWithin | plugins/runtime/hexagon/dsp/command_buffer.c:807-1038 | every other resolved command, with kernels keeping their contract, touches only the ranges it names |
| Resolution.ResolvedIsBound | plugins/runtime/hexagon/dsp/command_buffer.c:360-411 | what a resolved reference covers is covered by its table entry or by the direct reference itself |
| Execution.LogStaysBound | plugins/runtime/hexagon/dsp/command_buffer.c:1228-1281 | everything an execution runs stays inside the ranges that are maintained |
| Execution.SerializedTableIsRead | plugins/runtime/hexagon/dsp/command_buffer.c:1228-1244 | the binding table the host serialized passes the size check and is the one executed with |
| Execution.ExecuteBuffer | plugins/runtime/hexagon/dsp/command_buffer.c:1228-1284 | end to end, for every interleaving of the executed works with hardware and residency events: an incomplete binding table is refused before anything happens; otherwise the cache is settled again, DDR holds what the works made of the host's data, works are in barrier order, and on success DDR is that of in-order execution on plain memory; references are given back and no request to wait is returned |
| Execution.SomeRunExists | plugins/runtime/hexagon/dsp/command_buffer.c:1228-1284 | every log belongs to some run of cache and residency events, so the guarantee for all runs is not empty |
| Lifetime.PaddingSuffices | plugins/runtime/hexagon/mem_alloc.c:98-112 | the padded size lets vector accesses at the end stay inside if and only if the padding does not wrap around 64 bits |
| Lifetime.LargestSizeWraps | plugins/runtime/hexagon/mem_alloc.c:98-112 | the largest size is padded to 128 bytes and passes the size check |
| Lifetime.MemAlloc.constructor | plugins/runtime/hexagon/mem_alloc.c:46-56 | a new allocation has one reference and has not been handed out |
| Lifetime.MemAlloc.Retain | plugins/runtime/hexagon/mem_alloc.c:154-156 | adds one reference |
| Lifetime.MemAlloc.GetFd | plugins/runtime/hexagon/mem_alloc.c:205-216 | hands out descriptor and padded size and remembers that the DSP may now use it |
| Lifetime.MemAlloc.Release | plugins/runtime/hexagon/mem_alloc.c:158-187 | allocation, session and residency cache afterwards are exactly those of the specification: only the last reference has an effect, the DSP forgets the descriptor if it was ever handed out, then it is deregistered, unless the DSP reports it in use |
| Lifetime.Create | plugins/runtime/hexagon/mem_alloc.c:38-152 | succeeds exactly if the padded size is allowed, there is memory and registering works; every failure leaves the session as it was |
| Lifetime.ForgetIsAccepted | plugins/runtime/hexagon/mem_alloc.c:164-181 | in every reachable state memory about to be forgotten is not in use on the DSP: the leaking branch is unreachable |
| Lifetime.ReleaseIsItsEvents | plugins/runtime/hexagon/mem_alloc.c:158-187 | in every reachable state a call of release is a possible sequence of the events dropping, forgetting, deregistering and freeing, and leaves session, cache and allocations as these do |
| Lifetime.StepKeepsInv | plugins/runtime/hexagon/mem_alloc.c:158-187 | every event of host, DSP and residency cache keeps the lifetime invariant |
| Lifetime.RecordsKeepsInv | plugins/runtime/hexagon/command_buffer.c:649-672 | recording a direct reference serializes the descriptor and retains the buffer, so that the serialized descriptor stays that buffer's |
| Lifetime.LifetimeIsSafe | plugins/runtime/hexagon/mem_alloc.c:158-187 | in every run: memory is deregistered only when the DSP does not map it, forget is never refused, nothing leaks, and every mapping shows the memory now registered under its descriptor |
| Lifetime.ReusedDescriptorIsNeverStale | plugins/runtime/hexagon/dsp/residency.c:146-158 | in every run an execution that acquires a descriptor gets the memory of the allocation it was serialized for, although descriptor numbers are reused |
| Lifetime.MappingsOutliveReferences | plugins/runtime/hexagon/mem_alloc.c:166-173 | some run has the DSP still map memory whose last reference is gone, so the forget call is needed |
| HmxAlignment.GcdDivides | plugins/compiler/hexagon/CodeGen/IR/HmxContracts.cpp:88-90 | the gcd divides both numbers, and the quotient is positive |
| HmxAlignment.KnownIsMultiple | plugins/compiler/hexagon/CodeGen/IR/HmxContracts.cpp:45-55 | a divisibility fact, signed or unsigned, makes the number a multiple of anything that divides both the fact and the word size |
| HmxAlignment.DynamicPreserves | plugins/compiler/hexagon/CodeGen/IR/HmxContracts.cpp:83-95 | a dynamic offset that is a multiple of alignment / gcd(stride, alignment) moves the address by a multiple of the alignment |
| HmxAlignment.OffsetModuloSound | plugins/compiler/hexagon/CodeGen/IR/HmxContracts.cpp:57-103 | the accumulated remainder is that of the byte offset in every run, with negative offsets and strides and truncated remainders |
| HmxAlignment.SubViewByteOffsetModulo | plugins/compiler/hexagon/CodeGen/IR/HmxContracts.cpp:57-103 | the loop computes the specified remainder, and gives up exactly where the specification does |
| HmxAlignment.AllocationBase | plugins/compiler/hexagon/CodeGen/IR/HmxContracts.cpp:267-272 | the loop ends at the buffer that is no view |
| HmxAlignment.ProvidesByBase | plugins/compiler/hexagon/CodeGen/IR/HmxContracts.cpp:303-321 | a yes is always backed by a declaration of the allocation base that the required alignment divides |
| HmxAlignment.ViewsKeepRemainder | plugins/compiler/hexagon/CodeGen/IR/HmxContracts.cpp:303-321 | along a chain of views with a yes, the address keeps the remainder of the base address |
| HmxAlignment.AlignmentIsSound | plugins/compiler/hexagon/CodeGen/IR/HmxContracts.cpp:303-321 | a yes over a base with a nonzero declaration means the first element is aligned in every run |
| HmxAlignment.SoundIffDeclared | plugins/compiler/hexagon/CodeGen/IR/HmxContracts.cpp:303-321 | a yes guarantees alignment in all runs if and only if the base does not declare 0 |
| HmxAlignment.UndeclaredIsAccepted | plugins/compiler/hexagon/CodeGen/IR/HmxContracts.cpp:279-306 | an allocation without the attribute passes the check at an odd address |
| ZoneEmission.Lanes.constructor | plugins/runtime/hexagon/profiler.c:120-141 | no thread has a lane yet |
| ZoneEmission.Lanes.Ask | plugins/runtime/hexagon/profiler.c:117-144 | gives a thread the lane it has, or a new one while there are fewer than 16, or none |
| ZoneEmission.LanesAreStable | plugins/runtime/hexagon/profiler.c:117-144 | a thread keeps its lane through all later requests, and threads appear once |
| ZoneEmission.CollectViews | plugins/runtime/hexagon/profiler.c:146-193 | views are completed records of positive duration, in order, each at most once, and no more than the query numbers allow |
| ZoneEmission.Export | plugins/runtime/hexagon/profiler.c:205-231 | what is emitted is the trace of the collected views, sorted |
| ZoneEmission.Emit | plugins/runtime/hexagon/profiler.c:233-283 | the loop with its explicit stack emits the specified trace |
| ZoneEmission.TraceIsWellBracketed | plugins/runtime/hexagon/profiler.c:222-283 | every zone begins once and ends once, ends close the innermost open zone, and none is open at the end |
| ZoneEmission.QueriesAreDistinct | plugins/runtime/hexagon/profiler.c:209-212 | no two events of a trace share a 16-bit query number |
| ZoneEmission.LaneIsClosedFirst | plugins/runtime/hexagon/profiler.c:240-251 | when an event of a later lane is emitted, every zone of an earlier lane has ended |
| ZoneEmission.TimesRiseIffLaminar | plugins/runtime/hexagon/profiler.c:66-85 | time stamps do not go back within a lane if and only if, in the sorted order, of any two zones of a lane the later starts after the earlier ends or ends no later |
| ZoneEmission.NestedIsLaminar | plugins/runtime/hexagon/profiler.c:222-283 | zones that per lane are nested or disjoint and start at different times have time stamps that do not go back |
| ZoneEmission.EqualStartsGoBack | plugins/runtime/hexagon/profiler.c:66-85 | two nested zones of a lane with the same start are emitted in the wrong order |
| SweepLines.NetFallsShort | integration_tests/stages/profile_checks.py:114-119 | starts minus ends up to an instant are the zones running then, less exactly the zones that end before they start around it |
| SweepLines.PrefixIsReached | integration_tests/stages/profile_checks.py:111-123 | no intermediate count of the sweep exceeds the count at some instant, ends coming first at equal times |
| SweepLines.CountedPeakIsPeak | integration_tests/stages/profile_checks.py:111-123 | the largest count is the most zones running at once if and only if such an instant is undisturbed |
| SweepLines.MaxConcurrency | integration_tests/stages/profile_checks.py:111-123 | for any zones the sweep returns the largest count at an instant; it is the largest number of zones running at one instant if and only if some instant with as many zones has none running backwards over it, which is always so without negative durations |
| SweepLines.BackwardZonesAreMissed | integration_tests/stages/profile_checks.py:111-123 | for two zones, one of negative duration, the sweep can only return 0 although a zone runs, so what it returns is not the peak |
| SweepLines.OverlapsIfStillRunning | integration_tests/stages/profile_checks.py:67-69 | in start order two zones overlap if and only if the earlier still runs when the later starts and the later does not end before the earlier starts; the second part only matters for negative durations |
| SweepLines.Overlapping | integration_tests/stages/profile_checks.py:148-171 | the result has every pair of zones, one of each list, of which the earlier still runs when the later starts, exactly once and with the zone of the first list first, and nothing else; every overlapping pair is among them, and all of them overlap if and only if no zone is cut short, which is always so without negative durations |
| SweepLines.CutShortIsListed | integration_tests/stages/profile_checks.py:148-171 | a zone that ends before the one it is listed with begins is reported as overlapping |
| KillSequence.WaitAndMonitor | integration_tests/device/tools/src/limit_lifetime.c:80-113 | the exit code is that of the first poll that ends the waiting, a changed parent being looked at first |
| KillSequence.RunKeepsTogether | integration_tests/device/tools/src/limit_lifetime.c:128-143 | while nobody leaves, every process but a payload not yet leading is in the group of the payload, and a payload that was killed stays dead |
| KillSequence.SurvivorsAreOutside | integration_tests/device/tools/src/limit_lifetime.c:148-163 | a process runs when the middle process returns if and only if it ran outside the group when the group was killed last |
| KillSequence.NobodyRunsIffNobodyOutside | integration_tests/device/tools/src/limit_lifetime.c:148-163 | the kills leave nobody running if and only if nobody ran outside the group when it was killed last |
| KillSequence.NobodySurvives | integration_tests/device/tools/src/limit_lifetime.c:117-163 | for every interleaving of the payload's own steps with the one or three kills, nobody runs when the middle process returns, if nobody left the group |
| KillSequence.NobodyComesBack | integration_tests/device/tools/src/limit_lifetime.c:148-163 | once nobody runs, nobody runs ever after |
| KillSequence.System.KillAll | integration_tests/device/tools/src/limit_lifetime.c:148-157 | the kills as the code makes them leave nobody running |
| KillSequence.TwoKillsAreNotEnough | integration_tests/device/tools/src/limit_lifetime.c:152-156 | after the first two kills a child forked in between can still run |
| KillSequence.LeavingEscapes | integration_tests/device/tools/src/limit_lifetime.c:158-160 | a descendant that leaves the group survives |

## Left out

- Residency.ResidencyCache.Acquire: sizes and counters are unbounded; the 64-bit sum of mapped bytes and requested size, and overflow of the use counter after centuries, are not modelled; growing the array always succeeds
- Ranges.AddDirectBuf: the end of a range, offset plus length, is computed without the 64-bit wrap-around
- Parsing.CollectWalk: returns the references it finds, which are then counted and merged, where the code runs the same walk once to count and once to merge
- Parsing.ExecuteWalk: yields the commands as a list that `ExecuteBuffer` executes afterwards, where the code executes each entry as it reads it; `Cursor.EntryReader.WalkEntries` is that walk, with the execution of an entry once it has been read as a parameter; data is only executed after the collecting walk accepted it, so the executing walk never fails half-way for lack of data
- Parsing.PrepareEntry: the size of an entry is computed without bounds; in the 32-bit size type of the DSP it could wrap around only for numbers of references that no data accepted by the collecting walk has
- Recording.Recorder.Record: the size field of a pattern and the number of entries have their real widths, the 64-bit overflow of the total size is not modelled; recorded buffers are retained in Lifetime, not here
- Recording.Recorder.End: the DSP-side creation is an answer, made for the encoded data; the handle it returns is not part of this model
- Commands.CopyMoves: says nothing about overlapping ranges, for which the C function makes no promise; copies move bytes one at a time in ascending order
- Execution.ExecuteBuffer: at entry the mappings of `machine` and the entries of `cache` are not related, the guarantee holds for any settled machine; the size of the binding table is computed without the 32-bit wrap-around of the DSP; a failing cache operation, whose only documented cause is an invalid argument, is not modelled
- Coherence.MaintenanceIsTransparent: bytes are cached one by one; several bytes sharing a cache line, and vector accesses that read beyond a buffer, are not modelled
- Lifetime.MemAlloc.Release: reference counts are unbounded, and counting is atomic; a failing forget call, after which the session is gone and with it all mappings, is not modelled
- KillSequence.NobodySurvives: process numbers are not reused while the middle process runs, and a process that got the signal takes no further step
- ZoneEmission.CollectViews: rebasing of time stamps, which uses floating point, happens before; the capacity of the record buffer is not part of this model
- HmxAlignment.OffsetModuloSound: strides in bytes do not overflow 64 bits
- Heap allocation failures of the DSP and host runtimes (they return before anything is taken)
- A second session or other holder of buffers in the same residency cache, for the claim that fitting buffers are never refused
- The VTCM pool, the worker thread pool, the matrix unit lock, profiling records and performance counters
- FastRPC, shared memory allocation, mapping, loading of executables and the kernels themselves
- Shape contracts of the matrix unit operations (direct comparisons of static sizes)
- MLIR and LLVM lowering, pass pipelines and the library builder (their meaning rests on MLIR and LLVM)
- HAL entry points, driver and device creation, semaphores, options, error tables
- The integration test plumbing (deploying, importing, compiling, running, comparing) and the outer process of the lifetime limiter
