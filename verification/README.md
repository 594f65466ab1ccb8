# Profilo, modelled and verified

Profilo is a tracing and sampling-profiler library. This project models its two hard centres,
signal-safe concurrency and the binary trace pipeline, together with the PLT-hook machinery, the
symbol index and the dex codecs it relies on, and proves what they promise for every input and
every run.

## How the model is built

**Concurrency.** `Phaser`, `SignalHandler`, `Sigmux`, `Slots` and `CallChain` are state machines.
`HandlerLifetime`, `HandlerRuns` and `HandlerDisable` are about runs of `SignalHandler`, and
`SigmuxVisits` about runs of `Sigmux`. `HandlerEffects`, `SigmuxEffects` and `SlotEffects` say what a
call brings about, read off the actions of a run: which step of which caller put a value where a
later step finds it.
A state is a value; every atomic load, store and read-modify-write, every phaser operation, every
write that rewires the sigmux list and every jump is one `Action` with an `Enabled` condition and an
`Apply` function; runs of plain accesses that only their owner makes (a handler filling its slot,
the logger copying a published one) are one action together. A run is any sequence of enabled
actions, so every interleaving is covered, under sequential consistency. Theorems are about every
state of every run. `GracePeriod` is the contract of a phaser; `Phaser` proves that the futex
counters refine it, and `SignalHandler` and `Sigmux` are built on the contract.

**The trace pipeline.** `Entries` (pack, parse), `Packets` (split), `Reassembly`, `Division` (the
reciprocal), `Visitors` (invert, truncate, delta, print, and the importer), `Lifecycle` (visitor and
`processTrace`) model one stage each: classes and loops proved against functions on values, and
theorems about those functions. `EndToEnd` composes them: concurrent loggers at one end, the
importer's rows at the other.

**PLT hooks.** `Hooks` is the registry, `PltHooks` the GOT slots under it, `CallChain` the calls
through trampolines while other threads hook and unhook.

**Fast forms.** `GnuHash` (with the bit tricks of `Bits`), `Leb128`, `EncodedValue`, `Mutf8`.

Assumptions, all taken from the source's own contracts: drains of one phaser are serialised
(deps/sigmux/phaser.h:236), which `Initialize` and `Disable` themselves do nothing to ensure
(`HandlerRuns.GlobalDrainsOverlap`, `HandlerRuns.LocalDrainsOverlap`); fewer than 2^31 sections are inside a counter at once; faults happen
only inside a collect call; stream ids have not wrapped; stores to GOT slots succeed. Clocks,
threads, signal delivery, the kernel's futex and what the ring buffer hands to a reader are inputs.

Where the code and its documentation disagree, the model follows the code:

* `SignalHandler::Disable` is documented to return only after all concurrent handlers have exited.
  An activation that has tested `enabled_` but not yet entered the local phaser is not waited for.
  `HandlerDisable.DisableFails` is such a run; `HandlerDisable.DisableIsExact` is the condition.
* `Initialize` says that after both drains it is safe to delete the replaced instance. These accesses
  are outside both phasers and can reach it afterwards: CallPreviousHandler through a scope that is
  not, or no longer, in the local phaser; the copy of `old_sigaction_` by a concurrent Initialize; the
  store of the old action by an Initialize whose instance is replaced before it calls sigaction; and
  Enable, SetData and Disable, whose drain may begin after the instance it was called on is gone.
  `HandlerRuns` has a run for each, `HandlerLifetime.TouchesDeadIff` says that there are no others, and
  `HandlerLifetime.OneAtATimeIsSafe` and `RegisteredIsLive` say what keeps callers clear of them.
* `to_string` throws for type codes above 118, after the printer has begun the line
  (`Lifecycle.UnknownTypeThrows`), and the importer goes by type names, not by the kind of entry
  (`Visitors.ImporterUndoesPipeline`).
* `div_1000` is division only while the error of the reciprocal does not carry
  (`Division.DivisionIsExact`, with `Division.DivisionFails` showing the first failure).
* `unsignedLeb128Size` never returns for a negative int (`Leb128.UnsignedSizeEndsIff`).
* Packing keeps one byte of the type code, so the round trip holds exactly for codes below 256
  (`Entries.ParseUndoesPack`).
* The importer sees a bytes entry up to its first zero byte only (`Visitors.UntilNulLongest`).
* `getSlotIndex` is to find a free slot if there is one. Its counter is 32 bits wide and 2^32 is not a
  multiple of 24, so the handlers that take one of its last 23 values probe some slots twice and others
  not at all (`SlotEffects.ProbesReachAllIff`).
* Hooking a slot with its own original function cannot be undone (`PltHooks.UnhookUndoesHook`).

## Model

| member | source | states |
|---|---|---|
| Phaser.RunInv | deps/sigmux/phaser.c:133-250 | every reachable state keeps the protocol invariant: each counter is its sections plus DRAINING, drained phases hold nobody from before the drain, a sleeping drainer has somebody to wake it |
| Phaser.AtMostOneDraining | deps/sigmux/phaser.c:211-250 | at most one counter has DRAINING set, and it is the one the drainer works on |
| Phaser.NoLostWakeup | deps/sigmux/phaser.c:176-225 | a sleeping drainer always has a section still inside, or one about to issue FUTEX_WAKE |
| Phaser.RefusalsBounded | deps/sigmux/phaser.c:133-174 | an enterer is turned away at most twice per drain that overlaps it |
| Phaser.StepRefines | deps/sigmux/phaser.c:133-250 | each atomic step is a step of the grace-period contract or invisible to it |
| Phaser.RunRefines | deps/sigmux/phaser.c:133-250 | every run of the counters is a run of the grace-period contract |
| Phaser.GracePeriodHolds | deps/sigmux/phaser.c:243-250 | when a drain returns, every section whose increment preceded it has decremented during it and is never inside again |
| Phaser.LoadShrinks | deps/sigmux/phaser.c:136-160 | while a counter drains, nobody new reaches it; the check-then-increment race only uses up enterers already past the test |
| Phaser.DrainWorkBounded | deps/sigmux/phaser.c:136-160 | over any stretch of a drain the sections take a bounded number of steps on the counter |
| Phaser.IdleDrainerIsAwake | deps/sigmux/phaser.c:217-240 | once the sections are done with a marked counter, the drainer is awake and the counter reads COUNT_DRAINED |
| Phaser.IdleCounterClears | deps/sigmux/phaser.c:217-240 | from then on no step of the drainer puts it to sleep and each brings it closer to clearing the bit, within three |
| Phaser.DrainIsFinite | deps/sigmux/phaser.c:211-250 | however long a counter stays marked, the drainer takes at most 2 (section steps + interrupts) + 3 steps, the section steps being bounded by the load when it was marked |
| Phaser.NeverStuck | deps/sigmux/phaser.c:211-250 | a drain in progress always has an enabled step, of the drainer or of a section it waits for |
| Phaser.RaceHappens | deps/sigmux/phaser.c:145-159 | the check-then-increment race is reachable: a section enters a marked counter and the drain rightly returns without it |
| Phaser.FutexComparesCounts | deps/sigmux/phaser.c:217-225 | comparing the low 32 bits, as futex does, is comparing counts |
| SignalHandler.RunInv | cpp/profiler/SignalHandler.cpp:35-158 | every interleaving of activations, Initialize, Enable and Disable keeps the ownership and phaser invariant: who may refer to which instance at each point of a replacement |
| SignalHandler.LookupNeverAborts | cpp/profiler/SignalHandler.cpp:151-158 | a delivered signal always finds an instance in the table |
| SignalHandler.DeletedIsUnused | cpp/profiler/SignalHandler.cpp:81-118 | when Initialize deletes the replaced instance, no activation refers to it from inside the global phaser or through an enabled scope, nor ever will |
| SignalHandler.NeverRevived | cpp/profiler/SignalHandler.cpp:55-124 | a deleted instance never becomes live again |
| HandlerEffects.InitializeTakesEffect | cpp/profiler/SignalHandler.cpp:67-124 | in every run a call of Initialize that has returned has put an instance it allocated itself into the table after it began, and has taken over the signal or deleted the instance it replaced |
| HandlerEffects.FlagFollowsCalls | cpp/profiler/SignalHandler.cpp:142-149 | an instance is enabled if and only if the last call of Enable or Disable on it was Enable |
| HandlerEffects.HandlerRunsIffEnabled | cpp/profiler/SignalHandler.cpp:35-53 | a delivered signal goes to the instance in the table at its lookup, and runs its handler if and only if that was enabled when the flag was read |
| HandlerEffects.RunGlobal | cpp/profiler/SignalHandler.cpp:43-45 | an activation is in the global phaser exactly from its delivery until it departs |
| HandlerEffects.InLocalIff | cpp/profiler/SignalHandler.h:88-138 | an activation is in an instance's phaser exactly while it has an open scope on it, or for ever after jumping out through the scope the open one was moved from |
| HandlerLifetime.RunTraced | cpp/profiler/SignalHandler.cpp:55-158 | every pointer an activation, an Initialize or a Disable holds is to an instance that has been published, and a published instance is alive unless some Initialize deleted it |
| HandlerLifetime.TouchesDeadIff | cpp/profiler/SignalHandler.cpp:35-185 | of all accesses to a constructed instance, those that reach a deleted one are exactly the unprotected ones (through a scope outside the local phaser, the copy of old_sigaction_, the store by sigaction, Enable, SetData, and Disable with both ends of its drain) to an instance some Initialize has deleted |
| HandlerLifetime.DeletedSince | cpp/profiler/SignalHandler.cpp:104-113 | the deletion came after every moment at which the instance was alive, so after the pointer was loaded |
| HandlerLifetime.DeletedByAnother | cpp/profiler/SignalHandler.cpp:67-124 | the call of Initialize that deleted it is another one than the call that touches it |
| HandlerLifetime.OneAtATimeIsSafe | cpp/profiler/SignalHandler.cpp:67-124 | if no two calls of Initialize overlap, neither the copy of old_sigaction_ nor the store by sigaction touches a deleted instance |
| HandlerLifetime.RegisteredIsLive | cpp/profiler/SignalHandler.cpp:76-118 | an instance is alive as long as it is the registered one |
| HandlerRuns.Replaces | cpp/profiler/SignalHandler.cpp:67-116 | from any run with both phasers idle, a call of Initialize can replace and delete the registered instance |
| HandlerRuns.PreviousHandlerOfTheDead | cpp/profiler/SignalHandler.h:132-138 | a run in which CallPreviousHandler reads a deleted instance |
| HandlerRuns.CopyOfTheDead | cpp/profiler/SignalHandler.cpp:68-74 | a run in which Initialize copies old_sigaction_ from a deleted instance |
| HandlerRuns.InstallIntoTheDead | cpp/profiler/SignalHandler.cpp:76-81 | a run in which sigaction stores the old action into a deleted instance |
| HandlerRuns.DisableOfTheDead | cpp/profiler/SignalHandler.cpp:146-149 | a run in which Disable, called on the registered instance, drains the phaser of a deleted one |
| HandlerRuns.OwnerOfTheDead | cpp/profiler/SignalHandler.h:57-68 | a run after which Enable, SetData and Disable on the reference that Initialize returned touch a deleted instance |
| HandlerRuns.GlobalDrainsOverlap | cpp/profiler/SignalHandler.cpp:83-104 | a run in which one Initialize drains the global phaser while another is about to |
| HandlerRuns.LocalDrainsOverlap | cpp/profiler/SignalHandler.cpp:104-149 | a run in which Initialize drains a local phaser while two calls of Disable are about to |
| HandlerDisable.DisableWaits | cpp/profiler/SignalHandler.cpp:146-149 | when Disable returns, an activation still bound to the instance was between its test of enabled_ and the local phaser when the drain began |
| HandlerDisable.LeakBlocksDrain | cpp/profiler/SignalHandler.h:121-127 | a section left behind by a jump through a moved-from scope keeps Disable from ever returning |
| HandlerDisable.DisableOvertakes | cpp/profiler/SignalHandler.h:72-79 | with an activation between test and phaser and no such section, some continuation lets Disable return with the activation still bound for the handler |
| HandlerDisable.DisableIsExact | cpp/profiler/SignalHandler.h:59-64 | for an instance registered or replaced: every continuation in which Disable returns leaves nobody in or bound for the handler if and only if, when its drain begins, no activation is between test and phaser, or a leaked section blocks the drain |
| HandlerDisable.DisableFails | cpp/profiler/SignalHandler.h:35-36 | a concrete run in which Disable returns and the handler can still start on the disabled instance |
| Sigmux.RunInv | deps/sigmux/sigmux.c:279-391 | every interleaving of dispatch, register, unregister, sigaction and longjmp keeps list, walkers and buffers consistent, one memory write at a time |
| Sigmux.WalkersStand | deps/sigmux/sigmux.c:279-346 | every walker stands on the sentinel, on a linked registration, or on the one being drained, which is then waiting for it |
| Sigmux.NeverTouchesFreed | deps/sigmux/sigmux.c:590-643 | no step of any run reads, writes or frees a freed registration, the advance after a handler that stops the search included |
| Sigmux.PointersFormList | deps/sigmux/sigmux.c:590-643 | in every state the forward pointers visit exactly the linked registrations and return to the sentinel |
| Sigmux.CopiesAreWhole | deps/sigmux/sigmux.c:358-391 | the sigaction a dispatch copies, word by word, is one complete installed value of its signal, never a mixture; which one is `SigmuxEffects.SigactionTakesEffect` |
| Sigmux.WriterAvoidsReaders | deps/sigmux/sigmux.c:645-699 | the writer never fills a buffer that a dispatch is copying from |
| SigmuxVisits.PassSeesEverything | deps/sigmux/sigmux.c:316-346 | a pass that reaches the sentinel has visited every registration linked since the list head was loaded, once each and in list order, whatever was registered or unregistered meanwhile |
| SigmuxEffects.SigactionTakesEffect | deps/sigmux/sigmux.c:645-699 | if a sigaction on g is the last to begin before a dispatch of g takes its snapshot, and has returned by then, the dispatch leaves with exactly its action |
| SigmuxEffects.RegisterTakesEffect | deps/sigmux/sigmux.c:590-626 | once a registration's lock has been released, every pass that starts and ends before it is unregistered visits it |
| SigmuxEffects.RunNewestFirst | deps/sigmux/sigmux.c:611-623 | the list, and so every pass, goes from the latest registration to the earliest |
| SigmuxEffects.UnregisterTakesEffect | deps/sigmux/sigmux.c:628-643 | after the drain of an unregister no dispatch, old or new, is at the registration or has it as its list head |
| SigmuxEffects.RunInside | deps/sigmux/sigmux.c:279-391 | the dispatches inside the phaser are exactly those that have neither left nor jumped out |
| SigmuxEffects.StopTakesEffect | deps/sigmux/sigmux.c:319-346 | a handler that stops the search ends its dispatch: no further registration and no original action |
| SigmuxEffects.AtMostTwoPasses | deps/sigmux/sigmux.c:319-346 | a dispatch never starts a third pass |
| Slots.RunInv | cpp/profiler/SamplingProfiler.cpp:65-240 | every interleaving of handlers, nested handlers (also between the CAS and sigsetjmp), faults and logger keeps slot words, owners and samples consistent |
| Slots.PackingIsInjective | cpp/profiler/SamplingProfiler.h:47-63 | comparing packed state words is comparing tid and code |
| Slots.NeverAborts | cpp/profiler/SamplingProfiler.cpp:95-240 | none of the five abort branches is reachable |
| Slots.OnlyOwnerWrites | cpp/profiler/SamplingProfiler.cpp:105-240 | a busy slot is written only by the innermost handler of the thread whose tid it carries |
| Slots.ScanFindsInnermost | cpp/profiler/SamplingProfiler.cpp:65-103 | the fault handler's scan ends on the slot of the handler that faulted, with a jump buffer that leads there |
| Slots.FaultComesHome | cpp/profiler/SamplingProfiler.cpp:65-103 | the jump is possible and leaves exactly that handler on top |
| Slots.ReleasedExactlyOnce | cpp/profiler/SamplingProfiler.cpp:307-378 | every published sample is in exactly one slot or released exactly once, with the contents it had when its owner published it |
| Slots.HistoryOnlyGrows | cpp/profiler/SamplingProfiler.cpp:307-378 | publications and releases are final |
| Slots.PublishedUntouched | cpp/profiler/SamplingProfiler.cpp:307-378 | while a slot is published nobody but the logger's release changes it |
| SlotEffects.PublishesWhatItCollected | cpp/profiler/SamplingProfiler.cpp:164-226 | a handler publishes the code its own last collect call returned, with the time of its stamp and the frames and types it wrote last; nothing exactly for TRACER_DISABLED and IGNORE, and then its slot is free |
| SlotEffects.CrashPublishesInterrupt | cpp/profiler/SamplingProfiler.cpp:227-241 | a handler that crashed publishes SIGNAL_INTERRUPT with the time and profiler type of its own second stamp and the frames it had written by then |
| SlotEffects.OnlyPublishPublishes | cpp/profiler/SamplingProfiler.cpp:137-244 | no other step publishes anything |
| SlotEffects.GivesUpAfterAllProbes | cpp/profiler/SamplingProfiler.cpp:110-135 | a handler that finds no slot has probed, one after the other, the 24 positions from the counter value it took, and found each occupied |
| SlotEffects.ProbesReachAllIff | cpp/profiler/SamplingProfiler.cpp:111-113 | those positions are all 24 slots if and only if the 32-bit counter does not wrap on the way |
| SlotEffects.RoundRobin | cpp/profiler/SamplingProfiler.cpp:307-378 | the logger looks at the slots in turn, round and round |
| SlotEffects.PassLooksAtAll | cpp/profiler/SamplingProfiler.cpp:311-319 | between two looks at slot 0 it looks at each of the 24 slots once, in order |
| SlotEffects.LookReleases | cpp/profiler/SamplingProfiler.cpp:314-377 | before its next look, a published sample has been copied out as it was, released once, and its slot freed; any other slot is left alone |
| Words.LittleAt | cpp/generated/Entry.cpp:12-96 | byte k of an integer in memory has place value 256^k |
| Words.ValueOfLittle | cpp/generated/Entry.cpp:12-96 | the little-endian bytes of an integer have its value modulo 256^n |
| Entries.PackedFits | cpp/generated/Entry.cpp:98-324 | packing writes exactly 3 bytes less than calculateSize, or 6 with the alignment, and value arrays start 4-byte aligned where unpack looks for them |
| Entries.Pack | cpp/generated/Entry.cpp:12-54 | refuses exactly the buffers smaller than calculateSize; otherwise the buffer begins with the packed entry and the rest is untouched |
| Entries.WriteParts | cpp/generated/Entry.cpp:112-162 | header, then values at their aligned offset, nothing else written |
| Entries.ParseUndoesPack | cpp/generated/EntryParser.h:30-56 | parsing a packed entry, whatever follows it, visits an equal entry of the same kind if and only if its type code is below 256 |
| Entries.StandardLayout | cpp/generated/Entry.cpp:12-54 | the byte offset of every field of a packed standard entry |
| Entries.FramesLayout | cpp/generated/Entry.cpp:112-162 | the byte offset of every field of a packed frames entry, and of its value array |
| Entries.FrameAt | cpp/generated/Entry.cpp:112-162 | frame k is 8 k bytes into the value array |
| Entries.BytesLayout | cpp/generated/Entry.cpp:229-271 | the byte offset of every field of a packed bytes entry |
| Entries.ParseRefuses | cpp/generated/EntryParser.h:30-56 | exactly which payloads are of an unknown kind, and which end before their entry does |
| Packets.SplitCarries | cpp/logger/PacketLogger.cpp:50-74 | the packets of a payload are nonempty, all full but the last, marked start first only and next on all but the last, and add up to the payload |
| Packets.PacketLogger.Write | cpp/logger/PacketLogger.cpp:31-77 | refuses exactly the empty payload; otherwise appends its packets under a fresh stream id and returns the cursor of the first |
| Packets.RunInv | cpp/logger/PacketLogger.cpp:48-74 | with any number of writers at once, what a stream has in the buffer and what its writer still owes make up its packets |
| Packets.WritersInterleave | cpp/logger/PacketLogger.cpp:48-74 | any run of concurrent writers leaves an interleaving of split payloads |
| Reassembly.PacketReassembler.Process | cpp/writer/PacketReassembler.cpp:78-120 | the list code computes `Forwards` |
| Reassembly.PacketReassembler.ProcessBackwards | cpp/writer/PacketReassembler.cpp:122-163 | the list code computes `Backwards` |
| Reassembly.PacketReassembler.NewStream | cpp/writer/PacketReassembler.cpp:57-67 | hands out the front of the pool, or an empty stream |
| Reassembly.PacketReassembler.RecycleStream | cpp/writer/PacketReassembler.cpp:69-76 | an emptied stream joins the pool if there is room |
| Reassembly.ForwardsActs | cpp/writer/PacketReassembler.cpp:78-120 | one packet forwards changes its own stream only, and completes at most that |
| Reassembly.BackwardsActs | cpp/writer/PacketReassembler.cpp:122-163 | one packet backwards, likewise |
| Reassembly.PoolStaysClean | cpp/writer/PacketReassembler.cpp:57-76 | after any calls in any mixture of directions pooled streams are empty and at most 8, with the active ones at least 8, and no id is active twice |
| Reassembly.ReassemblyIsExact | cpp/writer/PacketReassembler.cpp:35-162 | for any window of any interleaving, both directions deliver exactly the payloads wholly within it, once each, byte for byte |
| Division.MulHi | cpp/writer/TimestampTruncatingVisitor.cpp:31-50 | the high half of the 128-bit product, no intermediate value overflowing 64 bits |
| Division.DivisionInClosedForm | cpp/writer/TimestampTruncatingVisitor.cpp:58-61 | div_1000(n) is n/1000 plus a closed-form excess of at most 5 |
| Division.DivisionIsExact | cpp/writer/TimestampTruncatingVisitor.cpp:52-61 | div_1000 is division if and only if (n % 1000) 2^64 + 4384 n < 1000 2^64, in particular while 4384 n < 2^64 |
| Division.DivisionFails | cpp/writer/TimestampTruncatingVisitor.cpp:52-61 | concrete inputs off by one and by five |
| Division.DivisionIsMonotone | cpp/writer/TimestampTruncatingVisitor.cpp:58-61 | div_1000 is monotone |
| Division.TruncateIsDivision | cpp/writer/TimestampTruncatingVisitor.cpp:70-79 | truncateTimestamp, the signed addition and then div_1000, is one unsigned multiplication and shift |
| Division.TruncateRounds | cpp/writer/TimestampTruncatingVisitor.cpp:70-79 | the truncated timestamp is the nearest microsecond exactly under that condition, and never more than 5 us late |
| Division.TruncateIsMonotone | cpp/writer/TimestampTruncatingVisitor.cpp:70-79 | truncation keeps the order of timestamps from -500 on |
| Visitors.PrintEntryVisitor.Visit | cpp/writer/PrintEntryVisitor.cpp:26-74 | appends the entry's lines, one for each frame; throws from the middle of a line exactly when something is to be printed and the type code has no name |
| Visitors.DeltaEncodingVisitor.Visit | cpp/writer/DeltaEncodingVisitor.cpp:28-84 | each line is the wrapping difference to the last values, which move on even if the printer throws |
| Visitors.DeltaEncodingVisitor.VisitFrames | cpp/writer/DeltaEncodingVisitor.cpp:51-79 | the loop over frames writes one difference a frame, numbered from the entry's id, up to an exception |
| Visitors.TimestampTruncatingVisitor.Visit | cpp/writer/TimestampTruncatingVisitor.cpp:81-93 | passes the entry on with its timestamp truncated, and the printer's exception back |
| Visitors.StackTraceInvertingVisitor.Visit | cpp/writer/StackTraceInvertingVisitor.cpp:32-63 | throws exactly for stacks over 512 frames, before touching anything, and for what the printer throws for; otherwise passes the frames on reversed |
| Visitors.ReverseCopy | cpp/writer/StackTraceInvertingVisitor.cpp:41-44 | the buffer holds the frames reversed |
| Visitors.ImportLines | python/profilo/importer/trace_file.py:21-131 | the importer's loop, choosing the kind of record by type name and raising on missing fields, computes `Imported` |
| Visitors.DifferenceReadsBack | python/profilo/importer/trace_file.py:70-131 | the importer's wrapping, scaled additions undo the encoder's wrapping differences |
| Visitors.PipelineReadsAs | cpp/writer/DeltaEncodingVisitor.cpp:28-84 | importing the file of properly typed entries gives each entry's meaning: fields with the rounded timestamp, frames reversed and numbered id, id+1, and so on, bytes unchanged; errors never accumulate |
| Visitors.ImporterUndoesPipeline | python/profilo/importer/trace_file.py:21-131 | the file of any entries reads back to their meaning if and only if every entry that prints has a type from 0 to 118, and type 56, 57 or 83 exactly when it is a bytes entry |
| Visitors.TimestampRecovered | cpp/writer/TimestampTruncatingVisitor.cpp:70-79 | for the first 48 days a timestamp read back is within half a microsecond of the one logged |
| Visitors.UntilNulLongest | cpp/writer/PrintEntryVisitor.cpp:61-76 | what is printed of the bytes is their longest prefix without a zero |
| Lifecycle.NewChain | cpp/writer/TraceLifecycleVisitor.cpp:146-151 | a new file's visitors start from zero values and an empty file |
| Lifecycle.TraceLifecycleVisitor.Visit | cpp/writer/TraceLifecycleVisitor.cpp:54-129 | throws exactly when the file is open and the stack is too deep, with nothing changed, or the type has no name, with a torn line written; otherwise computes `Visited`, whose callbacks are those of `Lifecycle.EndingTells` |
| Lifecycle.TraceLifecycleVisitor.OnTraceStart | cpp/writer/TraceLifecycleVisitor.cpp:135-159 | opens a file and tells the callbacks, or aborts the open trace |
| Lifecycle.TraceLifecycleVisitor.OnTraceAbort | cpp/writer/TraceLifecycleVisitor.cpp:161-167 | done, cleaned up, callback only if started |
| Lifecycle.TraceLifecycleVisitor.OnTraceEnd | cpp/writer/TraceLifecycleVisitor.cpp:169-175 | done, cleaned up, callback only if started |
| Lifecycle.TraceLifecycleVisitor.CleanupState | cpp/writer/TraceLifecycleVisitor.cpp:177-185 | the open file, if any, is closed with what was written to it |
| Lifecycle.Feed | cpp/writer/TraceWriter.cpp:82-91 | one round of the read loop: a packet completes at most one entry, which is parsed and visited |
| Lifecycle.ReadLoop | cpp/writer/TraceWriter.cpp:82-91 | the loop reads up to the first packet after which the trace is done, and no further |
| Lifecycle.ProcessTrace | cpp/writer/TraceWriter.cpp:62-94 | callbacks, files and open state are those of the run over everything delivered, a missed event ending what nothing else ended |
| Lifecycle.LifecycleIsExact | cpp/writer/TraceLifecycleVisitor.cpp:54-185 | for every entry sequence: throws if and only if something bad precedes the end of the trace, and then leaves the state at the first such entry; otherwise no callback, or a start and exactly one end or abort, and one file holding the window minus other traces' lifecycle entries and a duplicate start; which end or abort is `Lifecycle.EndingTells` |
| Lifecycle.EndingTells | cpp/writer/TraceLifecycleVisitor.cpp:57-113 | the last callback is End for TRACE_END, Abort with TIMEOUT for TRACE_TIMEOUT, with CONTROLLER_INITIATED for TRACE_ABORT, with NEW_START for a second start, with MISSED_EVENT when the buffer runs out, each if and only if |
| Lifecycle.UnknownTypeThrows | cpp/generated/EntryType.cpp:10-134 | an entry of type 200 between start and end: the run throws and leaves a torn line |
| Lifecycle.LifecycleInv | cpp/writer/TraceLifecycleVisitor.cpp:54-185 | at every moment the output is open iff started and not done, at most one file is opened, and the callbacks match |
| EndToEnd.ReaderSeesTheWindow | cpp/writer/TraceWriter.cpp:78-91 | the reader parses exactly the entries whose packets all lie in its window, once each |
| EndToEnd.LeavesTheWindow | cpp/writer/TraceWriter.cpp:62-94 | what processTrace leaves is determined by the entries alone: it throws iff the window holds one that cannot be written, and its file imports to the meaning iff every entry is of the kind its type's name says |
| EndToEnd.TraceSurvives | cpp/writer/TraceWriter.cpp:62-94 | from concurrent loggers through buffer, reassembly, parsing, lifecycle, encoding and import, exactly this trace's window survives |
| Hooks.HookRegistry.Add | deps/plthooks/hooks.cpp:108-151 | both maps and the shared entry change as `Added` says, which `Hooks.AddIs` characterises |
| Hooks.AddIs | deps/plthooks/hooks.cpp:108-151 | each result code if and only if its condition holds; a hook is appended to the slot's own list, or a new list is the previous function and the hook, under a fresh id; every other slot and list stays |
| Hooks.HookRegistry.Remove | deps/plthooks/hooks.cpp:153-206 | likewise for `Removed` and `Hooks.RemoveIs` |
| Hooks.RemoveIs | deps/plthooks/hooks.cpp:153-206 | each result code if and only if its condition holds; the first copy of the hook is taken out, the index entry goes only with the last function, every other slot and list stays |
| Hooks.HookRegistry.IsHooked | deps/plthooks/hooks.cpp:70-75 | a slot is hooked iff it is in the slot index |
| Hooks.HookRegistry.ListSize | deps/plthooks/hooks.cpp:77-90 | the length of the run list, or -1 |
| Hooks.HookRegistry.GetRunList | deps/plthooks/hooks.cpp:92-106 | the run list, or none |
| PltHooks.HookIs | deps/plthooks/plthooks.cpp:128-178 | a hook applies if and only if slot, hook and previous function are there and, on a hooked slot, neither the new hook nor those in place refuse to chain; it then appends to that run list or opens that slot, and otherwise changes nothing |
| PltHooks.UnhookIs | deps/plthooks/plthooks.cpp:303-352 | an unhook never aborts, applies iff the hook is in the list behind the original, and changes just that list or gives the slot back |
| PltHooks.UnhookMisses | deps/plthooks/plthooks.cpp:312-348 | an unhook finds nothing to do if and only if it is well formed and its hook is not in the list |
| PltHooks.RunInv | deps/plthooks/plthooks.cpp:128-352 | after any hooks and unhooks an unhooked slot holds its original, a hooked one its trampoline or sole no-chaining hook, and every id ever allocated keeps a nonempty run list headed by the original |
| PltHooks.NeverAborts | deps/plthooks/plthooks.cpp:324-341 | the aborts of unhooking are unreachable |
| PltHooks.HooksAreConserved | deps/plthooks/hooks.cpp:108-206 | a slot's run list is what successful hooks put in and successful unhooks have not taken out |
| PltHooks.SlotsAreRestored | deps/plthooks/plthooks.cpp:324-341 | a slot is unhooked, and holds its original again, if and only if every successful hook of it has been undone |
| PltHooks.UnhookUndoesHook | deps/plthooks/plthooks.cpp:128-352 | hook then unhook restores GOT and index unless the hook is the original; the run list is restored iff no other hook follows an earlier copy |
| PltHooks.GotTable.PatchForHook | deps/plthooks/plthooks.cpp:128-178 | the code over the registry object computes `HookedSlot` |
| PltHooks.GotTable.FirstHook | deps/plthooks/plthooks.cpp:159-177 | a first hook installs a trampoline, or itself if it does not chain |
| PltHooks.GotTable.UnhookSlot | deps/plthooks/plthooks.cpp:312-348 | the code over the registry object computes `UnhookedSlot` |
| PltHooks.GotTable.UnhookSpec | deps/plthooks/plthooks.cpp:312-349 | the loop over a spec's relocations leaves what the unhooks in turn leave, and counts them |
| CallChain.HookStack.Push | deps/plthooks/trampoline.cpp:179-194 | aborts on an empty run list; otherwise pushes a snapshot and jumps to its last function |
| CallChain.HookStack.Pop | deps/plthooks/trampoline.cpp:196-202 | removes the top frame and resumes at its return address |
| CallChain.HookStack.GetPrevious | deps/plthooks/trampoline.cpp:279-295 | computes `Previous` on the top frame |
| CallChain.PreviousGoesDown | deps/plthooks/trampoline.cpp:279-295 | CALL_PREV aborts iff the caller is the original; otherwise it goes strictly towards it, one position if the caller is not in the list earlier |
| CallChain.DescentReachesOriginal | deps/plthooks/trampoline.cpp:279-295 | repeated CALL_PREV ends at the original, visiting every position if functions are distinct |
| CallChain.RunInv | deps/plthooks/trampoline.cpp:179-202 | under concurrent hooking every activation stays within the snapshot it was entered with |
| CallChain.NeverAborts | deps/plthooks/trampoline.cpp:179-295 | in any properly nested run the only possible abort is CALL_PREV by a hook that is its list's original |
| CallChain.SnapshotLasts | deps/plthooks/trampoline.cpp:179-194 | while an activation lasts, its frame is the one pushed, with the run list of that moment |
| CallChain.CallPrevGoesBySnapshot | deps/plthooks/trampoline.cpp:279-295 | CALL_PREV from position k of an activation reaches position k-1 of the list at entry, whatever was hooked or unhooked since |
| CallChain.PopMatchesPush | deps/plthooks/trampoline.cpp:196-202 | leaving resumes at the address of the matching entry, the stack as it was |
| CallChain.JumpsToRunning | deps/plthooks/trampoline.cpp:179-295 | wherever a trampoline or CALL_PREV sends a thread, that function is then the one running |
| CallChain.ReturnUndoesCallPrev | deps/plthooks/trampoline.cpp:279-295 | returning from a function that CALL_PREV reached leaves the thread's stack as before the call |
| CallChain.HookTakesEffect | deps/plthooks/trampoline.cpp:179-194 | after a hook has been applied, and until the slot is changed again, a call through its trampoline goes to that hook first, whatever happens to other slots |
| GnuHash.GnuHash | deps/linker/elfSharedLibData.cpp:74-81 | the shifting loop computes 33 h + c modulo 2^32 |
| GnuHash.HashIs | deps/linker/elfSharedLibData.cpp:74-81 | the hash is 5381 followed by the characters as digits in base 33, modulo 2^32 |
| GnuHash.ParseInput | deps/linker/elfSharedLibData.cpp:171-204 | accepts exactly powers of two and zero; mask and shifted chain base as the lookup needs them |
| GnuHash.FindSymbol | deps/linker/elfSharedLibData.cpp:281-314 | on a well-formed table, returns what a linear scan of the hashed symbols returns, in bounds and terminating |
| GnuHash.WalkChain | deps/linker/elfSharedLibData.cpp:303-313 | from the first symbol of the bucket the chain walk completes that scan |
| Bits.PowerOfTwoTest | deps/linker/elfSharedLibData.cpp:194-199 | (m - 1) & m == 0 iff m is a power of two, for m > 0 |
| Bits.MaskIsRemainder | deps/linker/elfSharedLibData.cpp:285-289 | masking with 2^n - 1 is the remainder modulo 2^n |
| Bits.XorTest | deps/linker/elfSharedLibData.cpp:305-308 | the shifted xor is zero iff the values agree but for the last bit |
| Leb128.WriteUnsigned | deps/dex/Leb128.java:131-141 | the loop writes `Unsigned128` of the 32-bit pattern |
| Leb128.WriteSigned | deps/dex/Leb128.java:147-160 | the loop writes `Signed128` of the value |
| Leb128.SignedSize | deps/dex/Leb128.java:58-76 | equals the number of bytes written |
| Leb128.UnsignedSize | deps/dex/Leb128.java:37-49 | equals the number of bytes written, for the values it ends on |
| Leb128.UnsignedSizeEndsIff | deps/dex/Leb128.java:37-49 | unsignedLeb128Size ends if and only if the int is nonnegative |
| Leb128.ReadUnsigned | deps/dex/Leb128.java:109-125 | on any input: the number at its front, or the error |
| Leb128.ReadSigned | deps/dex/Leb128.java:81-104 | on any input: the number at its front, sign extended, or the error |
| Leb128.ReadingIs | deps/dex/Leb128.java:78-125 | a value if and only if a number of at most five bytes is at the front, the error if and only if five bytes pass without an end, the end of the input otherwise |
| Leb128.UnsignedWritten | deps/dex/Leb128.java:131-141 | the bytes written are one number with the value's place value, and no more than its size needs |
| Leb128.SignedWritten | deps/dex/Leb128.java:147-160 | likewise in two's complement |
| Leb128.ReadingUndoesWriting | deps/dex/Leb128.java:78-160 | every int reads back, signed and unsigned, using exactly its own bytes |
| EncodedValue.WriteSigned | deps/dex/EncodedValueCodec.java:32-59 | header with width, then the value's low bytes |
| EncodedValue.WriteUnsigned | deps/dex/EncodedValueCodec.java:64-86 | header with width, then the value's low bytes |
| EncodedValue.WriteRightZeroExtended | deps/dex/EncodedValueCodec.java:91-116 | header with width, then the value's high bytes |
| EncodedValue.SignedFits | deps/dex/EncodedValueCodec.java:33-45 | the signed width is between 1 and 8, holds the value, and no smaller one does |
| EncodedValue.UnsignedFits | deps/dex/EncodedValueCodec.java:65-72 | likewise for the unsigned width |
| EncodedValue.RightFits | deps/dex/EncodedValueCodec.java:92-102 | the bytes that are not written are zero, and no smaller width would do; zero takes one byte |
| EncodedValue.ReadBytes | deps/dex/EncodedValueCodec.java:158-162 | the shifting loop leaves the bytes read at the top of the long |
| EncodedValue.ReadSignedLong | deps/dex/EncodedValueCodec.java:158-165 | the two's complement value of the bytes |
| EncodedValue.ReadUnsignedLong | deps/dex/EncodedValueCodec.java:173-186 | the unsigned value of the bytes, zero filled on the asked side |
| EncodedValue.ReadingUndoesWriting | deps/dex/EncodedValueCodec.java:32-186 | every 64-bit value reads back from each encoding by the width in its header |
| Mutf8.CountBytes | deps/dex/Mutf8.java:66-83 | the encoded length, refused exactly when short and over 65535 |
| Mutf8.EncodeInto | deps/dex/Mutf8.java:89-104 | the bytes land at the offset and nothing else changes |
| Mutf8.Encode | deps/dex/Mutf8.java:109-114 | the encoded bytes, for exactly the strings within the limit |
| Mutf8.Decode | deps/dex/Mutf8.java:34-61 | on any input and any room: the text up to the terminator, or the error; the array holds the text |
| Mutf8.DecodingUndoesEncoding | deps/dex/Mutf8.java:34-104 | every string reads back from its bytes and a terminator, given room for exactly its length, and with less room the decoder stops in time |
| Mutf8.NoZeroByte | deps/dex/Mutf8.java:89-104 | no encoded byte is zero |
| Mutf8.UnitIsSpelt | deps/dex/Mutf8.java:89-104 | one byte for 1 to 0x7f, two for 0 and 0x80 to 0x7ff, three from 0x800 on, with the marks and bits of the format |
| Mutf8.DecodesWhatIsSpelt | deps/dex/Mutf8.java:34-61 | a unit is decoded if and only if one of the three forms spells it, and each error exactly when its condition holds |

## Left out

- Update in place in the concurrent modules: steps of different threads interleave, so their states are values and each step names the whole new state.
- Weak memory: all atomics are sequentially consistent.
- The pipe strategy of the phaser (deps/sigmux/phaser.c:194-204, 227-236): a different protocol.
- `sigmux_init`, `sigmux_reinit` and its flags; SA_RESETHAND one-shot handling; which handlers match a signal; the oldact result of `sigmux_sigaction`.
- SignalHandler.RunInv: assumes serialised drains of each phaser, which overlapping calls of Initialize, of Disable, or of both do not ensure; does not model move-assignment of a HandlerScope nor the contents of the saved sigaction, and identifies instances by allocation, so address reuse is out of sight.
- `AndroidAwareSigaction`, `ForkJail`, trampoline assembly, mprotect and /proc/self/mem patching: foreign calls; a patch is one successful store.
- Slots.RunInv: does not model the start-time filter of `flushStackTraces`, the counters and semaphore of `maybeSignalReader`, nor the text the logger writes.
- Trace files as text: headers, number formatting, compression, and bytes entries that contain line breaks or separators, which the importer would split, or that are not valid UTF-8, on which its decoding raises; `Visitors` works on whole lines, and on type codes for the distinct names to_string gives them.
- Lifecycle.TraceLifecycleVisitor.Visit: TRACE_BACKWARDS acts as a start with a null backwards callback, and the logger-priority side effect is not modelled.
- Lifecycle.ProcessTrace: a payload too short for its entry, on which the code would read past its end, ends the run as an exception does; failures to open files, and what a destructor still does to an open file after an exception, are not modelled.
- Division.TruncateRounds: takes the signed addition to wrap around within 500 of the largest int64, where C++ leaves it undefined.
- `TraceWriter::loop`, `submit` and `dump`, the ring buffer, multi-buffer logging.
- `hook_single_lib` and its symbol checks, `hook_all_libs`: loops over slots; any sequence of slot operations is covered.
- Hooks.HookRegistry.Add: the registry's own locks are not modelled, because every caller holds the GOT lock; hook ids do not wrap.
- GnuHash.FindSymbol: requires a well-formed table as link editors write it; characters are unsigned, as on ARM, so on platforms with signed char it speaks for ASCII names.
- The ELF hash and the relocation scans of `find_symbol_by_name`.
- EncodedValue.ReadingUndoesWriting: `readSignedInt` and `readUnsignedInt`, the same loops at 32 bits, are not modelled.
- Mutf8.EncodeInto: bit operations on disjoint fields are written as arithmetic.
- JNI glue, procfs reading, perf events, TraceProviders counts, Counter, ExternalTracerManager, FbTraceId, TimerManager: plumbing, or comparatively easy.
