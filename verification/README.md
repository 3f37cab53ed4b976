# Verification of fuzzuf-cc

Dafny models of the parts of fuzzuf-cc where a mistake would silently spoil a fuzzing campaign, with
proofs about every program, every interleaving, every call sequence or every file. One
`dafny verify dfyconfig.toml` checks all of it.

## What is modelled

**The instrumentation compiler.** `Ir.dfy` is a small intermediate language: functions made of blocks
with abstract operations, direct calls and an ordered successor list that may repeat a target, run by a
small-step machine with a call stack that records every block entry and the edge it took. On it:

* `SplitEdges.dfy`: critical-edge splitting as an in-place pass, and a simulation in both directions
  between a program and its split version.
* `BlockIds.dfy`: selection and numbering of blocks.
* `PathRecovery.dfy`: why numbering only the blocks of in-degree below two is enough after splitting, and
  a program for which it is not enough without.
* `EdgeCounts.dfy`: why even the counts of those blocks are enough, by conservation of flow.
* `BitmapPass.dfy`: the inserted update code as instructions of the same machine; it leaves the
  program alone and every counter ends at the closed form of its hits.
* `NodeCounts.dfy`: the two together: what a bitmap of NODE counters says about the original program.
* `CfgExporter.dfy`: the edge list, and the pushdown system it defines.

**The fork server.** `Framing.dfy` holds the command encoding and the reading loops, `ForkServer.dfy` a
state machine of the client, the daemon, its children, the timer and the pipes under every
interleaving, `Progress.dfy` the argument that replies come, `Daemon.dfy` the daemon's own two loops as
imperative code. `Executor.dfy` runs the executor on top of the same machine, with the standard-input
file and the output pipes; `CallProgress.dfy` is the argument that its calls come back, `CallRun.dfy` a
whole call, `ExecutorCall.dfy` its code for one call, and `BenchmarkClient.dfy` the other client.

**The IJON runtime.** `IjonHash.dfy` is the 64-bit mixer with its inverse, `IjonState.dfy` the state
register and shift log, `IjonMaps.dfy` the regions of the shared segment with the counters and max slots
in them, `IjonRuntime.dfy` the globals updated in place.

**exifutil.** `JpegWalk.dfy` is the segment walker over a seekable file with a serializer for ITU-T T.81
section B.1.1 streams; `ByteOrder.dfy` the swap routines; `TiffEntry.dfy` the reader of one directory entry
as a function of the buffer, with an encoder; `TiffWriter.dfy` the byte layout of TIFF 6.0 section 2, which
the encoder is proved to follow; `TiffDirectory.dfy` the recursive reader of directories, their child
directories and the links between them; `TiffRoundTrip.dfy` what it makes of the trees a writer lays out;
`TiffReader.dfy` the same reader converting the buffer in place.

`Bits.dfy` has unsigned arithmetic on natural numbers (exclusive or, shifts, masks, byte order),
`Prelude.dfy` the few definitions that everything shares.

Code that updates state is a class or a method over arrays, proved equal to a function of the old
state; the theorems are lemmas about those functions.

### Assumptions

* No `indirectbr`, no exception pads, no threads; entry blocks have no predecessors. A call goes to a
  function of the module or to a declaration without a body, which returns at once.
* SIGALRM arrives only when the handler is installed, pids are not reused, and pipe writes of at most
  PIPE_BUF bytes are atomic and not interrupted. A `read` delivers what the model's script says, at
  least one byte while there is any.
* Machine words are little-endian, as on the platforms the code is built for.

### Where the code and its documentation differ

* With no selection variable set the assigner first installs the ALL selector and then replaces it by
  NO_MULTIPLE_PRED (bb-id-assigner-pass.so.cc:64-71), and with no generation variable it counts up from zero
  (line 78); `docs/features/bb-id-assigner.md` names ALL and RANDOM as defaults. The model takes both choices
  as parameters, as the driver passes them.
* `docs/features/bitmap-feedback.md` writes the edge location as `(prev_loc >> 1) ^ cur_loc`; in the code
  `__bitmap_prev_loc` already holds the shifted number (line 111 of the pass). The model follows the code.
* The 64-bit swap in exifutil is not a byte reversal. `ByteOrder.Swap64ReversesIff` says for which words
  it acts as one, and `TiffEntry.EntryRoundTrip` carries that condition for big-endian doubles.
* Restoring the IJON state after `IJON_CTX` needs a map size that is a power of two, which nothing enforces:
  `IjonState.ContextsRestoreIffPowerOfTwo`.
* With IDs below the map size, HASHED_EDGE is sure to stay inside the map only if that size is a power of
  two: `BitmapPass.HashedEdgeFitsIffPowerOfTwo`. RANDOM accepts any size from one up; with three counters
  block 2 jumping to itself has the location 3. NODE needs no such size.
* Without path splitting, NO_MULTIPLE_PRED does not determine the run: `PathRecovery.SplittingIsNeeded`.
  `PathRecovery.EdgesToldApartIff` says at which blocks the records that follow do not tell all edges apart;
  a complete record may still do so later in the run.
* A zero timeout disarms the timer, so a child that never ends is never answered:
  `Progress.StuckIsReachable` and `Progress.StuckNeverReplies`.

## Model

| member | source | states |
|---|---|---|
| SplitEdges.IrModule.SplitAllCriticalEdges | features/bb-id-assigner/bb-id-assigner-pass.so.cc:56-60 | Splitting one function in place gives the old blocks with exactly the critical edges, parallel ones counted apart, routed through one fresh block each |
| SplitEdges.IrModule.SplitModule | features/bb-id-assigner/bb-id-assigner-pass.so.cc:56-60 | The loop over the functions does that to all of them |
| SplitEdges.SplitLeavesNoCriticalEdge | features/bb-id-assigner/bb-id-assigner-pass.so.cc:56-60 | No edge from a branching to a joining block is left |
| SplitEdges.FreshBlockHasOnePred | features/bb-id-assigner/bb-id-assigner-pass.so.cc:56-60 | An inserted block never has a second incoming edge, so it is always numbered |
| SplitEdges.TwoPredsKept | features/bb-id-assigner/bb-id-assigner-pass.so.cc:56-71 | A block has two incoming edges after splitting if and only if it had before, so the selector's answer for old blocks does not change |
| SplitEdges.TwoPredsIsInDegree | features/bb-id-assigner/bb-id-assigner-pass.so.cc:67-71 | The selector's test is one for an in-degree of two or more, parallel edges counted apart |
| SplitEdges.SplitPreservesRuns | features/bb-id-assigner/bb-id-assigner-pass.so.cc:56-60 | Erasing the inserted blocks from any run of the split program, cut anywhere, gives a run of the original with the same data, memory and edges taken |
| SplitEdges.SplitCatchesUp | features/bb-id-assigner/bb-id-assigner-pass.so.cc:56-60 | Conversely every number of original steps is reached by some run of the split program |
| BlockIds.NumberBlocks | features/bb-id-assigner/bb-id-assigner-pass.so.cc:106-112 | ALL numbers every block, NO_MULTIPLE_PRED exactly the blocks of in-degree below two; sequential numbers follow layout order from zero, random ones stay below the map size |
| BlockIds.AssignIds | features/bb-id-assigner/bb-id-assigner-pass.so.cc:53-113 | Splitting happens only when asked for; exactly a missing or non-positive map size under RANDOM and an unknown strategy abort; otherwise ALL numbers every block of the module as it then is and NO_MULTIPLE_PRED those of in-degree below two |
| BlockIds.SequentialIsBijective | features/bb-id-assigner/bb-id-assigner-pass.so.cc:78-83 | Sequential numbering is injective and uses every number below the number of selected blocks |
| PathRecovery.BranchIsRecorded | features/bb-id-assigner/bb-id-assigner-pass.so.cc:67-71 | Without critical edges, two edges out of the same branching block that leave the same record are the same edge |
| PathRecovery.EdgesToldApartIff | features/bb-id-assigner/bb-id-assigner-pass.so.cc:67-71 | Under NO_MULTIPLE_PRED the record tells all edges of a branching block apart if and only if none of them is critical |
| PathRecovery.RecordDeterminesRun | features/bb-id-assigner/bb-id-assigner-pass.so.cc:56-71 | Two complete runs of such a module, under any data semantics and inputs, with equal recorded IDs enter the same blocks by the same edges and calls in the same order |
| PathRecovery.RecordDeterminesOriginalRun | features/bb-id-assigner/bb-id-assigner-pass.so.cc:53-113 | Main result: equal records of two runs of the split program mean that the original program takes the very same edges on both inputs, so all edge counts can be recovered |
| PathRecovery.SequentialIdsSuffice | features/bb-id-assigner/bb-id-assigner-pass.so.cc:62-83 | What the assigner produces with sequential numbers under either selection meets the conditions of the two results above |
| PathRecovery.SplittingIsNeeded | features/bb-id-assigner/bb-id-assigner-pass.so.cc:56-60 | A concrete unsplit program where, under NO_MULTIPLE_PRED, two different runs leave the same record |
| EdgeCounts.FlowHolds | features/bb-id-assigner/bb-id-assigner-pass.so.cc:56-71 | In every run, at a block of one successor, entries are departures along its edge plus activations still in it |
| EdgeCounts.TrapHolds | features/bb-id-assigner/bb-id-assigner-pass.so.cc:56-71 | A run that has entered a block from which single successors lead round for ever does not end |
| EdgeCounts.EntryCountsGiveEdgeCounts | features/bb-id-assigner/bb-id-assigner-pass.so.cc:56-71 | Main result: in two completed runs of a program without critical edges, under any data semantics, equal numbers of entries into every block of in-degree below two mean equal counts at every edge |
| EdgeCounts.EntryCountsGiveOriginalEdgeCounts | features/bb-id-assigner/bb-id-assigner-pass.so.cc:53-113 | The same for the original of a split program, from counts taken in the split one |
| BitmapPass.InstrumentFunction | features/bitmap/llvm-pass/bitmap-llvm-pass.so.cc:162-180 | The insertion loop puts the update code at the head of exactly the numbered blocks and keeps everything else |
| BitmapPass.Instrument | features/bitmap/llvm-pass/bitmap-llvm-pass.so.cc:162-180 | The pass rewrites every function of the module that way, in place |
| BitmapPass.ProbeCounts | features/bitmap/llvm-pass/bitmap-llvm-pass.so.cc:107-177 | Executing the inserted instructions, with wrap-around at eight bits, takes the memory from the counts of one list of block entries to the counts of the list with one entry more, for all methods and updates and any map that holds the locations the IDs can make |
| BitmapPass.ProbeStaysInMapIff | features/bitmap/llvm-pass/bitmap-llvm-pass.so.cc:107-177 | The inserted block stays inside the map if and only if the location it computes does |
| BitmapPass.CountedIsIteratedBump | features/bitmap/llvm-pass/bitmap-llvm-pass.so.cc:128-153 | The closed forms are the iterated updates: wrap-around for NAIVE, saturation at 255 for CAP_FF, 1 to 255 cyclically for AVOID_ZERO |
| BitmapPass.InstrumentedRunIsFaithful | features/bitmap/llvm-pass/bitmap-llvm-pass.so.cc:78-186 | Main result: erasing the inserted code, the previous location and the bitmap from any instrumented run, cut anywhere, gives the original run; outside inserted code each counter is the closed form of its hits; and the run never leaves a map that holds the locations the IDs can make |
| BitmapPass.CompletedRunCounts | features/bitmap/llvm-pass/bitmap-llvm-pass.so.cc:100-180 | A completed instrumented run ends with the original's result and with exactly the counts that its block entries call for, from any initial map |
| BitmapPass.InstrumentedCatchesUp | features/bitmap/llvm-pass/bitmap-llvm-pass.so.cc:162-180 | Every number of original steps is reached by the instrumented program, which therefore ends when the original does |
| BitmapPass.HashedEdgeCollisions | features/bitmap/llvm-pass/bitmap-llvm-pass.so.cc:107-113 | The locations of a to b and of b to a agree only for a equal to b; self-loops never collide; for one target two sources collide exactly when they agree above the lowest bit; k-bit numbers give locations below 2^k |
| BitmapPass.PowerOfTwoFits | features/bitmap/llvm-pass/bitmap-llvm-pass.so.cc:100-118 | IDs below 2^k make only locations inside a map of at least 2^k counters, under either method |
| BitmapPass.HashedEdgeFitsIffPowerOfTwo | features/bitmap/llvm-pass/bitmap-llvm-pass.so.cc:107-113 | With IDs below n and n counters, every HASHED_EDGE location is inside the map if and only if n is a power of two |
| BitmapPass.ThreeCountersAreTooFew | features/bb-id-assigner/bb-id-assigner-pass.so.cc:85-99 | The instance n = 3: block 2 jumping to itself has the location 3 |
| NodeCounts.RecordCountsEntries | features/bitmap/llvm-pass/bitmap-llvm-pass.so.cc:115-118 | With distinct IDs a block's ID is recorded as often as the block is entered |
| NodeCounts.BitmapGivesEdgeCounts | features/bitmap/llvm-pass/bitmap-llvm-pass.so.cc:78-186 | Main result, end to end: after splitting, NO_MULTIPLE_PRED and NODE under any update method, two completed runs with equal bitmaps and no counter overflowed take every edge of the original program equally often |
| NodeCounts.NotSaturatedCompletes | features/bitmap/llvm-pass/bitmap-llvm-pass.so.cc:146-153 | Under CAP_FF a counter of the final map is below 255 if and only if its initial value plus its hits is, so the map itself says that nothing overflowed |
| NodeCounts.CappedBitmapGivesEdgeCounts | features/bitmap/llvm-pass/bitmap-llvm-pass.so.cc:100-180 | So under CAP_FF equal final bitmaps without a counter at 255 mean that the original takes every edge equally often |
| Bits.GrayInjective | features/bitmap/llvm-pass/bitmap-llvm-pass.so.cc:107-113 | x ^ (x >> 1) is injective |
| CfgExporter.ExportBlock | features/cfg-exporter/cfg-exporter-pass.so.cc:81-124 | The two loops of one block append the labels of its exported successor edges and then of its exported calls |
| CfgExporter.Export | features/cfg-exporter/cfg-exporter-pass.so.cc:79-125 | The list is the labels of exactly the edges and direct calls whose both ends are numbered, each once, in layout order |
| CfgExporter.MultiplicityKept | features/cfg-exporter/cfg-exporter-pass.so.cc:79-125 | An exported edge occurs as often as the module has edges or calls with those ends and that kind |
| CfgExporter.StepIsPushdownMove | features/cfg-exporter/cfg-exporter-pass.so.cc:88-123 | A step that enters a block goes along a listed jump from the top of the stack or a listed call pushed on it; other steps stay or return |
| CfgExporter.EveryRunIsAccepted | features/cfg-exporter/cfg-exporter-pass.so.cc:79-125 | Main result: with all blocks numbered, every run of every length is accepted by the pushdown system of the exported edges |
| CfgExporter.AllSelectionAccepts | features/bb-id-assigner/bb-id-assigner-pass.so.cc:65-65 | After the selection ALL every block is numbered, so the edge list accepts every run |
| CfgExporter.ListedIff | features/cfg-exporter/cfg-exporter-pass.so.cc:79-125 | Under any numbering an edge is listed if and only if the module has a jump, respectively a call to a function with a body, between numbered blocks with these numbers |
| Framing.Recv | features/forkserver/forkserver.c:160-180 | However `read` cuts the stream and is interrupted, the buffer receives the next bytes in order, as many as it holds or the stream has left |
| Framing.RecvWord | features/forkserver/forkserver.c:182-204 | The word read is the little-endian value of the next bytes, and only a stream that ends early makes the daemon exit |
| Framing.ReadCommand | features/forkserver/forkserver.c:404-437 | One round of the command loop takes exactly one command off the stream, with its payload for the timeout |
| Framing.DecodeEncode | features/forkserver/benchmark_client.cc:105-138 | An encoded command decodes to itself whatever follows it |
| Framing.EncodedBytes | features/forkserver/config.h:33-39 | The four commands as bytes: words 1 to 4, the timeout's followed by eight bytes |
| Framing.DecodeEncodeAll | features/forkserver/benchmark_client.cc:105-138 | Round trip for command lists, with any unfinished tail left over |
| Framing.ServedAsSent | features/forkserver/forkserver.c:404-437 | The executions the daemon derives from the bytes, with their settings, are those of the client's list; unknown words change nothing |
| Framing.FoldMeans | features/forkserver/forkserver.c:404-442 | After any commands the settings hold the redirections asked for, the timeout set last, and the id |
| ForkServer.StepKeepsInv | features/forkserver/forkserver.c:258-442 | Every step of every participant keeps the protocol invariant |
| ForkServer.AlwaysInv | features/forkserver/forkserver.c:258-442 | So every interleaving satisfies it |
| ForkServer.OneReplyPerExecute | features/forkserver/forkserver.c:258-442 | Main safety result: the k-th execution runs under the settings folded from the commands before the k-th Execute, in a process of its own; the k-th reply says how that very process ended, which the environment recorded when it died: no error, the exit code and no signal, or the signal number in both fields; it comes after that end; at most one process is unreaped and none while a command is awaited; when nothing is in flight all are answered |
| ForkServer.EndsAreDeaths | features/forkserver/forkserver.c:100-122 | The record of ends grows by exactly the deaths of running processes, by exit, by a signal, or by SIGKILL from the timeout handler, and what it holds never changes |
| ForkServer.RedirectedOutputIsSilent | features/forkserver/forkserver.c:404-442 | When the first command asks for the files, the pipes stay empty whatever the children write |
| ForkServer.ReplyTellsStatus | features/forkserver/forkserver.c:344-361 | The reply's three fields for an exit and for a death by signal; they determine how the child ended |
| ForkServer.ClientReadsEnds | features/forkserver/forkserver.c:344-361 | So a client reads every end from its reply in every run |
| Progress.StepMeasure | features/forkserver/forkserver.c:283-372 | No step moves the reply further away and each clock tick, signal delivery or daemon step brings it nearer; stops and interruptions never produce a reply |
| Progress.UsefulStepOrStuck | features/forkserver/forkserver.c:283-372 | Such a step is possible exactly when the daemon is not waiting, disarmed, for a child that still runs; with a timeout it always is |
| Progress.ReplyIsInevitable | features/forkserver/forkserver.c:283-372 | Main liveness result: before the reply there is room for at most 2 * timeout + 8 such steps, and under a non-zero timeout another is always possible, whatever the child does |
| Progress.StuckAfterArming | features/forkserver/forkserver.c:285-302 | Arming the timer for a live child leaves the daemon without a useful step exactly when the timeout is zero |
| Progress.StuckNeverReplies | features/forkserver/forkserver.c:315-372 | From there no run brings a reply unless the child ends by itself |
| Progress.StuckIsReachable | features/forkserver/forkserver.c:285-302 | A client that sets a zero timeout and asks for an execution can get the daemon there |
| Progress.AlarmComesAtTimeout | features/forkserver/forkserver.c:285-302 | From one arming to the next, if no signal was pending, the handler runs only after as many ticks as the timeout says, and then the signal is there; without a timeout never |
| Daemon.ForkServerDaemon.ExecutePUT | features/forkserver/forkserver.c:258-373 | The wait loop answers with the first death among the wait results, skipping interruptions and stops: error zero, exit code or signal number, signal number or zero |
| Daemon.ForkServerDaemon.Serve | features/forkserver/forkserver.c:404-442 | The command loop executes the decoded commands' settings in order and answers them with the successive deaths, stopping only where the stream or the deaths run out |
| Daemon.ServedReplies | features/forkserver/forkserver.c:344-361 | So the replies to a served stream say field by field how the successive children ended |
| Daemon.ServingAdvances | features/forkserver/forkserver.c:404-442 | The loop's invariant over one command |
| BenchmarkClient.Client.SetPUTExecutionTimeout | features/forkserver/benchmark_client.cc:135-138 | The two writes are one encoded command |
| BenchmarkClient.Client.ExecutePUT | features/forkserver/benchmark_client.cc:120-133 | One request is written and the oldest response taken; the assertion holds exactly when there is one and it reports no error |
| BenchmarkClient.Client.Run | features/forkserver/benchmark_client.cc:172-208 | The benchmark writes its id, the encoding of its configuration, and n executions plus a tenth for warming up above ten; it gets through exactly when that many good responses come, and otherwise stops at the request whose response is missing or bad |
| BenchmarkClient.BenchmarkIsServed | features/forkserver/benchmark_client.cc:99-208 | End to end: the daemon reads that id and decodes exactly the executions requested, each under 40 ms and the redirections of the test |
| Executor.MoveKeepsInv | src/utils/executor.cpp:184-253 | Every move of the executor, the daemon, the timer and the children keeps the session invariant |
| Executor.OutputIsConserved | src/utils/executor.cpp:184-253 | Main result: for every interleaving the k-th call returns how the k-th child ended, field by field, and exactly the bytes it wrote to each pipe, in order, and between calls the pipes are empty |
| Executor.StdinIsStable | src/utils/executor.cpp:279-294 | Main result: while a child exists it belongs to the latest call, reads standard input from the file, and the file holds exactly that call's input |
| Executor.FileCallsBytewise | src/utils/executor.cpp:279-294 | Writing at an offset and truncating, byte by byte |
| Executor.ChildrenRunUnder | src/utils/executor.cpp:122-135 | Every child runs under the executor's id 1, with 20 ms, standard input from the file and output to the pipes |
| CallRun.CallCanReturn | src/utils/executor.cpp:184-294 | For every input, output up to one chunk and exit code there is a run in which the call returns that output and code |
| CallProgress.ReplyArrives | src/utils/executor.cpp:184-253 | Main liveness result: from the sending of a call's command there is room for at most 2 * 20000 + 25 moves that read the command or bring its reply nearer, and until the reply is written another one is possible, whatever the child does |
| CallProgress.CallReturns | src/utils/executor.cpp:198-249 | Once the reply is written the child is gone: at most one useful move per byte in the pipes and two more remain, and until the call returns another one is possible |
| CallProgress.CallNeverHangs | src/utils/executor.cpp:198-249 | In every reachable state a call under way has a useful move |
| ExecutorCall.ExecutorState.WriteTestcaseToStdin | src/utils/executor.cpp:279-294 | Rewinding, writing and truncating leaves exactly the test case, whatever the file held |
| ExecutorCall.Poll | src/utils/executor.cpp:198-249 | The loop collects every chunk up to the first empty wait after a reply, and returns the last reply |
| ExecutorCall.ExecutorState.Call | src/utils/executor.cpp:184-253 | One call writes the input, then the command, then polls |
| ExecutorCall.SessionFollowsLoop | src/utils/executor.cpp:198-249 | The buffers of a session during a call are those of the loop fed with what it sees, so the main results hold of the loop |
| IjonHash.XorShiftInverse | features/ijon/ijon-llvm-rt.o.c:116-121 | x ^ (x >> k) on w bits is undone by y ^ (y >> k) ^ (y >> 2k), in either order, when w is at most 3k |
| IjonHash.MulInverse | features/ijon/ijon-llvm-rt.o.c:116-121 | Multiplications modulo 2^64 by factors with product 1 + t * 2^64 undo each other |
| IjonHash.HashIsBijective | features/ijon/ijon-llvm-rt.o.c:116-121 | Main result: the mixer permutes the 64-bit words; both compositions with the given inverse are the identity |
| IjonHash.Mix | features/ijon/ijon-llvm-rt.o.c:116-121 | The three assignments of the routine compute the mixer |
| IjonHash.HashFormula | features/ijon/ijon-llvm-rt.o.c:116-121 | The mixer in quotients by 2^30, 2^27 and 2^31 and products with the two constants modulo 2^64 |
| IjonHash.OnePairPerHalf | features/ijon/ijon-llvm-rt.o.c:126-129 | For every hash value and every discarded half there is exactly one (old, val), and the lemma names it |
| IjonHash.CollisionNeedsTruncation | features/ijon/ijon-llvm-rt.o.c:126-129 | Hash and discarded half together are injective in (old, val) |
| IjonHash.HashMem | features/ijon/ijon-llvm-rt.o.c:133-139 | The loop is the left fold of the hash over the sign-extended bytes, seeded with the length |
| IjonHash.CharIsSigned | features/ijon/ijon-llvm-rt.o.c:133-139 | A byte's word is its sign extension |
| IjonHash.HashStr | features/ijon/ijon-llvm-rt.o.c:130-132 | A string's hash covers exactly the bytes before its first NUL |
| IjonHash.HashAllAppend | features/ijon/ijon-llvm-rt.o.c:135-138 | The fold over a concatenation continues the fold over its first part |
| IjonState.StateTelescopes | features/ijon/ijon-llvm-rt.o.c:71-79 | Main result: after any pushes and xors with a map of 2^k entries the state is (first state ^ first log ^ last log ^ xor arguments) mod 2^k |
| IjonState.StateIsLastTwoPushes | features/ijon/ijon-llvm-rt.o.c:75-79 | With the default map and zero registers the state is made of the low bytes of the last two pushed values |
| IjonState.ContextIsTransparent | features/ijon/ijon.h:56 | With 2^k entries, xoring a hash before and after any state calls leaves the registers as the calls alone would |
| IjonState.PowerOfTwoRestores | features/ijon/ijon.h:56 | With 2^k entries and a state below that, every nesting of contexts among any other state calls acts as the calls without the contexts; contexts alone restore the registers |
| IjonState.OtherSizeForgets | features/ijon/ijon.h:56 | For the size 2^j + r with 0 < r < 2^j, one context of hash 2^j turns the state r into 2^j |
| IjonState.ContextsRestoreIffPowerOfTwo | features/ijon/ijon.h:56 | Main result: contexts change nothing, for every nesting, hashes, calls among them and state below the map size, if and only if the size is a power of two |
| IjonMaps.LayoutIsSound | features/ijon/ijon-llvm-rt.o.c:179-244 | For all three optional sizes a mapped region has the size asked for and the others the initial one; area, counters and max slots follow in this order and tile the front of the segment; the max region meets no other; area and counters share memory exactly when neither is mapped; there is a max slot exactly unless one to seven bytes are given |
| IjonMaps.CallsStayInside | features/ijon/ijon-llvm-rt.o.c:81-98 | After any calls no byte outside the counter and the max region has changed |
| IjonMaps.SlotHoldsGreatest | features/ijon/ijon-llvm-rt.o.c:81-90 | Main result: after any calls a max slot, read as eight bytes, is the greatest of its initial value, the max values and the complemented min values addressed to it |
| IjonMaps.SlotsIgnoreOrder | features/ijon/ijon-llvm-rt.o.c:81-90 | Call sequences with the same calls, in any order and multiplicity, leave the same slots |
| IjonMaps.SlotHoldsSmallest | features/ijon/ijon-llvm-rt.o.c:87-90 | A fresh slot addressed by min calls only holds the complement of the smallest value |
| IjonMaps.CounterCountsHits | features/ijon/ijon-llvm-rt.o.c:92-94 | A counter that no set call meets is its initial value plus its hits mod 256, a hit told from the calls alone: the address xored with what the state calls before it have made of the state, modulo the size; max and min calls and other counters' calls never disturb it |
| IjonMaps.SetMarksCounter | features/ijon/ijon-llvm-rt.o.c:96-98 | A set call sets the low bit of the counter at address xor state modulo the size, keeps its other bits, and changes no other counter, slot or register |
| IjonMaps.StatesMeetDifferentCounters | features/ijon/ijon-llvm-rt.o.c:92-94 | With 2^k counters, one address meets different counters in different states |
| IjonMaps.SharedXorMeetsSameCounter | features/ijon/ijon-llvm-rt.o.c:71-94 | With 2^k counters, xoring the same value into state and address meets the same counter |
| IjonMaps.RegistersIgnoreMaps | features/ijon/ijon-llvm-rt.o.c:71-98 | The registers depend on the state calls only, so the state results hold between map calls |
| IjonMaps.ContextAroundCalls | features/ijon/ijon.h:56 | With 2^k counters, a context around any runtime calls leaves registers and max slots as the calls alone would |
| IjonRuntime.IjonGlobals.MapShm | features/ijon/ijon-llvm-rt.o.c:179-244 | The mapping installs that layout, sets the first area byte and nothing else, and leaves every index of every entry point in range exactly unless the max region has one to seven bytes |
| IjonRuntime.IjonGlobals.PushState | features/ijon/ijon-llvm-rt.o.c:75-79 | The globals change as in the model; the memory does not |
| IjonRuntime.IjonGlobals.XorState | features/ijon/ijon-llvm-rt.o.c:71-73 | The same for one xor |
| IjonRuntime.IjonGlobals.MapInc | features/ijon/ijon-llvm-rt.o.c:92-94 | In-place increment refines the model's call |
| IjonRuntime.IjonGlobals.MapSet | features/ijon/ijon-llvm-rt.o.c:96-98 | In-place set refines the model's call |
| IjonRuntime.IjonGlobals.Max | features/ijon/ijon-llvm-rt.o.c:81-85 | In-place max on eight bytes refines the model's call |
| IjonRuntime.IjonGlobals.Min | features/ijon/ijon-llvm-rt.o.c:87-90 | Min through the complement refines the model's call |
| IjonRuntime.IjonGlobals.Context | features/ijon/ijon.h:56 | A context around an expression that makes any runtime calls refines the model's calls, and with 2^k counters the registers end as the expression alone would leave them |
| JpegWalk.NewHandlers | put/exifutil/exifutil.c:260-274 | The default table skips by length everywhere except at SOS |
| JpegWalk.JpegFile.SkipSegment | put/exifutil/exifutil.c:672-686 | The default handler moves the file by the big-endian length, counted from the length field, so lengths 0 and 1 seek backwards; it fails when the field is cut off |
| JpegWalk.JpegFile.SkipSos | put/exifutil/exifutil.c:287-331 | The scan loop stops where the specification says, or fails when there is no such place |
| JpegWalk.NextStopIsFirst | put/exifutil/exifutil.c:303-326 | That place is q if and only if q is the first FF, at or after the start, followed by a byte other than 00 and D0 to D7 |
| JpegWalk.NoStop | put/exifutil/exifutil.c:303-330 | The scan fails if and only if there is none |
| JpegWalk.JpegFile.Walk | put/exifutil/exifutil.c:187-243 | The walk terminates on every file and table with the specified exit, result and handler calls; the end-of-file flag is never set when its loop tests it |
| JpegWalk.WalkIsSound | put/exifutil/exifutil.c:187-243 | For every file and table the walk goes from marker to marker, by two bytes over FF D8 and as far as the handler says over any other; the bytes where it stops decide the exit, `EndOfImage` exactly for FF D9 behind an SOI; handlers are called only right behind markers of their code, each at least two bytes further on; the exit behind the loop is never taken; the result is false exactly without a leading SOI or after a failing handler |
| JpegWalk.OneExit | put/exifutil/exifutil.c:187-243 | The bytes at the last place admit one exit only |
| JpegWalk.EntropyHasNoStop | put/exifutil/exifutil.c:303-326 | The scan passes over any byte-stuffed data with restart markers and stops at the marker behind it |
| JpegWalk.WalkSerialized | put/exifutil/exifutil.c:187-243 | Main result: writing any segments, scans with stuffed bytes and restart markers D0 to D7 behind DA included, between FF D8 and FF D9 with anything behind, and walking the bytes calls exactly their handlers, in order, at their offsets, and returns true at that EOI |
| ByteOrder.Swap16Reverses | put/exifutil/exifutil.c:126-130 | The 16-bit swap reads the two bytes in the opposite order |
| ByteOrder.Swap32Reverses | put/exifutil/exifutil.c:132-138 | The 32-bit swap reads the four bytes in the opposite order |
| ByteOrder.Swap64ReversesIff | put/exifutil/exifutil.c:140-150 | The 64-bit routine reverses eight bytes if and only if bytes 4 and 5 are zero |
| ByteOrder.Swap64IsShifts | put/exifutil/exifutil.c:140-150 | The routine's result as the eight masked and shifted bytes, combined by or |
| TiffEntry.ConvertReverses | put/exifutil/exifutil.c:562-567 | The conversions reverse each field of the entry and nothing else |
| TiffEntry.ReadsInline | put/exifutil/exifutil.c:374-378 | For values inside the entry the swap back undoes the conversion |
| TiffEntry.Rejections | put/exifutil/exifutil.c:344-386 | An unknown type and values that end beyond the segment are refused |
| TiffEntry.LeavesBufferIff | put/exifutil/exifutil.c:361-451 | Exactly which entries read outside the buffer: those that pass the bounds test although their size, or their end when not inline, overflows 32 bits, unless a NUL in the buffer stops a string |
| TiffEntry.CountWrapsAround | put/exifutil/exifutil.c:361-378 | The instance: a SHORT entry of 0x80000001 values is inline by its size and always reads outside a buffer of less than 2^32 bytes |
| TiffEntry.ReadsStayInside | put/exifutil/exifutil.c:361-451 | When the size does not overflow 32 bits, nor the end of values that are not inline, reading any entry stays inside the buffer |
| TiffEntry.EntryRoundTrip | put/exifutil/exifutil.c:336-455 | In either byte order, for every type and count, inline or not, the reader gets the writer's values (strings up to their NUL) if and only if they are not big-endian doubles with bytes the 64-bit swap loses |
| TiffEntry.EntryByteOrder | put/exifutil/exifutil.c:336-455 | Main result: the two encodings of an entry of any other type decode alike, to what was written |
| TiffWriter.EncoderIsWriter | put/exifutil/exifutil.c:63-65 | The encoder of the round trips, its sizes included, is the writer of TIFF 6.0 section 2: one byte for types 1, 2, 6, 7, two for 3, 8, four for 4, 9, 11, two times four for 5, 10, eight for 12 |
| TiffWriter.WriterRoundTrip | put/exifutil/exifutil.c:336-455 | For each of the twelve types, from the bytes the standard prescribes, the reader gets the type, count and values (strings up to their NUL) if and only if no big-endian double loses bytes |
| TiffWriter.WriterByteOrder | put/exifutil/exifutil.c:336-455 | Main result: written in either byte order, an entry that is not a double reads alike |
| TiffRoundTrip.IfdRoundTrip | put/exifutil/exifutil.c:536-607 | Main result: whatever tree of directories, with entries, child directories behind the three pointer tags and links, a writer lays out without overlaps in either byte order, the reader, which converts each entry in the buffer it reads from, gets to the end, changes no byte outside the tables, and shows all tags and values in order if and only if no big-endian double loses bytes |
| TiffRoundTrip.IfdByteOrder | put/exifutil/exifutil.c:536-607 | Main result: without doubles both encodings of such a tree show the same tags and values |
| TiffDirectory.FuelSuffices | put/exifutil/exifutil.c:573-607 | The bound on the depth of calls does not matter once it suffices: more of it changes neither the result nor the buffer |
| TiffDirectory.LinkToItselfNeverEnds | put/exifutil/exifutil.c:596-607 | No bound suffices for an empty directory that links to itself |
| TiffDirectory.RefusedIff | put/exifutil/exifutil.c:543-560 | A directory is refused exactly if it starts in the last four bytes, an entry exactly if it ends at or beyond the length |
| TiffDirectory.ChildResultIgnored | put/exifutil/exifutil.c:573-585 | Whatever a child directory's reading returns, its parent goes on; only what does not return ends it |
| TiffReader.Be16ToCpu | put/exifutil/exifutil.c:126-130 | Load, swap and store reverses two bytes of the buffer and nothing else |
| TiffReader.Be32ToCpu | put/exifutil/exifutil.c:132-138 | The same for four bytes |
| TiffReader.CopyNumbers | put/exifutil/exifutil.c:399-443 | The copying loops produce the numbers of the model |
| TiffReader.CopyString | put/exifutil/exifutil.c:445-451 | The string loop copies up to and including the first NUL, or the whole count |
| TiffReader.ReadEntryInPlace | put/exifutil/exifutil.c:336-455 | Reading an entry returns the model's result and leaves the model's buffer |
| TiffReader.EntryInPlace | put/exifutil/exifutil.c:553-593 | One entry is converted, read and then shown or, for a pointer tag, asserted to be one LONG and followed, as in the model |
| TiffReader.ReadIfdInPlace | put/exifutil/exifutil.c:536-607 | Reading directories in place, by the loop and the calls of itself, shows what the model shows, stops where it stops and leaves the model's buffer |

## Left out

- The Python driver, its metadata and the assembly of environments and arguments: no logic of its own.
- LLVM plugin registration, metadata, thread-local storage, section and symbol names, and the text the edge list is written as.
- Indirect calls, exceptions, `longjmp`, threads, and a program that exits in the middle of a block.
- The place where LLVM puts a split block in the function: the model appends it, so numbers of later blocks can differ from LLVM's.
- BlockIds.AssignIds: does not model unset variables, because the driver sets them, nor an unknown selection string, for which the code calls an empty function object.
- BlockIds.NumberBlocks: says of RANDOM numbers only that they stay below the map size; collisions are up to the generator, and the results that need distinct numbers assume them.
- NodeCounts.BitmapGivesEdgeCounts: counters that wrapped or saturated say less, and HASHED_EDGE counters are not inverted.
- Failing system calls, `fork`, `execve`, opening the redirection files, and the executor's and daemon's handshake beyond the executor's id.
- The first run's window before the SIGALRM handler is installed, and which run's timer killed a child: the old timer is not cancelled when a child ends early.
- Daemon death, end of file and hang-up events on the executor's side, and liveness while a client waits for a dead daemon. That the possible useful moves are made is up to the scheduler.
- The contents of the files that SaveStdoutStderr redirects to, output of the daemon itself, and processes the child leaves behind.
- ExecutorCall.ExecutorState.WriteTestcaseToStdin: writes are complete; a short `write` is not modelled.
- Executor.StdinIsStable: speaks of the file while a child exists, not of how much of it the child has read.
- IJON stack hashes, string and memory distances, the feedback mask, which nothing reads here, and the line and file names the macros hash.
- IjonMaps.CounterCountsHits: says nothing of a counter that a set call meets, because set and increment do not commute; `IjonMaps.SetMarksCounter` says what one set call does.
- IjonRuntime.IjonGlobals.MapShm: takes the parsed sizes; reading the variables and the exits for malformed ones are not modelled.
- Fill bytes before JPEG markers, which the walker does not skip, and the APP1 handler of the sample program.
- TiffRoundTrip.IfdRoundTrip: the printed text is not modelled, a shown value is a tag with its data; `fuel` bounds the depth of calls, so for directories that lead round for ever the model says that every bound runs out, not what an exhausted stack does.
- TiffEntry.EntryRoundTrip: FLOAT and DOUBLE values are bit patterns.
- TiffReader.CopyNumbers: one loop stands for the three in the code; a rational counts as two numbers.
- TiffReader.ReadEntryInPlace: where the C code would read outside the buffer the model stops with `Undefined`.
