# Paradyn: the generated RPC code and the daemon, verified

Paradyn measures running programs. A front end and a daemon on each machine talk through code that the interface
compiler `igen` generates; the daemon compiles metric definitions to instrumentation, puts it into processes, and sends
back samples. This project models the parts of that system that carry state or change meaning, and proves what they
promise. `dafny verify dfyconfig.toml` checks all of it.

**The RPC protocol** (`RpcTypes`, `RpcEndpoint`, `RpcProtocol`, `RpcSafety`, `RpcRuns`, `RpcProgress`, `RpcData`). What
matters is the code `igen` emits for its `xdr` message layer, not the text it prints. `RpcEndpoint` is the receiving
half of a generated class: the asynchronous buffer with its head index, `awaitResponse`, `wait_for`, `waitLoop` and
`process_buffered`. `RpcProtocol` is a client and a server joined by two FIFO channels, as a state machine whose steps
interleave freely; handlers may call stubs and wait again. `RpcSafety` keeps one invariant through every step, and
`RpcRuns` states the results over whole runs: the only reply a blocked call can meet is its own, delivery is exactly
once, the handshake comes first, and order is kept under the drain discipline and lost exactly when a buffered message
is overtaken. `RpcProgress` says exactly when a blocked call can still get its reply. `RpcData` follows the data, on the
steps of the run alone: what each handler is started with, and what each synchronous call returns.

**The metric-language back end** (`Snippets`, `MdlCompile`, `MdlInstr`, `MdlSense`, `MdlTimers`, `MdlMeaning`,
`MdlCost`, `MdlRequests`, `MdlCallSites`). `Snippets` gives instrumentation snippets a run-time meaning on 32-bit
integers, with the timers of the run-time library and their three clocks. `MdlCompile` holds the daemon's interpreter
for expressions, its compiler, and a third, independent meaning that both are proved against. `MdlTimers` says what
compiled timer functions make of a timer, and `MdlSense` exactly which expressions and statements are accepted.
`MdlInstr` is the generator for instrumentation statements, with its loops. `MdlMeaning` proves that generated code
means what its statement says although the generator silently adds cost accounting, and `MdlCost` proves that this
accounting never over-charges. `MdlRequests` carries both over to every request of any statement, through its loops,
tests and blocks. `MdlCallSites` is the in-place filter behind `.calls`.

**The marshaller** (`MarshalTypes`, `Marshal`): type tables with single inheritance, class ids and receiver cases, and
the round trip of structs, vectors, nullable pointers and polymorphic class pointers.

**Bookkeeping in the daemon** (`CodeNodeCache`, `ConstraintSharing`, `ConstraintRuns`, `ConstraintFocus`,
`PapiSlots`, `HwEvents`, `Batching`, `CostMetric`, `InternalMetric`): the reference-counted cache of code nodes, the
decision to share constraints and what becomes of it over the life of a daemon, whose nodes the metrics of each process
get, the hardware-counter slots and the nodes that own their events, the sample and trace buffers, and the accounting of
cost and pause time. Each of these has its state changes as functions, the invariants and conservation laws as lemmas
about them, and a class whose methods, with the loops of the original, are proved to make exactly those changes;
`ConstraintRuns`, `ConstraintFocus` and `HwEvents` are about runs of a daemon.

Where the code falls short of what one would expect of it, the code is modelled as it is, the exact condition is proved,
and a run or an input that fails is given:

- A server inside `wait_for` fails on a synchronous request or a verification that comes first
  (`RpcRuns.ServerStopsExactly`, `RpcRuns.ServerStopsRun`); its client then waits for ever, as it does when a server
  waits for something nobody sends (`RpcProgress.BlockedCallResumesIff`, `RpcProgress.BlockedForEver`).
- Taking a message from the middle of the buffer, or reading in `waitLoop` while messages are buffered, breaks arrival
  order for good (`RpcRuns.OrderOverRuns`, `RpcRuns.UpcallOvertakenRun`; `RpcRuns.CallOrderOverRuns`,
  `RpcRuns.CallOvertakenRun`).
- The `.calls` filter removes one call site for each excluded name of a callee, and so removes unrelated ones, or runs
  past the vector, when a callee has two (`MdlCallSites.SweepIsExactIff` for all lists over some callees,
  `MdlCallSites.SweepExactly` for one list, `MdlCallSites.AliasLosesUnrelated`).
- Inherited fields are not transferred: for each field of an ancestor the emitter sends one of the class's own fields
  again (`Marshal.RoundTrip`, `Marshal.InheritedFieldIsLost`).
- Deleting a code node that was never registered removes the dictionary entry of a registered node with the same key
  (`CodeNodeCache.FoundUnlessDropped`, `CodeNodeCache.StrayCopyDrops`).
- The handle on a cached constraint node that is not shared is never given back (`ConstraintSharing.AttachLeaksIff`, and
  over runs `ConstraintRuns.HandlesAccounted` and `ConstraintRuns.NeverFreed`; `ConstraintRuns.LeakingLife`).
- A metric whose set-up fails leaves its exclusion list in force for the next one, which then instruments constraints
  with foreign addresses. `ConstraintRuns.ListEmptyIff` says after which runs a list is left, and
  `ConstraintRuns.AttachesOwnIff` when an attachment gets its own addresses, in any state: nodes made under a foreign
  list stay in the cache. For a constraint not yet instrumented this comes to the empty list
  (`ConstraintRuns.OwnAddressesIff`; `ConstraintRuns.ForeignListLife` goes wrong), and over lives in which every set-up
  begins with one, sharing is sound (`ConstraintRuns.SharingIsSound`).
- Removing a hardware event that never became active does not lower the count of added events, so counters are lost for
  good (`PapiSlots.RunConserves`, `PapiSlots.CyclesExhaust`, `PapiSlots.ExhaustedForever`).
- A node copied for a forked process points to its parent's hardware event, and both delete it; unless the first
  deletion emptied the slot, the second takes a reference that is another node's or not there
  (`HwEvents.GoodThroughoutIff`, `HwEvents.ForkBreaksSlotsIff`; `HwEvents.ForkTakesEventAway`).
- A batch of traces is sent for the program of its last trace, whatever the programs of the others
  (`Batching.ReportedRightIff`, `Batching.MixedBatch`). The daemon itself submits every trace for program 0
  (paradynd/src/perfStream.C:221, paradynd/src/machineMetFocusNode.C:161), so that it is not affected
  (`Batching.OneProgramIsRight`).

## Model

| member | source | states |
|---|---|---|
| `RpcTypes.ArmsByKind` | igen/src/remote_func.C:386-490 | for each kind of message: each side handles exactly the requests made to it, and buffers exactly the asynchronous ones of them |
| `RpcTypes.TagCodeInjective` | igen/src/interface_spec.C:285-293 | the numbers of the message tags identify the tags and stay below the error tag |
| `RpcTypes.TagCodesInTurn` | igen/src/interface_spec.C:285-293 | the verification has the base number, each function then two consecutive numbers, in order, and the error tag the next one |
| `RpcEndpoint.ExtractRemovesOne` | igen/src/interface_spec.C:1018-1032 | taking an entry out of the buffer removes one occurrence of exactly that entry, and keeps the order of the others when it was the oldest or the newest |
| `RpcEndpoint.ExtractFillsHole` | igen/src/interface_spec.C:1025-1030 | the place of an entry in between goes to the last one; all others keep theirs |
| `RpcEndpoint.AwaitTakesTheFirst` | igen/src/interface_spec.C:1065-1142 | awaiting a tag buffers, in order, exactly the messages before the first one that is the target or cannot be buffered, and leaves everything behind it unread |
| `RpcEndpoint.Endpoint.BufferedRequests` | igen/src/interface_spec.C:164-168 | true exactly if the abstract queue is not empty |
| `RpcEndpoint.Endpoint.IsBuffered` | igen/src/interface_spec.C:188-192 | true exactly if a message with the tag is in the abstract queue |
| `RpcEndpoint.Endpoint.DeleteBuffer` | igen/src/interface_spec.C:1015-1060 | takes the entry out of the abstract queue before its handler runs, finds an arm for it, passes its own assertion, and keeps the buffer empty exactly when the head is reset |
| `RpcEndpoint.Endpoint.ProcessBuffered` | igen/src/interface_spec.C:960-972 | hands over the oldest buffered message, or reports that there is none |
| `RpcEndpoint.Endpoint.AwaitResponse` | igen/src/interface_spec.C:1089-1137 | the receive loop computes AwaitIn on the incoming stream and appends what it saved to the queue; it ends in the error state exactly if it does not find its target |
| `RpcEndpoint.Endpoint.WaitLoop` | igen/src/interface_spec.C:1144-1190 | reads one message and dispatches it if it has an arm; fails on an empty stream or a message without an arm |
| `RpcEndpoint.Endpoint.SwitchOn` | igen/src/interface_spec.C:1280-1307 | dispatches exactly the requests this side handles, answers a verification on the server, and fails on anything else |
| `RpcEndpoint.Endpoint.WaitFor` | igen/src/interface_spec.C:1314-1327 | prefers the first buffered message with the tag, and otherwise reads until one arrives, buffering what comes before |
| `RpcProtocol.OccursExtract` | igen/src/interface_spec.C:1018-1032 | removal from the middle of the buffer keeps the count of every other message |
| `RpcSafety.KindsKept` | igen/src/remote_func.C:603-762 | no channel, buffer or handler stack ever holds a message that does not belong there |
| `RpcSafety.ModesKept` | igen/src/interface_spec.C:1129-1137 | no step takes a client into the error state, and a server only on a synchronous request or a verification |
| `RpcSafety.OneCallKeptByTaking` | igen/src/remote_func.C:73-160 | the server's taking of a message, to serve, save or lose it, keeps the count of the messages of a synchronous call at one |
| `RpcSafety.OneCallKeptByServer` | igen/src/remote_func.C:73-160 | the server's sending, returning and answering keep that count |
| `RpcSafety.HandshakeKept` | igen/src/interface_spec.C:585-672 | every step keeps the stage of the handshake consistent on both sides and in both channels |
| `RpcSafety.FirstIsVerifyKept` | igen/src/remote_func.C:641-652 | every step keeps the verification reply the first and only one of its kind among the server's messages, also when it is sent from inside the first upcall stub |
| `RpcSafety.UpcallsKept` | igen/src/interface_spec.C:1015-1060 | every step keeps each upcall in exactly one of channel, buffer and dispatched |
| `RpcSafety.CallsKept` | igen/src/interface_spec.C:1015-1060 | every step keeps each asynchronous call in exactly one of channel, buffer and dispatched |
| `RpcSafety.HeadWhileAwaiting` | igen/src/interface_spec.C:1116-1133 | while a client waits for a reply, the next message is an upcall or the reply to its own call |
| `RpcSafety.NoReplyUnlessAwaiting` | igen/src/interface_spec.C:1280-1297 | a client that is not waiting for a reply never meets one |
| `RpcSafety.StepKeepsInv` | igen/src/interface_spec.C:945-1327 | every step of either side, in any interleaving, keeps the whole invariant |
| `RpcRuns.ReachableInv` | igen/src/interface_spec.C:945-1327 | the invariant holds after every run of a client and a server |
| `RpcRuns.BlockedCall` | igen/src/interface_spec.C:1086-1138 | in every interleaving a client blocked in a synchronous call has exactly one message of such a call outstanding, its own, and everything else in its channel can be buffered, so awaitResponse never reaches its default arm and the only reply it can meet is its own |
| `RpcProgress.AwaitIsReceiving` | igen/src/interface_spec.C:1089-1137 | the loop inside awaitResponse, on either side and whether for a reply, for the verification or in wait_for, is a sequence of the protocol's receive steps: they save what the loop saves and start no handler, and the message that ends the loop has the effect its outcome says |
| `RpcProgress.BlockedCallResumesIff` | igen/src/interface_spec.C:1086-1190 | in every reachable state with the client blocked in a synchronous call, some continuation brings it back if and only if its reply is on the way, or the server runs, or is in its loop with a message to read, or is in wait_for and finds its target before a message it cannot buffer; otherwise it stays blocked in every continuation |
| `RpcProgress.BlockedForEver` | igen/src/interface_spec.C:1314-1327 | a run after which a client is blocked and nothing at all can happen |
| `RpcRuns.ExactlyOnce` | igen/src/interface_spec.C:1015-1060 | over a whole run the asynchronous messages sent are, as multisets, those in the channel, those buffered and those dispatched, and no message is sent twice |
| `RpcRuns.VerifyComesFirst` | igen/src/interface_spec.C:585-672 | the first server message of a run answers the verification and no later one does; no upcall precedes it; a client that is up has its answer |
| `RpcRuns.ServerStopsExactly` | igen/src/interface_spec.C:1314-1327 | a receiving server ends in the error state if and only if it is inside wait_for and meets a synchronous request or the verification instead of its target |
| `RpcRuns.ServerStopsRun` | igen/src/interface_spec.C:1129-1137 | a run that gets there: the server waits for an asynchronous call and the client makes a synchronous one |
| `RpcRuns.ServerNeverStops` | igen/src/interface_spec.C:1144-1190 | a server that does not use wait_for never ends in the error state |
| `RpcRuns.OrderExactly` | igen/src/interface_spec.C:945-1033 | a step keeps upcalls in order if and only if it does not overtake a buffered one |
| `RpcRuns.OrderOverRuns` | igen/src/interface_spec.C:945-1033 | after a whole run upcalls are in order if and only if no step of the run overtook a buffered one; a broken order is never mended |
| `RpcRuns.UpcallOvertakenRun` | igen/src/interface_spec.C:1144-1190 | a run that overtakes: an upcall is buffered during a synchronous call, and the client then reads the next one in its loop without draining |
| `RpcRuns.DispatchedInOrder` | paradynd/src/mdl.C:3541-3564 | if the buffer is drained before each waitLoop, upcall handlers start in exactly the order in which the upcalls were sent |
| `RpcRuns.CallOrderExactly` | igen/src/interface_spec.C:945-1033 | a step keeps asynchronous calls in order if and only if it does not overtake a buffered one |
| `RpcRuns.CallOrderOverRuns` | igen/src/interface_spec.C:945-1033 | the same over whole runs |
| `RpcRuns.CallOvertakenRun` | igen/src/interface_spec.C:1314-1327 | a run that overtakes: the server waits for the second of two asynchronous calls |
| `RpcRuns.CallsDispatchedInOrder` | paradynd/src/mdl.C:3541-3564 | under the same discipline on the server, handlers of asynchronous calls start in arrival order |
| `RpcData.SentAsAsked` | igen/src/remote_func.C:73-160 | over a whole run the asynchronous messages sent are those of the run's own call and upcall steps, in order, each with the step's own argument; an upcall may be held back until the verification is answered |
| `RpcData.DoneAsAsked` | igen/src/remote_func.C:386-490 | a message that an asynchronous handler was started with is the one that some call step, or upcall step, of the run asked for |
| `RpcData.HandlersGetWhatWasAsked` | igen/src/interface_spec.C:945-1060 | every handler that starts, of any kind, on either side, starts on the message that an earlier step of the run asked for, with that step's argument |
| `RpcData.CallReturnsResult` | igen/src/remote_func.C:230-284 | whenever the stub of a synchronous call returns a value, an earlier step made the call, the server started a handler with that step's name, number and argument, and the value is the one that the server's own return step for that handler gave; nothing else resumed in between |
| `RpcData.WaitTakesFirst` | igen/src/interface_spec.C:1314-1327 | wait_for gives the first buffered message with the tag to its handler, and waits exactly if there is none |
| `RpcData.HandlersNest` | igen/src/interface_spec.C:1144-1190 | the handlers of a side nest: one that starts goes on top and the side runs it, a return leaves the innermost, and a caller whose stub returns runs on; nothing else changes them |
| `RpcData.ReceivesByKind` | igen/src/interface_spec.C:1065-1307 | in each mode, on either side: the first message of the channel is read whenever there is one, and given to a handler, taken as the awaited reply or verification, answered, saved, or met with the error state, as its kind demands; an upcall that was held back is sent right behind the verification's answer |
| `RpcData.SidesApart` | igen/src/interface_spec.C:945-1327 | a step of one side changes nothing of the other but the channels between them |
| `MdlCompile.InterpretedMeans` | paradynd/src/mdl.C:1100-1286 | what the interpreter computes for an integer expression is what evaluating the expression in the application yields, without effects |
| `MdlCompile.BinaryRuns` | paradynd/src/mdl.C:623-685 | each binary operator becomes the snippet that computes it from the left and the right operand, in this order |
| `MdlCompile.CounterUpdated` | paradynd/src/mdl.C:470-507 | the three counter operations set, raise or lower the counter by the operand, reading the counter before the operand is evaluated |
| `MdlCompile.CompiledMeans` | paradynd/src/mdl.C:522-1098 | compiled code runs to the machine and the value that the expression means, and traps exactly when its evaluation does |
| `MdlCompile.CompiledAllMean` | paradynd/src/mdl.C:873-896 | the arguments of a call are evaluated in order, each on the machine the previous one left |
| `MdlCompile.CompilerAgreesWithInterpreter` | paradynd/src/mdl.C:3084-3233 | whenever interpreter and compiler both succeed on an integer expression, the code yields the interpreter's value and changes nothing |
| `Snippets.TruncDivTruncates` | paradynd/src/mdl.C:3084-3233 | a quotient leaves a remainder that is smaller than the divisor and has the sign of the dividend, and is the only one to do so |
| `Snippets.ThreadsApart` | paradynd/src/mdl.C:470-507 | with threads a counter or timer written by one thread is seen by that thread only; without, by all; and no other changes |
| `MdlCompile.RoutineObeys` | paradynd/src/mdl.C:686-747 | the run-time routine that a timer function is compiled to changes the timer as the function's name says: started or stopped, by the wall clock, or by the process's or with threads the thread's |
| `MdlCompile.ItosIsDecimal` | paradynd/src/mdl.C:559-562 | the number in the name of a constraint variable is the index, in decimal |
| `MdlCompile.ElementExactly` | paradynd/src/mdl.C:559-622 | an indexed list or constraint yields an integer exactly if that is what it holds at the index |
| `MdlTimers.StartRuns` | rtinst/src/RTinst.c:119-205 | compiled code that starts a timer leaves it running, from the present reading of the clock of its kind if it was idle, with what it had measured; nothing else changes |
| `MdlTimers.StopStops` | rtinst/src/RTinst.c:119-205 | compiled code that stops a timer undoes one start; the first one's stop adds the time since on the clock of its kind and leaves the timer idle; it aborts exactly if a process's or thread's clock went back |
| `MdlTimers.Measures` | paradynd/src/mdl.C:717-732 | starting an idle timer and stopping it later adds the time in between on the wall clock, the process's or the thread's |
| `MdlSense.InterpretsExactly` | paradynd/src/mdl.C:1100-1286 | the interpreter yields a value exactly if the expression has it: functions are those the application has, operands are integers, timers are refused; and fails if there is none |
| `MdlSense.CompilesExactly` | paradynd/src/mdl.C:522-1098 | an expression is compiled exactly if it makes sense: its variables hold what its operators need, and the application has the functions, routines and symbols it uses |
| `MdlSense.CallMade` | paradynd/src/mdl.C:873-896 | the compiled call of a function evaluates the arguments, makes exactly that call with their values, and yields what it returns |
| `MdlInstr.ListClosure.Next` | paradynd/src/mdl.C:202-279 | yields the next element that is no name of a function, or the function that it names if the application has it; everything passed over is the name of a function that the application lacks |
| `MdlInstr.BindsExactly` | paradynd/src/mdl.C:202-279 | the values that a loop binds are those of exactly the elements that can be bound, in order and each once: positions increase, and no such element is left out; there is only one such list |
| `MdlInstr.BoundExactly` | paradynd/src/mdl.C:223-250 | a value is bound if and only if it is an element that is no name of a function, or a function that an element names and the application has |
| `MdlInstr.Generator.GenerateCode` | paradynd/src/mdl.C:1678-1709 | the loops over blocks and, backwards, over flags build the code in which the first flag is tested first |
| `MdlInstr.Generator.Apply` | paradynd/src/mdl.C:1644-1737 | applying a statement succeeds exactly if the statement makes sense in its scope, and then appends exactly the requests it stands for, in order |
| `MdlInstr.Generator.ApplyLoop` | paradynd/src/mdl.C:1494-1524 | a for statement declares its variable, visits the elements that can be bound in order, and restores the scope on success |
| `MdlInstr.Generator.ApplyEach` | paradynd/src/mdl.C:1515-1521 | for the values that the elements bind, in order: the rounds of a loop append the requests of the body, one binding after the other, and succeed exactly if all rounds do |
| `MdlSense.AppliesExactly` | paradynd/src/mdl.C:1494-1737 | a statement can be applied exactly if it makes sense: its variable holds a function with such points, its blocks and guards have code, its lists are lists and its tests integers, and so on inside, for every value that its loops bind and wherever its tests hold |
| `MdlSense.BlocksInOrder` | paradynd/src/mdl.C:1715-1737 | a block of statements makes the requests of its statements one after the other |
| `MdlSense.RoundsInOrder` | paradynd/src/mdl.C:1515-1521 | a loop makes the requests of its rounds one after the other |
| `MdlMeaning.MeaningIgnoresCost` | paradynd/src/mdl.C:397-409 | the value and effects of an expression that does not read the cost variable do not depend on it |
| `MdlMeaning.CreateIfIsIf` | paradynd/src/mdl.C:389-449 | the conditional with cost accounting acts as the plain conditional but for the cost variable |
| `MdlMeaning.IcodePreserved` | paradynd/src/mdl.C:1344-1389 | a compiled block acts as the block under its guard |
| `MdlMeaning.IcodesPreserved` | paradynd/src/mdl.C:1344-1389 | the code of a list of blocks runs them in order, each under its own guard |
| `MdlMeaning.FlagsPreserved` | paradynd/src/mdl.C:1690-1710 | code nested under flags acts as the code if all flags are non-zero, and does nothing otherwise |
| `MdlMeaning.StatementPreserved` | paradynd/src/mdl.C:1640-1737 | for any blocks and flags, the generated snippet acts, apart from the cost variable, as: if unconstrained or all flags are non-zero, run the blocks in order |
| `MdlMeaning.RequestsPreserved` | paradynd/src/mdl.C:1726-1734 | every request of an instrumentation statement puts code with the statement's meaning at one of its points, one request for each point |
| `MdlRequests.RequestsArePlaced` | paradynd/src/mdl.C:1494-1737 | the requests of any statement are exactly those of the instrumentation statements inside it, at the points of their kind of the function that their variable holds: under tests that hold, and once for each value that the loops around them bind, which is an element that is no name or a function that is named and exists |
| `MdlRequests.EveryRequestPreserved` | paradynd/src/mdl.C:1494-1737 | the code of every request of any statement acts as the instrumentation statement inside it that asked for it says, in the scope its loops have bound |
| `MdlCost.CompiledIsStraight` | paradynd/src/mdl.C:522-1098 | code of an expression holds no conditional and stores no global |
| `MdlCost.CreateIfCharges` | paradynd/src/mdl.C:404-446 | a conditional adds to the cost variable exactly if its body costs more than five times a store, an operation, a constant and a load; then it adds the body's unconditional cost and that of the store, operation, constant and load |
| `MdlCost.CreateIfIsBuilt` | paradynd/src/mdl.C:404-446 | whatever a conditional leaves unaccounted costs at most five times a load, an addition, a constant and a store; and what it accounts for is the body's unconditional cost plus one such update |
| `MdlCost.StatementIsBuilt` | paradynd/src/mdl.C:1678-1709 | all generated code is built from straight code by sequencing and such conditionals |
| `MdlCost.Accounting` | paradynd/src/mdl.C:381-449 | what a run executes is the code's unconditional cost, plus what it charged, plus what it missed |
| `MdlCost.MissesLittle` | paradynd/src/mdl.C:381-387 | for each body it enters unaccounted, a run misses at most five times the cost of a load, an addition, a constant and a store |
| `MdlCost.CostVariable` | paradynd/src/mdl.C:424-431 | the cost variable rises by exactly what is charged, on 32 bits |
| `MdlCost.CoveredMissesNothing` | paradynd/src/mdl.C:432-436 | nothing is missed if every conditional passes the threshold |
| `MdlCost.NeverOverCharges` | paradynd/src/mdl.C:381-449 | the observed cost of an instrumentation statement's code never exceeds what it executed, falls short by a bounded amount, and with the unconditional cost is exact if every conditional passes the threshold |
| `MdlRequests.EveryRequestNeverOverCharges` | paradynd/src/mdl.C:381-449 | the same for the code of every request of any statement |
| `MdlCallSites.CallVector.Exclude` | paradynd/src/mdl.C:3364-3408 | the in-place loop over a shrinking vector terminates and computes Sweep, telling whether it stayed inside the vector and whether it removed anything |
| `MdlCallSites.SwapOutRemovesOne` | paradynd/src/mdl.C:3395-3403 | overwriting an entry with the last one and shrinking removes exactly one occurrence of that entry |
| `MdlCallSites.SweepFilters` | paradynd/src/mdl.C:3364-3408 | if each callee has at most one excluded name, exactly the call sites of unknown and not excluded callees are left, each as often as before |
| `MdlCallSites.SweepIsExactIff` | paradynd/src/mdl.C:3387-3406 | the sweep is right for every list of call sites over given callees if and only if none of them has more than one excluded name |
| `MdlCallSites.SweepExactly` | paradynd/src/mdl.C:3387-3406 | the sweep of one list is right if and only if each name beyond a callee's first strikes an entry, from the end, that is unwanted anyway, and there are enough of them |
| `MdlCallSites.TwiceExcludedOverruns` | paradynd/src/mdl.C:3395-3403 | a callee with two excluded names makes the sweep of its only call site leave the vector |
| `MdlCallSites.AliasLosesUnrelated` | paradynd/src/mdl.C:3387-3406 | a concrete pair of excluded aliases with which the sweep loses a call site nobody excluded |
| `MarshalTypes.Registry.Define` | igen/src/type_defn.C:443-490 | a definition is refused if its name is taken or its parent undefined, and otherwise becomes the last kid of its parent; parents always precede kids |
| `MarshalTypes.KidsExactly` | igen/src/type_defn.C:443-490 | the kids of a definition are exactly those that name it as their parent, in order of definition |
| `MarshalTypes.DumpKidsOnce` | igen/src/main.C:632-645 | the dumped cases of a class are exactly its proper descendants, each once |
| `MarshalTypes.ClassIdsDiffer` | igen/src/interface_spec.C:261-274 | class ids are distinct |
| `MarshalTypes.ClassIdsInTurn` | igen/src/interface_spec.C:261-274 | the first class has the id base + 2001, and each class the next id after the class before it |
| `Marshal.CasesAreDescendants` | igen/src/type_defn.C:760-770 | a receiver has a case for the class itself unless it is abstract, and one for each descendant, and no other |
| `Marshal.TagSelects` | igen/src/type_defn.C:759-773 | the tag of an object of any admissible class takes the receiver to that class |
| `Marshal.UnknownTagFails` | igen/src/type_defn.C:759-780 | a tag that is no case's id makes the receiver fail |
| `Marshal.ChainClimbs` | igen/src/type_defn.C:789-819 | the ancestors whose fields are transferred are those that the definition inherits from, each the parent of the one before it, up to one without a parent |
| `Marshal.OnTheWire` | igen/src/type_defn.C:646-780 | a pointer starts with 1 if it is null and 0 if not, a class pointer then has the id of the object's class, or of its own if it is null, a vector starts with its length |
| `Marshal.FieldsInOrder` | igen/src/type_defn.C:848-874 | fields are sent one after the other, each as a value of its type |
| `Marshal.SentAgainInOrder` | igen/src/type_defn.C:789-819 | behind an object's fields come, for each ancestor in turn, its own leading fields again, as many as the ancestor declares |
| `Marshal.DecodeLocal` | igen/src/type_defn.C:646-874 | what is received takes up the front of a stream, whatever the stream, and does not depend on what is behind it |
| `Marshal.TruncatedFails` | igen/src/type_defn.C:646-874 | a stream that breaks off anywhere inside a sent value yields nothing |
| `Marshal.Received` | igen/src/type_defn.C:646-874 | receiving what was sent, with anything behind it, yields the value but for inherited fields, and leaves what was behind it; for structs, vectors and pointers |
| `Marshal.ReceivedClassPointer` | igen/src/type_defn.C:712-780 | null and polymorphic class pointers are received as they were sent |
| `Marshal.ReceivedAll` | igen/src/type_defn.C:848-874 | the fields of a struct are received in the order in which they were sent |
| `Marshal.ReceivedAgain` | igen/src/type_defn.C:789-819 | re-reading own fields once for each ancestor's fields restores the same values |
| `Marshal.KeptIff` | igen/src/type_defn.C:798-800 | what the routines leave of a value is the value if and only if nothing in it inherits a field |
| `Marshal.RoundTrip` | igen/src/type_defn.C:646-874 | the round trip yields the value and leaves the rest of the stream if and only if nothing in the value inherits a field |
| `Marshal.InheritedFieldIsLost` | igen/src/type_defn.C:798-800 | a value of a well-formed table, what it looks like on the wire, and that it is received without its inherited field |
| `CodeNodeCache.NewExactly` | paradynd/src/instrCodeNode.C:61-97 | opening fails only for want of a hardware event for a new node, and otherwise yields a new handle on the registered node of that key, or on a new, empty node with that name, focus and flag, registered unless its data is not inserted; nothing else changes |
| `CodeNodeCache.CopyExactly` | paradynd/src/instrCodeNode.C:99-115 | copying yields a new handle on the node registered for the parent's name and the new focus, or else on a new node that is the parent's but for focus, flag and callbacks; nothing else changes |
| `CodeNodeCache.DeleteExactly` | paradynd/src/instrCodeNode.C:259-275 | deleting a handle frees its node exactly if it was the only handle and no callback is outstanding; a node with another handle only loses a reference; no other node changes |
| `CodeNodeCache.CallbackExactly` | paradynd/src/instrCodeNode.C:233-290 | a callback lowers the node's count by one, and takes out the requests at exactly the positions that have the deleted snippet; the others stay, in order |
| `CodeNodeCache.NewKeepsInv` | paradynd/src/instrCodeNode.C:61-97 | opening a node by metric and focus keeps counts, entries and deletions right |
| `CodeNodeCache.CopyKeepsInv` | paradynd/src/instrCodeNode.C:99-115 | copying a node for a forked process does |
| `CodeNodeCache.DeleteKeepsInv` | paradynd/src/instrCodeNode.C:259-275 | deleting a handle does |
| `CodeNodeCache.StepKeepsInv` | paradynd/src/instrCodeNode.C:61-245 | every operation keeps: reference counts equal live handles, entries lead to live, non-pending nodes with that key, and deletion is initiated once |
| `CodeNodeCache.ReachableCacheInv` | paradynd/src/instrCodeNode.C:61-275 | this holds in every reachable state |
| `CodeNodeCache.FreedOnlyUnused` | paradynd/src/instrCodeNode.C:259-275 | a node leaves memory only without handles and without outstanding callbacks, and only in the deletion of its last handle |
| `CodeNodeCache.FoundUnlessDropped` | paradynd/src/instrCodeNode.C:259-275 | nodes in use stay findable under their key if and only if the step does not delete an unregistered node whose key belongs to a registered one |
| `CodeNodeCache.StrayCopyDrops` | paradynd/src/instrCodeNode.C:148-157 | a run that does: a forked copy that its stray flag left unregistered is deleted after a node was registered for its key |
| `CodeNodeCache.CodeNodes.NewInstrCodeNode` | paradynd/src/instrCodeNode.C:61-97 | shares the node found under the key, makes and registers a new one, or fails for want of a hardware event |
| `CodeNodeCache.CodeNodes.CopyInstrCodeNode` | paradynd/src/instrCodeNode.C:99-115 | shares or copies the node of the parent process |
| `CodeNodeCache.CodeNodes.Delete` | paradynd/src/instrCodeNode.C:259-275 | the last handle takes the key out of the dictionary and frees the node unless a callback is outstanding |
| `CodeNodeCache.CodeNodes.InitiateDelete` | paradynd/src/instrCodeNode.C:215-223 | is only reached on a node whose deletion was not initiated |
| `CodeNodeCache.CodeNodes.HandleCallback` | paradynd/src/instrCodeNode.C:234-239 | a callback lowers the count and takes out the requests that have the deleted snippet |
| `CodeNodeCache.CodeNodes.CleanupSnippetHandle` | paradynd/src/instrCodeNode.C:277-290 | the backward loop takes out exactly the requests that have the deleted snippet |
| `ConstraintSharing.KeyIsUnique` | paradynd/src/instrCodeNode.h:91-94 | names without the separator make the key of a node determine its name and focus |
| `ConstraintSharing.NewIsSound` | paradynd/src/instrCodeNode.C:61-97 | opening a constraint's node finds one that is filled in, or makes a fresh one nobody else holds |
| `ConstraintSharing.FillIsSound` | paradynd/src/mdl.C:2312-2327 | filling in a fresh node gives it the addresses generated with the exclusion list in force, and a failure gives the node up |
| `ConstraintSharing.ShareOrOwnIsSound` | paradynd/src/mdl.C:2383-2435 | if only own exclusion lists were ever in force, a cached node is shared only if its addresses are those generated for this metric |
| `ConstraintSharing.ShareOrOwnHandles` | paradynd/src/mdl.C:2383-2435 | the handle on the cached node is left over if and only if there is an own node of the metric already, or the list in force yields other addresses, or yields none |
| `ConstraintSharing.AttachIsSound` | paradynd/src/mdl.C:2348-2435 | attaching leaves every old handle and its node alone; and if only own exclusion lists were ever in force, it succeeds exactly if the instrumentation can be generated for this metric, and yields a node with the addresses of this metric's own list |
| `ConstraintSharing.AttachLeaksIff` | paradynd/src/mdl.C:2365-2435 | attaching adds exactly the handle it returns if and only if the constraint was not cached, or there is no own node of the metric and the list in force yields the cached node's addresses; otherwise one more handle stays, on the cached node |
| `ConstraintSharing.ProcessNode.AttachConstraint` | paradynd/src/mdl.C:2348-2435 | one round of the loop computes Attach on the cache |
| `ConstraintSharing.ProcessNode.SameAddresses` | paradynd/src/mdl.C:2408-2426 | compares the two request lists by length and address |
| `ConstraintSharing.ProcessNode.AttachConstraints` | paradynd/src/mdl.C:2347-2436 | with the metric's own exclusion list in force, success attaches exactly one node for each flag constraint, in order, each with the addresses of that list, and leaves every node in use alone |
| `ConstraintSharing.DeleteIsSound` | paradynd/src/instrCodeNode.C:259-275 | deleting any handle keeps the run-long invariant, and every other handle with the node behind it |
| `ConstraintSharing.MetricNodeIsSound` | paradynd/src/mdl.C:2438-2466 | filling in the node of the metric itself keeps the run-long invariant |
| `ConstraintSharing.MeasureIsSound` | paradynd/src/mdl.C:2438-2466 | opening the metric's own node, and filling it in or giving it up, keeps the run-long invariant |
| `ConstraintSharing.MeasureHandles` | paradynd/src/mdl.C:2438-2466 | it leaves no handle behind but the one it returns |
| `ConstraintSharing.NewIsMeasured` | paradynd/src/mdl.C:2438-2466 | a metric without a node gets one with its name, focus and flag and exactly the requests made for it; if they cannot be had, nothing is left in the cache |
| `ConstraintSharing.FoundIsMeasured` | paradynd/src/mdl.C:2438-2466 | a metric whose node is found gets one more handle on it, and the node stays as it was |
| `ConstraintRuns.StepKeeps` | paradynd/src/mdl.C:1904-1960 | every step of a daemon keeps the invariant and the handles nobody owns, and adds one to them exactly if it attaches a constraint whose node is cached and not shared |
| `ConstraintRuns.RunLeaks` | paradynd/src/mdl.C:2329-2472 | over any run, from any good state, each leaking attachment leaves one handle behind for good and nothing else leaves any |
| `ConstraintRuns.HandlesAccounted` | paradynd/src/mdl.C:2329-2472 | over the whole life of a daemon the live handles are those that metrics own and one for each leaking attachment |
| `ConstraintRuns.NeverFreed` | paradynd/src/instrCodeNode.C:259-275 | a node with a handle left behind is never freed, whatever metrics do afterwards |
| `ConstraintRuns.ListInForce` | paradynd/src/mdl.C:1904-1960 | after any run the global exclusion list is made of the lists of all metrics set up since the last success, in order |
| `ConstraintRuns.LeakingLife` | paradynd/src/mdl.C:2383-2435 | a life with a leak: a second metric, with another exclusion list, attaches a constraint that is cached |
| `ConstraintRuns.ListEmptyIff` | paradynd/src/mdl.C:1904-1960 | after any run the global exclusion list is empty if and only if the metrics set up since the last success exclude nothing |
| `ConstraintRuns.AttachOutcome` | paradynd/src/mdl.C:2348-2435 | in any good cache: an own node of the metric that is found after the constraint's node is returned with the addresses it has, and otherwise attaching succeeds exactly if the list in force yields addresses, and with those |
| `ConstraintRuns.AttachesOwnIff` | paradynd/src/mdl.C:2348-2435 | in any state of the daemon, a constraint is attached with the metric's own addresses if and only if the own node that is found has them or, if none is, the list in force yields what the metric's own list does |
| `ConstraintRuns.OwnAddressesIff` | paradynd/src/mdl.C:1904-1960 | in any state, a constraint not yet instrumented is attached with the metric's own addresses, for every way to generate instrumentation, if and only if the exclusion list is empty when the set-up begins |
| `ConstraintRuns.ForeignListLife` | paradynd/src/mdl.C:1904-1960 | a life in which it is not: after a failed metric the next one gets the addresses of the failed one's exclusion list |
| `ConstraintRuns.SharingIsSound` | paradynd/src/mdl.C:2346-2436 | in any life in which each set-up began with an empty exclusion list, attaching a constraint yields a node with the addresses of the attaching metric's own list, or fails because they cannot be generated |
| `ConstraintFocus.OwnedOnFocus` | paradynd/src/mdl.C:2546-2554 | over the whole life of a daemon, each handle that a metric owns leads to a node of the focus of the process for which it was yielded, by the name of the constraint, of the constraint for this metric, or of the metric |
| `ConstraintFocus.ProcessesApart` | paradynd/src/mdl.C:2366-2439 | handles yielded for different processes' focuses are never on one node |
| `ConstraintFocus.NewNodesFlagged` | paradynd/src/mdl.C:2344-2440 | the nodes that a step makes have their data inserted exactly if the metric being set up has; others keep their flag |
| `PapiSlots.FreeSlotInRange` | paradynd/src/papiMgr.C:237-241 | the search for a free slot stays in range exactly if fewer slots are occupied than there are |
| `PapiSlots.FindsOwnSlot` | paradynd/src/papiMgr.C:284-288 | the slot found for a handle's code is the one the handle was given |
| `PapiSlots.CreateExactly` | paradynd/src/papiMgr.C:213-276 | creation fails exactly if all counters count as taken, or the event is new and the hardware refuses it; failure changes nothing; success adds one handle, on the slot that holds the code, with one reference more, or on a free slot, with an event that is not active; nothing else changes |
| `PapiSlots.CreateKeepsInv` | paradynd/src/papiMgr.C:213-276 | adding an event keeps the invariant, whatever the hardware says |
| `PapiSlots.DestroyKeepsInv` | paradynd/src/papiMgr.C:278-320 | removing an event keeps it, whether the remote call works or not |
| `PapiSlots.DestroyShape` | paradynd/src/papiMgr.C:278-320 | deleting a handle touches its own slot only: it loses a reference, and the last one empties it unless the event is active and cannot be removed; the count falls only with an active event; afterwards, if an active event was given up, the counters run exactly if that worked and events are left, and otherwise if they did or any event is counted |
| `PapiSlots.EnableExactly` | paradynd/src/papiMgr.C:148-176 | enabling leaves the handle's own event active and the counters running, and changes nothing else |
| `PapiSlots.EnablePendingExactly` | paradynd/src/papiMgr.C:179-210 | afterwards the event of every handle is active, every other slot is as it was, and the counters run if any event is counted |
| `PapiSlots.StepKeepsInv` | paradynd/src/papiMgr.C:148-320 | occupied slots never exceed the events counted as added, nor these the counters there are; codes are distinct; counts equal live handles; every handle's slot holds its code |
| `PapiSlots.StepConserves` | paradynd/src/papiMgr.C:289-303 | events counted but not occupying a slot grow by exactly one with each removal of an event that never became active |
| `PapiSlots.RunConserves` | paradynd/src/papiMgr.C:278-320 | over any run the events counted as added are those occupying slots plus the removals of inactive ones |
| `PapiSlots.CyclesExhaust` | paradynd/src/papiMgr.C:289-303 | with any number of counters, that many unused events leave every slot empty and everything counted as added |
| `PapiSlots.ExhaustedForever` | paradynd/src/papiMgr.C:220-225 | from then on nothing can be created, whatever happens |
| `PapiSlots.PapiMgr.CreateHwEvent` | paradynd/src/papiMgr.C:542-560 | shares the slot of a known code, takes a free slot, or fails when all counters are counted as taken |
| `PapiSlots.PapiMgr.DestroyHwEvent` | paradynd/src/papiMgr.C:278-320 | drops a reference and empties the slot of the last one unless the remote call fails |
| `PapiSlots.PapiMgr.EnableEvent` | paradynd/src/papiMgr.C:148-176 | activates the event of a handle and leaves the counters running |
| `PapiSlots.PapiMgr.EnablePendingHwEvents` | paradynd/src/papiMgr.C:179-210 | activates every referenced event and leaves the counters running |
| `HwEvents.StepKeepsGoodIff` | paradynd/src/instrCodeNode.C:61-115 | an operation keeps this right: different nodes point to different event objects, none deleted twice or while pointed to, and each slot counts the nodes that use it; exactly unless it copies a node with an event to a new one |
| `HwEvents.GoodThroughoutIff` | paradynd/src/instrCodeNode.C:145-157 | through a whole run this is right in every state if and only if the run makes no such copy |
| `HwEvents.SecondDeletionIff` | paradynd/src/papiMgr.C:278-320 | deleting one event object twice leaves the slots right if and only if the first deletion emptied its slot: the object was the last on it, and its event was not active or could be removed |
| `HwEvents.ForkBreaksSlotsIff` | paradynd/src/instrCodeNode.C:259-275 | after such a copy, deleting both nodes deletes the object twice, with exactly that consequence for the slots |
| `HwEvents.EventTakenAway` | paradynd/src/instrCodeNode.C:259-275 | with one other node on a slot whose event is not active yet, this empties the slot that the other node counts on |
| `HwEvents.ForkTakesEventAway` | paradynd/src/instrCodeNode.C:145-157 | a run that gets there |
| `Batching.StepKeeps` | paradynd/src/metricFocusNode.C:664-710 | every call adds what it submits and nothing else to what was sent and what waits, within bounds |
| `Batching.BatchingRefines` | paradynd/src/metricFocusNode.C:508-565 | after any sequence of submissions, flushes and bursts, the batches sent followed by the pending entries are the entries submitted, in order, for both buffers |
| `Batching.SendsExactly` | paradynd/src/metricFocusNode.C:508-710 | an operation sends one batch, of everything that waits, exactly if something waits and a flush is asked for, or at a submission the buffer is full or a burst has completed; a trace goes with the batch it completes, a sample does not |
| `Batching.BurstsAreSent` | paradynd/src/metricFocusNode.C:609-710 | over any run, in both buffers: what was submitted before a burst completed is sent once anything is submitted after it |
| `Batching.TracesByTen` | paradynd/src/metricFocusNode.C:664-710 | traces are sent by tens, or fewer when a burst has completed, and without a burst it is the tenth that sends |
| `Batching.SampleBatcher.FlushBatchBuffer` | paradynd/src/metricFocusNode.C:522-565 | sends a copy of the pending entries, or does nothing if there are none |
| `Batching.SampleBatcher.BatchSampleData` | paradynd/src/metricFocusNode.C:609-656 | flushes a full buffer or a completed burst and then writes, inside the buffer |
| `Batching.TraceBatcher.FlushTraceBatchBuffer` | paradynd/src/metricFocusNode.C:671-689 | sends a copy of the pending traces for the given program, or does nothing if there are none |
| `Batching.TraceBatcher.BatchTraceData` | paradynd/src/metricFocusNode.C:691-710 | writes, inside the buffer, and then flushes a full buffer or a completed burst for the program of this trace |
| `Batching.ReportedRightIff` | paradynd/src/metricFocusNode.C:671-710 | over any run of the trace buffer the front end is told exactly the traces that were sent, each with the program it was recorded for, if and only if at each submission that flushes everything pending is of that submission's program |
| `Batching.OneProgramIsRight` | paradynd/src/perfStream.C:218-222 | a run whose traces are all submitted for one program, as the daemon's are, meets this |
| `Batching.MixedBatch` | paradynd/src/metricFocusNode.C:704-708 | a run that does not: the first trace of a batch is reported for the program of the second |
| `CostMetric.StepKeepsDistinct` | paradynd/src/costmetrics.C:131-170 | processes and components stay duplicate-free |
| `CostMetric.StepEntry` | paradynd/src/costmetrics.C:212-249 | an update sets the time of its own process's entry and raises its value; the entries of other processes and every component stay as they are |
| `CostMetric.CumulativeIsMaximum` | paradynd/src/costmetrics.C:212-249 | through any run, the cumulative value of a process is the largest of 0 and everything it reported since it was added |
| `CostMetric.HandedRises` | paradynd/src/costmetrics.C:226-249 | an update of an enabled metric hands the component exactly the rise of the cumulative value |
| `CostMetric.HandsExactly` | paradynd/src/costmetrics.C:226-249 | only an update of an enabled metric hands anything, and that just the rise, to the component of its own process |
| `CostMetric.DeltasSumToRise` | paradynd/src/costmetrics.C:212-249 | while the metric is enabled, the deltas handed to a process's component sum to the rise in its cumulative value |
| `CostMetric.CostVectors.AddProcess` | paradynd/src/costmetrics.C:131-143 | a process is added once, to all four vectors |
| `CostMetric.CostVectors.ShiftLeft` | paradynd/src/costmetrics.C:151-165 | the shift removes the same entry from all four vectors |
| `CostMetric.CostVectors.RemoveProcess` | paradynd/src/costmetrics.C:145-170 | removes the entry of the process and keeps the vectors aligned |
| `CostMetric.CostVectors.UpdateValue` | paradynd/src/costmetrics.C:212-249 | raises the cumulative value and hands over the difference, if enabled |
| `InternalMetric.Conserved` | paradynd/src/internalMetrics.C:60-98 | forwarded intervals tile the time from first to last sample, and the initial value plus the forwarded deltas is the last sample, or last minus first under the zero policy |
| `InternalMetric.ElapsedIsCompleted` | paradynd/src/context.C:195-240 | after any run the elapsed pause time is the total of the pauses that its resume events ended while recording |
| `InternalMetric.PauseTimeExactly` | paradynd/src/init.C:168-183 | at any time, once recording has begun, pause_time is the total of the completed pauses and the time since the present one began |
| `InternalMetric.TimeBase` | paradynd/src/metricFocusNode.C:726-758 | a report takes samples exactly if the application runs, recording has begun, an earlier report set the time base, and it is forced or at least the sampling interval after the last that got through |
| `InternalMetric.SampledExactly` | paradynd/src/metricFocusNode.C:726-758 | over any run, an instance is sampled exactly at those reports since it was enabled |
| `InternalMetric.InstanceSamplesPauses` | paradynd/src/metricFocusNode.C:726-758 | whenever an instance of pause_time is enabled, it is what its samples since then make it, and each sample is the total of the pauses completed by then |
| `InternalMetric.PauseTimeConserved` | paradynd/src/init.C:168-183 | whenever an instance of pause_time was enabled, and however often before: what it forwards is the sum over the resume events between its first sample and its last, in intervals that tile the time between them |
| `InternalMetric.EachInstance.UpdateValue` | paradynd/src/internalMetrics.C:60-98 | the first sample fixes the initial value; each later one forwards an interval with the difference |
| `InternalMetric.Application.MarkApplicationPaused` | paradynd/src/context.C:195-206 | remembers when the application was paused, once |
| `InternalMetric.Application.MarkApplicationRunning` | paradynd/src/context.C:223-240 | adds the length of the pause unless recording has not begun or the pause is the initial one |
| `InternalMetric.Instances.DisableInstance` | paradynd/src/internalMetrics.C:114-120 | removes one instance and keeps the order of the others |

## Left out

- The `mrnet` message layer: its receive paths are stubs that always fail (igen/src/interface_spec.C:1101-1106).
- `wait_for_and_read`: awaiting without waiting ends in an assertion after buffering one message (igen/src/interface_spec.C:1135-1137).
- Version and name mismatch in the handshake, and failures of the network: both ends only enter the error state and exit.
- RpcEndpoint.Endpoint.WaitLoop: an end of file is an empty stream, and reading a message is atomic; how a message's arguments are encoded is the subject of `Marshal`.
- MdlCompile.CompilerAgreesWithInterpreter: string and floating-point operands are not modelled, nor the interpreter's assignment operators, which the source marks as a hack (paradynd/src/mdl.C:1246-1259).
- MdlCompile.CompiledMeans: hardware timers, `readAddress`, the address operator and dotted expressions are not modelled as code; clocks stand still while a snippet runs, and the locks of timers and their copying at a fork are not modelled; string constants do not compile in the model. Dyninst's `and` and `or` are taken as logical operators, and snippets as evaluated left to right.
- MdlCompile.RoutineObeys: a destroyed timer is only recorded as such, because its routine is not among the sources of the run-time library; and a wall clock that went back is not reported, as in the library.
- MdlCost.NeverOverCharges: the cost of each kind of snippet is a parameter, because Dyninst computes it; costs are natural numbers without overflow while code is generated. The cost variable itself is 32 bits wide.
- MdlMeaning.StatementPreserved: assumes that the application has the cost variable; without it createIf returns no code (paradynd/src/mdl.C:411-415), which is not modelled.
- MdlInstr.Generator.Apply: point expressions are a function variable with a kind of point; the other ways to walk a dotted expression, list statements and the environment left behind by a failure are not modelled.
- Marshal.Received: primitive bundlers are taken as inverses of each other, one stream item each, so the layout of bytes is not modelled. Vectors are shorter than 2^32 elements.
- MarshalTypes.Registry.Define: field types are positions of earlier definitions; names of fields, ignored text and bundler names are not modelled.
- CodeNodeCache.CodeNodes.CopyInstrCodeNode: whether a copied node inserts data is arbitrary, because the constructor leaves it uninitialised (paradynd/src/instrCodeNode.C:148-157); the data nodes and instrumentation handles behind a node are not modelled.
- ConstraintSharing.ProcessNode.AttachConstraints: stated for the metric's own exclusion list; with any other list in force the addresses are those of that list (`ConstraintSharing.FillIsSound`). The instrumentation of a constraint is a function of constraint, focus and exclusion list, and what a metric itself excludes a function of metric and focus, the same for the focus of each process. Constraint and metric names contain neither `-` nor `@`.
- ConstraintRuns.HandlesAccounted: copies for forked processes and callbacks on nodes in use are not events of these runs; they are events of `CodeNodeCache`.
- PapiSlots.PapiMgr.EnableEvent: the remote calls whose failure the source answers with an assertion (start, stop, add) are taken to succeed; attaching to the process is left out.
- HwEvents.ForkBreaksSlotsIff: deleting an object twice is undefined in C++; the second run of the destructor is taken to read the event code the object had. The events are those of one process, to whose manager copied nodes still point, and the two nodes have one handle each.
- RpcProgress.BlockedCallResumesIff: what can happen, not what will: whether the server's application ever returns from a handler or reads on is up to it, and the handlers of the run are taken to be able to return at any time.
- Batching.SampleBatcher.BatchSampleData: an entry is one opaque value; the conversion of times and values to floating point is left out.
- CostMetric.CostVectors.UpdateValue: a component records the deltas it is handed; its aggregation over time, whose arithmetic is double-valued, is left out.
- InternalMetric.PauseTimeConserved: one instance at a time of one metric, under a clock that strictly increases.
- Process and thread nodes, aggregation over machines, automatic deletion of nodes of exited processes, process control, Dyninst, PAPI and sockets: their results are parameters where they are needed.
- Focus names and tokens, templates, debug output, the user interface and the visualisation clients would only add easy members.
