# Verification of gogogogogo

gogogogogo compiles Go to C in continuation-passing style (`cgen/main.go`) and runs the result on a
small Rust runtime (`src/`). This project models the parts of both that are hard to get right and
proves what they are for. `dafny verify dfyconfig.toml` checks all of it.

Four groups of modules:

* **The translation.** `Ssa` is the input language: programs in static single assignment form, with
  calls, calls through interfaces, closures, phis, and abstract instructions for everything that becomes
  plain C (`Inline`) or a call of the runtime (`Api`). `Emission` is cgen: it cuts each block into C
  functions at every instruction that hands control away, and links them by name. `Trampoline` is the
  machine that runs them: the dispatch loop, the stack frames, the previous-function register, runtime
  calls that are retried any number of times while the goroutine is suspended. `MethodTables` has the
  method tables that cgen emits and the runtime searches. `Simulation`, `Phis`, `PhiDispatch`,
  `PhiTranslation`, `MethodCalls` and `Validity` relate the two; `StepResults` says what steps leave
  behind in both, and `Branching` follows one program from start to finish.
* **Goroutines.** `Channels` says what each channel operation does; `ChannelObjects` has the runtime's
  classes, proved against it; `Goroutines` is the transition system of any number of goroutines on one
  run queue; `ChannelInvariants`, `Communication`, `Progress` and `Registrations` are what holds over
  all its runs; `RunQueue` is the dispatcher loop.
* **Deferred calls and panics.** `Unwinding` is the stack of frames with deferred calls and the two
  runtime loops that run them; `LoopTurns` says when a loop gets its turn and `ComingBack` where control
  is after calls; `Deferrals`, `PanicTarget` and `NestedPanics` have the results; `LightWeightThread`
  and `DeferStack` are the classes; `Frames` is the stack word by word.
* **Static parts of cgen.** `TypeOrder` (order of type definitions), `Shifts` (lowering of shifts, with
  the C semantics of the expressions emitted), `Encoding` and `Naming` (identifiers).

What is assumed, besides what the contracts say: channels are not nil; argument sizes are whole words;
the first frame of a goroutine has no result slot; a function that defers runs its deferred calls before
it returns; in the model of deferred calls, code names only labels of its own function
(`PhiDispatch.LabelsStay` proves it of emitted code) and function objects have the kind of their function
(`Validity.StepValid` proves it of programs); the type checker's text of a named type has no `$`, and that
of a struct type consists of bare text, quoted tags and matching braces (`Naming.StructTextsClose`).

Where the code does something other than what one would hope, the model follows the code:

* Phis are emitted as assignments in order, so a block whose phi reads an earlier phi of the block is
  miscompiled (`PhiTranslation.SwappingIsMiscompiled`); `PhiTranslation.EmittedPhisExact` says exactly when a
  block is not.
* A call through an interface finds its method by name, in a table that only pointers to named types have.
  A method of a value that is not a pointer is not found (`MethodTables.ValuesHaveNoTable`), and of two
  methods of one name from different packages the first is (`MethodTables.EmbeddedNamesCollide`);
  `MethodTables.ResolvesExactly` says for which types all methods are found, and `MethodCalls.TranslationExact`
  for which runs the translation is correct.
* Collecting type definitions never ends on a struct that holds a slice of itself
  (`TypeOrder.TreesNeverEnd`), nor on a type whose C name would be infinite (`TypeOrder.NamesNeverEnd`);
  `TypeOrder.TerminatesExactly` says exactly when it ends.
* A select that ends without taking from a channel, or a receive on a closed one, can leave its
  registration behind, after which a send completes with no receiver (`Registrations.SendCompletesAlone`);
  `Registrations.GoesStaleExactly` says exactly when.
* There is one panicking flag for each goroutine, so recovering an inner panic ends an outer one too
  (`NestedPanics.InnerRecoveryEndsOuter`); `NestedPanics.RecoveryLosesExactly` says exactly when a recovery
  makes the runtime lose an outer panic.

## Model

| member | source | states |
|---|---|---|
| Emission.Context.EmitPackage | cgen/main.go:2356-2420 | writing a package emits the functions of every Go function, block and continuation, in order, whatever the name map held before |
| Emission.Context.RecordLatestNames | cgen/main.go:2406-2416 | the loop leaves in the name map, for each block, the label of the last C function of that block |
| Emission.Context.EmitBlock | cgen/main.go:1401-1414 | the single pass over a block that closes and opens C functions emits what the recursive reading of the block asks for |
| Emission.Context.EmitInstruction | cgen/main.go:1019-1025 | with the name map right, the if-chain of a phi tests the last label of each predecessor, in order of the edges |
| Emission.EmittedPackageLinks | cgen/main.go:1384-1414 | no C function is defined twice, every label the program can jump to has one, and its body is the right piece of its block |
| MethodTables.EmitInterfaceTable | cgen/main.go:1832-1852 | the two loops write the table: an entry for each method that has a function, in order, if the type is one of those that have a table |
| MethodTables.ResolvesExactly | src/object/interface.rs:47-55 | the search by name finds each method of a type if and only if the type has a table, or no methods with functions, and no two of its methods have one name and different functions |
| MethodTables.ValuesHaveNoTable | cgen/main.go:2284-2293 | the method of a value in an interface that is not a pointer is not found |
| MethodTables.EmbeddedNamesCollide | cgen/main.go:1845-1850 | of two methods that are not exported and have one name, a call of the second finds the first |
| Phis.SequentialIsParallel | cgen/main.go:1019-1025 | of the two readings of a list of phis: without a stale read, assigning one after the other leaves the values that assigning all at once does |
| Phis.SequentialPhisExact | cgen/main.go:1019-1025 | the two readings agree for all register contents if and only if no phi reads an earlier, changed phi of the list |
| Phis.SwapIsLost | cgen/main.go:1019-1025 | for two phis that swap, the reading in order leaves both variables with one value |
| Simulation.PhiPicksEdge | cgen/main.go:1019-1025 | with the previous label that of the last C function of a predecessor, the chain takes that predecessor's operand and no other |
| Simulation.PhisRun | cgen/main.go:1019-1025 | the machine at the head of any block, with stale reads or without, leaves after `j` phis exactly the registers of the reading in order |
| Simulation.RetriesPass | src/api/channel.rs:234-249 | a runtime call that blocks any number of times ends with the frames, heap and trace as they were, and the previous label that of the runtime function |
| Simulation.StepCall | cgen/main.go:263-283 | a call step of the SSA program is matched by the frame pushed, the closure's block installed and the callee's first block entered |
| Simulation.StepCallMethod | src/api/interface.rs:135-160 | a call through an interface whose name finds the method is matched: the runtime function gets a frame, leaves it to the method, and the method's first block is entered with the receiver before the arguments |
| Simulation.StepReturn | cgen/main.go:1034-1046 | a return step is matched by the result stored through the result pointer, the frame popped and the caller's continuation entered |
| Simulation.StepSimulated | cgen/main.go:396-1197 | every step of a well-formed SSA program, if it is a call through an interface one whose name finds the method, is matched by at least one machine step, ending in a related state |
| Simulation.RunSimulated | src/lib.rs:230-238 | every run, with calls nested to any depth, is matched from every related state |
| Simulation.TranslationCorrect | cgen/main.go:1384-1414 | for every run of a well-formed program in which names find the methods that are called, the emitted package on the trampoline reaches the same activations, register values and heap with the same trace of calls, blocks entered, runtime calls and returns |
| Simulation.NoAssertionFails | cgen/main.go:1368-1378 | on every such run, of a goroutine started with a plain function or a closure, each of the machine steps that match it exists: no free-variable assertion and no phi assertion of the emitted code fails |
| StepResults.ReturnDelivers | cgen/main.go:1034-1046 | after a nested return, the caller's result register holds the value returned, or a tuple of the values in order, in the program and in the frame of the machine, and the caller's other registers are as they were |
| StepResults.BranchGoes | cgen/main.go:873-876 | a branch goes to the first successor if its condition holds and else to the second, in the program and in the emitted code |
| StepResults.CallPasses | cgen/main.go:263-283 | a call enters the function with its arguments in order and a closure's captured values, on a frame of its own, in the program and in the machine; the caller waits after the call |
| StepResults.MethodPasses | src/api/interface.rs:135-160 | a call through an interface enters the method that is meant with the receiver and then the arguments in order |
| StepResults.ResultStored | cgen/main.go:290-311 | the result of an instruction that stays in its function is in its register, in the program and in the frame, however often a runtime call was retried, and all other registers are as they were |
| Branching.BranchingRuns | cgen/main.go:263-283 | a program that makes a closure, calls it, branches on an argument, joins with phis, returns two values and ends: the arguments, the captured value, the values of the branch taken and the results arrive where they belong |
| Branching.BranchingTranslated | cgen/main.go:1384-1414 | the emitted package of that program runs to its end with exactly those events |
| MethodCalls.CallMethodExact | src/api/interface.rs:135-160 | from related states, the machine comes to match the next step of the program if and only if that step is not a call through an interface whose name finds no method or another one |
| MethodCalls.TranslationExact | src/api/interface.rs:135-160 | the machine comes to be related to the program after its first `k` steps if and only if every method called in them is found by its name |
| Validity.StepValid | src/lib.rs:34-65 | function objects keep their kind: plain ones name functions without free variables, closures carry exactly those of their function |
| PhiDispatch.RunKeeps | src/light_weight_thread.rs:109-112 | in every reachable machine state, whatever calls, retries and suspensions happened, a block about to run was handed control by the last C function of a predecessor |
| PhiDispatch.PhiFindsItsEdge | cgen/main.go:1019-1025 | in every reachable state about to run a phi, the chain finds the edge of the block control came from; `assert(false)` is not reached |
| PhiDispatch.LabelsStay | cgen/main.go:1199-1223 | the labels that an emitted C function hands over to, or passes to be resumed at, are labels of its own Go function, and all have a C function |
| PhiTranslation.EmittedPhisExact | cgen/main.go:1019-1025 | on the linked package, the phis of a block leave what SSA phis are to leave, for every frame they can find, if and only if none reads an earlier, changed phi of the block |
| PhiTranslation.EmittedSwapIsLost | cgen/main.go:1019-1025 | for the function of a loop that swaps two variables, the emitted code leaves both with one value |
| PhiTranslation.SwappingIsMiscompiled | cgen/main.go:1019-1025 | a goroutine started with that function gets, with the program's own trace, to where the program has swapped the variables, and has one value in both |
| Channels.SendIsExact | src/object/channel.rs:105-144 | a send completes if and only if the test select makes for it says so |
| Channels.ReceiveIsExact | src/object/channel.rs:113-168 | a receive obtains a value if and only if the test select makes for it says so |
| Channels.StepsAreFifo | src/object/channel.rs:213-232 | each operation adds one value behind those in flight, takes the first, or leaves them alone, never exceeds the capacity, and keeps the kind and capacity of the channel and whether it is closed |
| Channels.NewHasRoom | src/object/channel.rs:182-193 | a new channel is open and empty, and of sends in a row exactly the first complete, as many as the capacity asked for; none if that is 0 |
| Channels.BufferedIsFifo | src/object/channel.rs:61-83 | for every capacity and every sequence of sends and receives, what was in the channel and what it accepted is what it delivered and what is left, in order |
| Channels.ClosedChannelDrains | src/object/channel.rs:220-232 | after close, receives return in order the values that can still be taken, those in a buffer or the one offered without one, and then closed, forever |
| Channels.FirstReady | src/api/channel.rs:121-145 | the first pass stops at the lowest entry that can complete |
| Channels.RegisterDropsNothing | src/api/channel.rs:147-162 | the second pass obtains no value even when a channel is listed twice, registers on exactly the untouched channels it reaches, and stops at the first receive on a closed one |
| Channels.SelectTransfersOnce | src/api/channel.rs:103-171 | a select does at most one transfer, on the lowest entry that can complete, leaving every other channel as it was; otherwise no value moves, and the outcome says which receive found its channel closed, or that none did |
| ChannelObjects.BufferedChannel.Send | src/object/channel.rs:61-71 | on the ring buffer: appends to the queue of contents if there is room, else changes nothing |
| ChannelObjects.BufferedChannel.Receive | src/object/channel.rs:73-83 | on the ring buffer: takes the first of the contents, if any |
| ChannelObjects.FillTail | src/object/channel.rs:66-68 | writing the slot at head plus size, modulo the capacity, appends to the queue the ring holds |
| ChannelObjects.RendezvousChannel.Send | src/object/channel.rs:125-144 | the state change in place is that of the five-state protocol |
| ChannelObjects.RendezvousChannel.Receive | src/object/channel.rs:146-168 | the state change in place is that of the five-state protocol |
| ChannelObjects.ChannelObject.Send | src/object/channel.rs:213-218 | the object after a send stands for the channel after a send |
| ChannelObjects.ChannelObject.Receive | src/object/channel.rs:220-232 | the object after a receive stands for the channel after a receive, and a value is preferred to closed |
| ChannelObjects.ChannelObject.Close | src/object/channel.rs:194-197 | sets the flag and nothing else; tells whether the assertion against closing twice holds |
| ChannelObjects.TryComplete | src/api/channel.rs:121-145 | at one entry, the `unwrap` after the test for a send and the `unreachable!` after the test for a receive do not fire |
| ChannelObjects.RegisterAll | src/api/channel.rs:147-162 | the loop over channel objects registers as the second pass does |
| ChannelObjects.Select | src/api/channel.rs:103-171 | the two loops over channel objects, some listed more than once, leave every object as `Channels.Select` says |
| Goroutines.QueueStep | src/lib.rs:241-273 | every step keeps each goroutine queued once or running, ids fresh, and the main goroutine present until exit |
| ChannelInvariants.SendKeeps | src/object/channel.rs:125-144 | one send attempt, plain or by a select, keeps values, senders, hand-offs and receivers in order |
| ChannelInvariants.ReceiveKeeps | src/object/channel.rs:146-168 | one receive attempt, plain or by a select, keeps them too |
| ChannelInvariants.SelectKeepsAll | src/api/channel.rs:103-171 | one attempt of a select keeps them on all channels at once |
| ChannelInvariants.StepKeeps | src/lib.rs:241-273 | every step of the system keeps the invariants of the run queue and of all channels |
| ChannelInvariants.RunKeeps | src/lib.rs:241-273 | so does every run |
| Communication.MadeAsAsked | src/object/channel.rs:182-197 | over every run, a channel exists if it was made, keeps the kind and capacity it was made with, and is closed if and only if it was closed |
| Communication.BlocksExactly | src/api/channel.rs:201-249 | an attempt leaves the goroutine suspended, in the middle of its operation, exactly when the operation cannot complete: a closed channel keeps no receiver waiting, and a select waits only if it may and nothing is ready or closed |
| Communication.ValuesConserved | src/object/channel.rs:213-232 | over every run, with selects and closes: values deposited are those delivered followed by those in flight, in order; at most as many in flight as the capacity asked for (or one); completed sends and receives on a channel without a buffer differ by at most one |
| Communication.SenderIsWaiting | src/api/channel.rs:234-249 | over every run, with selects and closes: a sender named by a channel is parked in, or about to retry, a plain send of that very value, and no select is told it can complete that send |
| Communication.HandOffsPair | src/object/channel.rs:125-168 | over every run, the k-th completed send and the k-th completed receive are the two sides of one hand-off with one value; with plain operations only, a receiver named by the channel is in a receive on it |
| Communication.QueueIsFifo | src/global_context.rs:32-38 | over every run, what was queued and what was put on the queue is what was dispatched and what is queued, in order |
| Communication.TurnsAreInOrder | src/global_context.rs:32-38 | the goroutine at position k runs after exactly k other dispatches, whatever is spawned meanwhile |
| Communication.EndsExactly | src/lib.rs:241-273 | over every run, the goroutines there are those created that have not come to their end, and the process has exited if and only if the main goroutine has |
| Communication.MainKeepsRunning | src/lib.rs:138-145 | over every run, ids are distinct, each goroutine created is queued once or running until it ends, and until the process exits the dispatcher finds a goroutine |
| Communication.AlwaysPossible | src/lib.rs:241-273 | over every run until the process exits, the next action is possible: dispatching, putting back a suspended goroutine, attempting a pending operation, and for code in between ending, giving way, starting a goroutine, closing an open channel or beginning an operation |
| Progress.StepStaysPromising | src/api/channel.rs:201-249 | an attempt completes an operation, or leaves an attempt that will still to come |
| Progress.SomethingCompletes | src/api/channel.rs:201-249 | with one goroutine parked sending and one receiving on a channel without a buffer, and plain operations, an operation on it completes before any goroutine then queued is dispatched twice |
| Registrations.GoesStaleExactly | src/api/channel.rs:147-170 | an attempt leaves a registration of a goroutine that no longer receives if and only if it is a receive or a select of the kind described |
| Registrations.OnlyAttemptsGoStale | src/api/lwt.rs:81-84 | nothing else leaves such a registration |
| Registrations.SendCompletesAlone | src/api/channel.rs:147-170 | a run in which a send completes with no receiver, after a select that did not block |
| RunQueue.TurnRuns | src/api/lwt.rs:10-38 | a turn takes the first goroutine; one it spawns goes to the back of the queue before it does |
| RunQueue.GlobalContext.IssueLightWeightThreadId | src/global_context.rs:22-26 | ids are issued in order |
| RunQueue.GlobalContext.PushLightWeightThread | src/global_context.rs:32-34 | goes to the back of the queue |
| RunQueue.GlobalContext.PopLightWeightThread | src/global_context.rs:36-38 | comes from the front of the queue, if there is one |
| RunQueue.GlobalContext.MainLoop | src/lib.rs:241-273 | the main loop dispatches in the order of the transition system and never finds its queue empty before the process exits |
| Unwinding.CallDeferredKeeps | src/api/panic.rs:20-38 | calling a deferred function keeps frames, links, free variables and log consistent |
| Unwinding.RaiseRoundKeeps | src/api/panic.rs:16-52 | so does a round of unwinding, on its own frame or on the dead frame of a user function |
| Unwinding.EnterKeeps | src/light_weight_thread.rs:98-107 | so does entering a function, which installs a closure's captured block |
| Unwinding.StepKeeps | src/api/defer.rs:86-114 | so does every step |
| Unwinding.RunKeeps | src/api/panic.rs:16-52 | so does every run, with calls, deferred calls, panics and recoveries nested in any way |
| Deferrals.ReplayBalances | src/defer_stack.rs:49-58 | if a log replays as a stack, each deferred call was called as often as registered, but for those pending |
| Deferrals.ExactlyOnce | src/api/defer.rs:13-38 | over every run, a frame that is gone has called what it registered, each registration once and the last first; a live frame has still to call what its log leaves |
| Deferrals.CallsAreMade | src/api/defer.rs:101-113 | a call in the log is a frame pushed with the registered function and arguments, and only such steps take from a frame's deferred calls |
| Deferrals.NoneIsDropped | src/api/panic.rs:39-51 | no step drops a frame that has deferred calls, and frames below are not disturbed |
| Deferrals.FreeVariablesAreRight | src/light_weight_thread.rs:98-107 | over every run, the label that runs is one of the function its frame was pushed for; a closure's code runs with its captured block, a plain function's with none; and the absent resume function of `panic` is never entered |
| Deferrals.PanickingExactly | src/light_weight_thread.rs:165-178 | over every run, a goroutine is panicking if and only if nothing recovered since its latest panic, and then has the value of that panic at hand |
| Deferrals.RecoveryYieldsLatest | src/api/panic.rs:69-78 | over every run, a recovery yields the value of the latest panic if nothing recovered since, and otherwise nil, and control goes on where it was told to |
| ComingBack.ComesBack | src/api/defer.rs:86-114 | in every run without panics, what was called stays on the stack until control is back at the label passed, on the same frame; for the deferred calls of a frame that is after as many rounds of the loop as there were, and one, and none is left |
| ComingBack.GoesOn | src/api/defer.rs:13-38 | an action that calls no function goes on at the label it names, on the same frames but for what it defers |
| ComingBack.CallEnters | src/light_weight_thread.rs:98-107 | a called function is entered at its entry, on a frame of its own with the arguments passed and the closure's captured block |
| ComingBack.LaunchEnters | src/light_weight_thread.rs:98-107 | so is the function a goroutine starts with |
| PanicTarget.RoundMovesOn | src/api/panic.rs:39-51 | done with a frame, the loop resumes its caller if recovered, stops the process if the frame is the first, and else goes on with the frame below |
| PanicTarget.StepProceeds | src/api/panic.rs:16-52 | in an unwinding, a round of the loop makes the next deferred call of its frame or, when there is none, resumes the caller, stops the process or goes on with the frame below; any other step leaves the unwinding where it is, recovered or not |
| PanicTarget.KeepsUnwinding | src/api/panic.rs:16-52 | from anywhere in an unwinding that nobody recovers, the number of rounds determines the frame and the deferred call it has reached, and that it has stopped |
| PanicTarget.NobodyRecovers | src/api/panic.rs:16-62 | if nobody recovers, the deferred calls of all frames run from the top down, one each round; the process has stopped with the panic's value exactly when there have been as many rounds as deferred calls and frames |
| PanicTarget.RecoveryResumesCaller | src/api/panic.rs:39-78 | if the first recovery is in a deferred call of frame k, it yields the value; after as many more rounds as k has deferred calls left, and one, control is at k's resume function on its caller, with older frames as they were, exactly the deferred calls of the frames above and of k having run |
| PanicTarget.CanStop | src/api/panic.rs:16-62 | whatever has happened since a panic that nobody has recovered, the goroutine can go on, without panic or recovery, to where the process stops with its value |
| PanicTarget.CanResume | src/api/panic.rs:39-78 | whatever has happened since the first recovery, in a deferred call of frame k, the goroutine can go on to where control is at k's resume function, or has been there |
| LoopTurns.LoopResumes | src/api/panic.rs:39-51 | a goroutine can always run its code, without panic or recovery, to where a suspended loop resumes: any loop if it is not panicking, else the innermost |
| NestedPanics.RunTracks | src/api/panic.rs:16-78 | over every run, there is one of Go's panics for each loop in progress, and while the goroutine is panicking the innermost is not recovered |
| NestedPanics.RecoveryLosesExactly | src/light_weight_thread.rs:165-178 | after a recovery the code can go on, without panic or recovery, to where an unrecovered unwinding is ended, if and only if an outer panic in progress has not been recovered |
| NestedPanics.InnerRecoveryEndsOuter | src/api/panic.rs:16-78 | a run in which the recovery of an inner panic makes the outer loop resume its caller as if recovered |
| LightWeightThread.LightWeightThreadContext.PushFrame | src/light_weight_thread.rs:53-84 | pushes a frame with no free variables and no deferred calls |
| LightWeightThread.LightWeightThreadContext.PopFrame | src/light_weight_thread.rs:86-96 | follows the previous stack pointer, which on the first frame is the frame itself |
| LightWeightThread.LightWeightThreadContext.PanicRaiseBody | src/api/panic.rs:16-52 | in place, one round of unwinding |
| LightWeightThread.LightWeightThreadContext.DeferExecute | src/api/defer.rs:86-114 | in place, one round of running deferred calls |
| LightWeightThread.LightWeightThreadContext.DeferRegister | src/api/defer.rs:13-38 | in place, puts an entry on the caller's deferred calls |
| LightWeightThread.LightWeightThreadContext.PanicRaise | src/api/panic.rs:55-60 | in place, sets the flag and the value and starts to unwind |
| LightWeightThread.LightWeightThreadContext.PanicRecover | src/api/panic.rs:69-78 | in place, yields the panic's value and clears the flag if the flag is set, and else yields nil |
| LightWeightThread.LightWeightThreadContext.PrepareUserFunction | src/light_weight_thread.rs:98-107 | in place, installs the captured block of a closure in the frame on top |
| DeferStack.DeferStack.Push | src/defer_stack.rs:49-52 | relinks so that the list is the entry followed by the old list |
| DeferStack.DeferStack.Pop | src/defer_stack.rs:54-58 | unlinks the first entry and leaves the rest in order |
| Frames.Search | src/object/interface.rs:47-55 | the first method of that name in the table, or none |
| Frames.OverwrittenAgrees | src/api/interface.rs:149-157 | what a longer write left before makes no difference below the end of the last write |
| Frames.Stack.GrowStack | src/light_weight_thread.rs:47-51 | moves by the size rounded up to whole words |
| Frames.Stack.PopFrame | src/light_weight_thread.rs:86-96 | back to the previous stack pointer, yielding the resume function |
| Frames.Stack.PushFrame | src/light_weight_thread.rs:53-84 | writes exactly the words of a frame and no others: resume function, previous stack pointer, two cleared words, result pointer if any, parameters |
| Frames.Stack.SwitchFunction | cgen/main.go:263-283 | the emitted call sequence writes exactly the words of the callee's frame, each in its place, and moves the stack pointer to it |
| Frames.Stack.SwitchToInvoke | cgen/main.go:290-311 | the emitted sequence for a call through an interface writes the frame of the runtime function: result pointer or NULL, the interface, the method's name, the arguments after their count |
| Frames.Stack.DuplicateArgs | src/word_chunk.rs:18-31 | copies the argument words out before they are overwritten |
| Frames.Stack.InterfaceInvoke | src/api/interface.rs:135-160 | replaces its own frame, in place, with the frame of the method it finds in the table of the interface its frame names |
| Frames.Stack.CallThroughInterface | src/api/interface.rs:135-160 | the method found is that of the interface passed; stack pointer, header, result pointer and parameters are those a direct call of it would have built |
| TypeOrder.VisitSucceeds | cgen/main.go:1450-1507 | with containment well-founded and names finite the traversal ends, keeps what it found, and adds no type that comes later in the order |
| TypeOrder.TerminatesExactly | cgen/main.go:1445-1514 | the traversal, which spells the name of each type it visits, ends if and only if on what the types lead to containment is well-founded and names are finite |
| TypeOrder.DefinitionsAreSorted | cgen/main.go:1445-1514 | exactly the types led to come out, each once, pointers first, every other type after all it contains |
| TypeOrder.TreesNeverEnd | cgen/main.go:1450-1507 | on a struct that holds a slice of itself the traversal never ends |
| TypeOrder.NamesNeverEnd | cgen/main.go:178-187 | on `type C chan C` and `type P *P` containment is well-founded, yet spelling the name, and so the traversal, never ends |
| TypeOrder.TypeCollector.VisitType | cgen/main.go:1450-1507 | the traversal in place, on a found-set and two lists, is the recursive one, and terminates |
| TypeOrder.TypeCollector.RetrieveOrderedTypes | cgen/main.go:1445-1514 | so is the collection of all types of a package |
| Shifts.ShiftLeftIsExact | cgen/main.go:437-453 | for every width, operand and count type, the C emitted for a left shift is defined and is multiplication by a power of two modulo the width; a negative count fails the assertion |
| Shifts.ShiftRightIsExact | cgen/main.go:454-477 | for every width, operand and count type, the C emitted for a right shift is defined and is division by a power of two rounded down, signed or not, also for counts of the width or more |
| Shifts.SignBitsValue | cgen/main.go:463-463 | the mask shifted right and left is the count of ones at the top |
| Shifts.OrIsSum | cgen/main.go:463-463 | the sign bits and the bits shifted down do not overlap |
| Shifts.WrapMeans | cgen/main.go:437-453 | the value stored in a type is in its range and differs from the number by a multiple of two to the width |
| Shifts.RangesAre | cgen/main.go:437-477 | the ranges of Go's integer types, in numbers |
| Shifts.CommonMeans | cgen/main.go:437-477 | operands are converted as C does: at least `int`, as wide as the wider, unsigned if one of that width is |
| Encoding.Encode | cgen/main.go:63-76 | the loop fails on what is not ASCII and else encodes character by character |
| Encoding.EncodedIsIdentifier | cgen/main.go:63-76 | an encoded name consists of ASCII letters, digits and underscores |
| Encoding.CharacterBecomes | cgen/main.go:69-73 | a letter or digit is left as it is; any other character becomes an underscore, the two hexadecimal digits of its code, and an underscore |
| Encoding.EncodedInOrder | cgen/main.go:63-76 | the characters of a name are encoded each in its place |
| Encoding.PlainTextIsKept | cgen/main.go:69-73 | a name of letters and digits is its own encoding |
| Encoding.EncodingIsReversible | cgen/main.go:63-76 | encoding has a left inverse |
| Encoding.EncodingIsInjective | cgen/main.go:63-76 | two names have one identifier only if they are one name |
| Encoding.ReturnNamesAreFree | cgen/main.go:1421-1424 | the suffix of a bound method's resume function makes a name that no encoded name is |
| Encoding.LabelsAreUnique | cgen/main.go:1199-1223 | the label of an instruction, block or function determines which it is, its index, block and function |
| Naming.NamesDetermine | cgen/main.go:128-212 | a type name followed by more text determines the type, up to what names leave out, and the text |
| Naming.ErasedName | cgen/main.go:128-212 | what names leave out makes no difference to them |
| Naming.TypeNamesAreUnique | cgen/main.go:128-212 | two types have one C name if and only if they differ at most in channel direction, the contents of interfaces and signatures, or being untyped |
| Naming.StructTextsClose | cgen/main.go:192-193 | the text of every struct type, with tags and nested types, ends where its brace closes, which is what names with a struct in them rely on |
| Naming.OthersArePrintable | cgen/main.go:128-212 | types built without named types and structs satisfy what is assumed of names |
| Naming.SignatureNamesAreUnique | cgen/main.go:1270-1299 | two signatures, in any variant, have one name if and only if their C structs have the same fields |
| Naming.FieldsInOrder | cgen/main.go:1612-1641 | the C struct of a signature has a result pointer if there are results, to the one result or a tuple of them, then the receiver unless it is bound, then the parameters in order |
| Naming.EmitSignatures | cgen/main.go:1602-1661 | the loop that skips names already emitted gives every signature asked for a definition with its own fields, and defines no name twice |

## Left out

- Slices, strings, maps and iterators: their runtime functions are not modelled.
- Interface equality, hashing, type assertions and conversions between interfaces are not modelled.
- Simulation: running deferred calls, and starting a goroutine, are one step of the runtime there, like every `Api`; the functions that deferred calls run, on the same stack, are in `Unwinding` and not in the traces of `Simulation.TranslationCorrect`.
- Receivers in interfaces are one word: the code copies one, and only pointers have method tables.
- Calls through a nil interface, which Go turns into a panic, have no step.
- Values are abstract: floats, complex numbers, integer arithmetic other than shifts, printing.
- The bytes of channel elements: a send copies them into the heap and a receive out of it; the model moves values.
- `StringObject` comparison of method names: names are words that are equal or not.
- `LightWeightThread` keeps a frame's deferred calls as a sequence; that the linked list is one is `DeferStack` alone.
- Raw memory: allocation, guard pages, the tag bit in addresses, mutexes and reference counts. `FunctionObject` is a datatype with a case for closures.
- The dispatch loop `execute` is the function `Trampoline.Advance` on values; a goroutine's frames there are values too. `Frames` has the words, `LightWeightThread` the updates in place.
- The suspended and terminated flags: the transition system of `Goroutines` has them as part of its state, `LightWeightThread` only the panicking flag.
- The panic instruction and the recover block of a function in the SSA language: unwinding is modelled on frames, not on SSA programs.
- Wrappers for bound methods and the special case for the runtime package's `init`.
- Startup: the first goroutine starts in the function it is given, not in the package initialisers with their result slot.
- Sends on closed channels: the code does not reject them, and neither does the model; no result is about Go's rule that they panic.
- Recovery in Go works only in a function called directly by a deferred call; here, as in the code, anywhere.
- Naming: types are finite terms there; that a recursive named type can have an infinite name is in `TypeOrder` alone.
- RunQueue.GlobalContext.MainLoop: what a dispatched goroutine does is given as a turn, it yields, spawns or ends; the C code it runs is `Trampoline`.
- The resume function of a call of `panic` is NULL in the emitted code; it is the case `Nowhere` here, proved never to be entered.
- The C text: emitted C is a datatype of statements and expressions, and C structs are lists of field types.
- Makefile generation, package loading and the front end that builds SSA.
- Frames.Stack.CallThroughInterface: says nothing of memory beyond the end of the method's frame, where words of the larger frame remain that the method writes before it reads.
