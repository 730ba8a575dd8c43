# Pixel: a verified model

Pixel is an actor runtime: services written in Lua exchange messages through queues that worker
threads take from a global list. This project models the C code that everything else stands on and
proves what it is relied on for. Each part has a simple specification that the C code speeds up or
distributes; the methods of this project follow the C code and are proved against that specification,
and the specification is proved to have the promised properties.

* **Pattern matching** (vendored LPeg 0.12.2, which reads the sproto schema language). `PegAnalysis`
  holds the meaning of parsing expressions and the static analyses, `PegMachine` the backtracking
  machine, `PegCodegen` the code as a specification, `PegCompiler` the compiler that appends and patches
  in place, `PegCorrect` the proof that compiled patterns mean what the pattern means, `PegOptional` the
  family of patterns for which they do not, `PegTree` the in-place rotation of flat trees, `PegCharset`
  the recognition of special character sets.
* **Timers**. `TimerSpec` says when timers fire, `TimerWheel` is the hierarchical wheel with its 32-bit
  time.
* **Scheduling**. `Scheduler` is the whole protocol of queues, handles and reference counts as a state
  machine over interleaved steps, one lock region or atomic operation each; `MessageQueue` is the ring
  and the linked list themselves; `RwLock` is the spinning read-write lock at the level of single
  loads and atomic operations; `HandleTable` is the array of slots that services take turns in,
  `SlotScheduler` the protocol over that array, `SchedulerRuns` three runs of it that end badly, and
  `QueueRefines` runs it on the real rings and links; `Stm` is the publication of reference-counted snapshots.
* **Data formats**. `SprotoCodec`, `SprotoRoundTrip`, `SprotoLengths`, `SprotoEncoder` and
  `SprotoDecoder` are the schema-driven codec, `SprotoPack`, `SprotoPackLimits`, `SprotoPacker` and
  `SprotoUnpacker` its zero packing, `Serial` and
  `SerialBuffer` the serialiser of Lua values, `LittleEndian` the numbers of all of them.
* **Buffers and tables**. `NetPack` reassembles length-prefixed packets, `ReadBuffer` is the read buffer
  of a socket, `SharedTable` the immutable hash table that Lua states share.
* **Crypto**. `DhExchange` is the Diffie-Hellman exchange over 64-bit words, `Des` the block cipher
  with its padding ("Deciphering" in FIPS 46-3).

Objects that the C code updates in place are classes or arrays here, and loops are loops. Sockets,
clocks and the Lua stack are parameters: a message to encode is a value, a stream of chunks is a
sequence, the registrations that come in while the timer lock is open are an argument. Where C reads
memory that the caller did not mean it to read, that memory is a parameter too (`beyond`, `stray`,
`astray`), and where it writes behind its room, the memory that is there is one (`room`).

## What the proofs found

* LPeg: `coderep` hands `opt` on to the body of a loop that it compiles to a plain test
  (3rd/lpeg-0.12.2/lpcode.c:762). An optional at the end of that body then moves the frame of the
  optional around the loop, and when it fails the loop is left: ((a (a b)?)*)? on "aa" stops after one
  character (`PegOptional.LoopLeftTooEarly`). `OptSafe` is the guard: no such body touches the frame.
  It can be checked on the pattern, and `PegCorrect.CompilerCorrect` holds for all patterns that meet it,
  including all in which no choice has the empty pattern as its second alternative
  (`PegCodegen.NoOptionalIsSafe`).
* Zero packing: when a run of exactly 256 segments ends on a tail that had to be padded, 2048 bytes are
  copied from the input, past its end (lualib/sproto/sproto.c:1229-1231). `SprotoPack.RoundTripIff` says
  exactly when this spoils the result, and `SprotoPackLimits.FullRunSpoils` gives inputs for which it does.
* Zero packing: the size allowance of lpack (lualib/sproto/lsproto.c:462-463) counts from the length before
  padding, and lpack raises its error on ordinary inputs, such as any nine bytes that are not zero
  (`SprotoPackLimits.NineBytesRefused`). `SprotoPackLimits.TooLargeIff` says for which inputs; whole
  segments always fit, and so do inputs with a zero in each eight bytes. The bound itself holds for the
  padded length (`SprotoPack.PackedSize`).
* sproto, encoding: when an integer array is widened, the room that is left can become negative, and a
  negative `int` passes the comparison with `sizeof` (lualib/sproto/sproto.c:747-749). The array is then
  written behind its room. `SprotoEncoder.EncodeIntegerArray` proves exactly when: there is room for the
  first wide number, but not for widening those before it. With fewer than three numbers before it this
  cannot happen (`SprotoEncoder.TameIff`), nor with all the room that is asked for.
* sproto, decoding: the test for room adds 4 to an announced length in 32 bits
  (lualib/sproto/sproto.c:1081), so that a length of 2^32 - 4 or more passes and the cursor moves by 0 to
  3 bytes. The source accepts such input where it should fail (`SprotoLengths.UnknownTagAccepted`);
  `SprotoLengths.AcceptedIff` says that this is the only difference to the format.
* Launches: when an init function fails while another thread still has a reference to the service, its
  queue is never freed (src/pixel.c:148-155; `Scheduler.ForgottenIff`, `Scheduler.ForgottenForever`,
  `SchedulerRuns.QueueForgotten`). When a service has been killed during an init function that then fails,
  the launch gives up a reference that is not there any more, on a service that may have been freed
  (src/pixel.c:184-185; `Scheduler.NothingDangles`, `SchedulerRuns.KilledThenFailed`). A successful launch
  gives up its own reference before it logs the launch and reports the handle, and uses the service all
  the same (src/pixel.c:189-193, 387-391); when a kill comes first, the service may have been freed
  (`SchedulerRuns.KilledThenReported`). `Scheduler.NothingDangles` says when it has not.
* Handles: the slot test takes handle 0 for a service whenever slot 0 is empty (src/handle.c:105-119);
  for every other handle it is right (`HandleTable.SlotTest`).
* Handles: when the table is doubled, empty slots are moved too, all of them to slot 0 of the new table
  (src/handle.c:66-70). A service that was there is lost: it can be neither found nor freed.
  `HandleTable.ExpandedTable` says when, and `HandleTable.LostService` is a run from the empty table.
* Read buffers: `free` drops one chunk and leaves the size as it was (lualib/lsocket.c:208-213), after which
  `pop` and `readline` can run off the list (`ReadBuffer.Free`, `ReadBuffer.PopAfterFree`); so can a
  negative `pop` on a buffer without chunks (`ReadBuffer.PopNegative`).
* Packets: lpack accepts 65536 bytes, whose size does not fit the two header bytes
  (lualib/lnetpack.c:375). `NetPack.PackParse` states for which payloads reading gives them back.
* Shared tables: an integer key is converted to a C int before it is looked up, so that a key that does
  not fit finds the binding of another one (lualib/lsharedata.c:478-510). `SharedTable.Table.Index` says
  which binding is returned for every key.

## Model

| member | source | states |
|---|---|---|
| Peg.NoFailSound | 3rd/lpeg-0.12.2/lpcode.c:172-206 | a pattern that the `nofail` analysis accepts matches at every position of every subject |
| Peg.NullableSound | 3rd/lpeg-0.12.2/lpcode.c:172-206 | a pattern that matches somewhere without consuming anything is reported nullable |
| Peg.FixedLenShift | 3rd/lpeg-0.12.2/lpcode.c:213-246 | the accumulator of `fixedlenx` only shifts its answer, and -1 (not fixed) does not depend on it |
| Peg.FixedLenSound | 3rd/lpeg-0.12.2/lpcode.c:213-246 | when the fixed length is n, every successful match of every subject consumes exactly n characters |
| Peg.Progress | 3rd/lpeg-0.12.2/lpcode.c:172-206 | a loop body that is not nullable moves forward whenever it matches, which is why compiled loops stop |
| Peg.FirstSound | 3rd/lpeg-0.12.2/lpcode.c:250-343 | at a character outside first(p, follow), p fails, or it consumes nothing and the character is outside follow too: p followed by anything that starts in follow fails |
| Peg.FirstEmptySound | 3rd/lpeg-0.12.2/lpcode.c:250-343 | when `getfirst` returns zero, the pattern fails at the end of every subject |
| Peg.FirstMonotone | 3rd/lpeg-0.12.2/lpcode.c:250-343 | a larger follow set gives a larger first set |
| Peg.HeadFailExact | 3rd/lpeg-0.12.2/lpcode.c:345-372 | a head-fail pattern matches if and only if the next character is in its first set: one test decides it |
| Peg.HeadFailNotEmpty | 3rd/lpeg-0.12.2/lpcode.c:345-372 | the first set of a head-fail pattern never asks for a match at the end of the subject, for any follow set |
| Peg.HeadFailSucceeds | 3rd/lpeg-0.12.2/lpcode.c:345-372 | a head-fail pattern cannot fail after its first character was accepted |
| PegCharset.CharsetType | 3rd/lpeg-0.12.2/lpcode.c:41-82 | the scan over 32 bytes with its early exits finds exactly the empty, the full and the one-element sets (and their element), on all 2^256 bit maps |
| PegCharset.MixedSingle | 3rd/lpeg-0.12.2/lpcode.c:57-64 | leaving the scan at a one-bit byte after other bits is right: such a set is none of the three special kinds |
| PegCharset.MixedFull | 3rd/lpeg-0.12.2/lpcode.c:52-56 | leaving the scan at a full byte after a byte that was not full is right |
| PegCharset.AllSeen | 3rd/lpeg-0.12.2/lpcode.c:67-82 | after all bytes, the bit count alone tells the kind, and the shifts on the remembered byte give the element |
| PegCharset.TestChar | 3rd/lpeg-0.12.2/lptypes.h:145 | a set has a character exactly when its mask finds the bit in its byte |
| PegExamples.Constants | 3rd/lpeg-0.12.2/test.lua:61-74 | true and false in choices, sequences and look-aheads, as in the tests of the library |
| PegExamples.Counting | 3rd/lpeg-0.12.2/test.lua:89-95 | n characters match where there are n, and "not n characters" where there are fewer |
| PegExamples.FirstMatch | 3rd/lpeg-0.12.2/test.lua:242-246 | the first alternative that matches is taken, although a later one is longer |
| PegExamples.Possessive | 3rd/lpeg-0.12.2/test.lua:242-247 | a repetition takes what it can and gives nothing back |
| PegExamples.Behindhand | 3rd/lpeg-0.12.2/test.lua:520-526 | a look-behind sees the characters before the position and consumes none; it fails at the start |
| PegMachine.StepsAdd | 3rd/lpeg-0.12.2/lpvm.c:147-288 | runs of the interpreter loop compose |
| PegMachine.Match | 3rd/lpeg-0.12.2/lpvm.c:147-288 | the imperative interpreter loop ends in the state that the step function reaches, whenever that run stops |
| PegCodegen.OptIgnored | 3rd/lpeg-0.12.2/lpcode.c:642-667 | code of a pattern that does not touch the outer choice frame is the same with and without `opt` |
| PegCodegen.NoOptionalIsSafe | 3rd/lpeg-0.12.2/lpcode.c:650-785 | every pattern in which no choice has the empty pattern as its second alternative meets the guard of the compiler theorem, under every follow set |
| PegCorrect.SpanIsRep | 3rd/lpeg-0.12.2/lpvm.c:222-229 | one ISpan instruction is the repetition of a character set |
| PegCorrect.Code | 3rd/lpeg-0.12.2/lpcode.c:534-916 | running the code of a sub-pattern that meets the guards (loops with a body that is not nullable, and OptSafe), anywhere in a program, from any position over any stack, ends past that code exactly where the pattern matches and backtracks exactly where it fails; a match may be given up only when it leaves a character outside the follow set |
| PegCorrect.CodeChoiceByTest | 3rd/lpeg-0.12.2/lpcode.c:650-667 | a choice compiled to a test and a jump (head-fail or disjoint first sets) picks the alternative that ordered choice picks |
| PegCorrect.CodeChoicePushed | 3rd/lpeg-0.12.2/lpcode.c:671-684 | a choice compiled with a backtrack entry tries the second alternative exactly after the first has failed, from the original position |
| PegCorrect.CodeOption | 3rd/lpeg-0.12.2/lpcode.c:671-684 | an optional, whose body may move the backtrack entry instead of pushing its own, matches like the optional |
| PegCorrect.CodeLoopByTest | 3rd/lpeg-0.12.2/lpcode.c:749-766 | a loop compiled to a test and a backward jump repeats greedily and leaves with the subject where the last repetition ended |
| PegCorrect.CodeLoopPushed | 3rd/lpeg-0.12.2/lpcode.c:767-784 | a loop with one backtrack entry moved by partial commits repeats greedily and restores the position before the failed repetition |
| PegCorrect.CodeNot | 3rd/lpeg-0.12.2/lpcode.c:795-809 | the two compilations of a negative look-ahead succeed exactly when the body fails, with position and stack restored |
| PegCorrect.CodeAndFixed | 3rd/lpeg-0.12.2/lpcode.c:693-700 | a look-ahead of fixed length compiled to the body and a step back restores the position |
| PegCorrect.CodeAndPushed | 3rd/lpeg-0.12.2/lpcode.c:701-708 | a look-ahead compiled with a back commit restores position and stack on success and on failure |
| PegCorrect.CodeBehind | 3rd/lpeg-0.12.2/lpcode.c:632-636 | a look-behind fails when there are too few characters before the position, and otherwise is the body from there |
| PegCorrect.CodeOpt | 3rd/lpeg-0.12.2/lpcode.c:642-684 | code that reuses the choice frame around it (`opt`) leaves to the end of that optional with the position that the pattern prescribes |
| PegCorrect.CompilerCorrect | 3rd/lpeg-0.12.2/lpcode.c:534-916 | for every pattern that meets the guards, every subject and every position in it, the compiled program (before jump threading) stops, and it accepts or rejects exactly as the parsing expression does from there, at the same end position |
| PegOptional.LoopLeftTooEarly | 3rd/lpeg-0.12.2/lpcode.c:749-766 | for any two characters a, b, the pattern ((a (a b)?)*)? on the subject aa matches two characters but the compiled code stops after one; the pattern violates the guard of the compiler theorem |
| PegCompiler.CompileState.AddOffsetInst | 3rd/lpeg-0.12.2/lpcode.c:478-483 | appends an instruction and a hole for its offset, and says where |
| PegCompiler.CompileState.JumpToThere | 3rd/lpeg-0.12.2/lpcode.c:516-519 | fills exactly the hole of the given jump with the distance to the target; NOINST changes nothing |
| PegCompiler.CompileState.JumpToHere | 3rd/lpeg-0.12.2/lpcode.c:525-527 | fills the hole with the distance to the end of the code so far |
| PegCompiler.CompileState.AddCharset | 3rd/lpeg-0.12.2/lpcode.c:546-553 | appends the slots of a character set |
| PegCompiler.CompileState.CodeChar | 3rd/lpeg-0.12.2/lpcode.c:534-540 | a character behind a test for the same character becomes an IAny, otherwise an IChar |
| PegCompiler.CompileState.CodeCharset | 3rd/lpeg-0.12.2/lpcode.c:561-578 | the shortest instruction for a set, and an IAny behind a test for the same set |
| PegCompiler.CompileState.CodeTestSet | 3rd/lpeg-0.12.2/lpcode.c:587-608 | a test with an open offset, or none when the pattern accepts the end of the subject |
| PegCompiler.CompileState.CodeGen | 3rd/lpeg-0.12.2/lpcode.c:891-916 | appending and patching in place produces the relative-jump fragment that the correctness proof is about, behind any code |
| PegCompiler.CompileState.CodeSeq1 | 3rd/lpeg-0.12.2/lpcode.c:871-883 | the first part of a sequence is generated under the first set of the second, and the dominating test survives only a part that consumes nothing |
| PegCompiler.CompileState.CodeBehind | 3rd/lpeg-0.12.2/lpcode.c:632-636 | the look-behind instruction and its body |
| PegCompiler.CompileState.CodeChoice | 3rd/lpeg-0.12.2/lpcode.c:650-685 | the three cases of a choice are taken under the conditions of the specification |
| PegCompiler.CompileState.CodeChoiceByTest | 3rd/lpeg-0.12.2/lpcode.c:650-667 | both jumps of a tested choice end up patched to their labels |
| PegCompiler.CompileState.CodeChoicePushed | 3rd/lpeg-0.12.2/lpcode.c:671-684 | test, choice and commit end up patched to their labels, with or without the test |
| PegCompiler.CompileState.CodeAnd | 3rd/lpeg-0.12.2/lpcode.c:693-709 | fixed-length and general look-ahead |
| PegCompiler.CompileState.CodeRep | 3rd/lpeg-0.12.2/lpcode.c:749-785 | span, tested loop or loop with a backtrack entry, under the conditions of the specification |
| PegCompiler.CompileState.CodeLoopByTest | 3rd/lpeg-0.12.2/lpcode.c:755-766 | the backward jump and the exit of a tested loop end up at their labels |
| PegCompiler.CompileState.CodeLoopPushed | 3rd/lpeg-0.12.2/lpcode.c:767-784 | the partial commits go back to the body, the test and the choice to the exit |
| PegCompiler.CompileState.CodeNot | 3rd/lpeg-0.12.2/lpcode.c:795-809 | head-fail negation is a test and a fail; otherwise the body runs under a choice entry |
| PegCompiler.Compile | 3rd/lpeg-0.12.2/lpcode.c:973-979 | the imperative compiler produces, for every pattern, the program of the correctness theorem, up to the jump threading behind it |
| PegCompiler.CompileAndMatch | 3rd/lpeg-0.12.2/lptree.c:1125-1161 | for every pattern that meets the guards, compiling in place and running the interpreter loop gives the PEG result on every subject, from any initial position, counted from either end and cropped |
| PegTree.RotatedMeans | 3rd/lpeg-0.12.2/lptree.c:71-90 | rotating a left-nested sequence or choice changes no match at any position of any subject |
| PegTree.RotatedFits | 3rd/lpeg-0.12.2/lptree.c:71-90 | the rotated tree has the same size and no first sibling with the operator of its parent at the root |
| PegTree.FixedMeans | 3rd/lpeg-0.12.2/lptree.c:100-126 | fixing the whole tree keeps its meaning on every subject |
| PegTree.FixedLeans | 3rd/lpeg-0.12.2/lptree.c:100-126 | after fixing, no node anywhere has a first sibling with its own operator, and the size is the same |
| PegTree.MoveDown | 3rd/lpeg-0.12.2/lptree.c:85 | the overlapping move of nodes towards the front copies them unharmed and touches nothing else |
| PegTree.RotateOnce | 3rd/lpeg-0.12.2/lptree.c:81-89 | one turn of the loop, on the flat array, exchanges (a op b) op c for a op (b op c) and shortens the first sibling |
| PegTree.CorrectAssociativity | 3rd/lpeg-0.12.2/lptree.c:78-90 | the in-place loop terminates and leaves the flat form of the rotated tree, and nothing outside the tree changes |
| PegTree.FinalFix | 3rd/lpeg-0.12.2/lptree.c:100-126 | the in-place recursion leaves the flat form of the fixed tree, and nothing outside the tree changes |
| TimerSpec.FiresExactlyOnceOnTime | src/timer.c:129-165 | over every run of ticks and registrations, a timer is either still waiting for a deadline not yet passed and has not been dispatched, or has been dispatched exactly once, at its deadline |
| TimerSpec.FiredIffReached | src/timer.c:159-165 | after every tick of every run, exactly the timers whose deadline has been reached have been dispatched |
| TimerSpec.FiresAfterDelay | src/timer.c:159-217 | after any run, a timer registered with a delay has fired, in every continuation, if and only if as many updates have come since as the delay says (one for a delay of zero); then it fired at that tick, once |
| TimerSpec.EqualDeadlinesInOrder | src/timer.c:118-137 | over every run, timers dispatched at the same tick are dispatched in the order of their registration |
| TimerSpec.ApplyKeeps | src/timer.c:159-165 | on time, once only, none lost, never late and in order: kept by every registration and every tick, which leaves nothing due behind |
| TimerSpec.FireKeeps | src/timer.c:129-137 | dispatching one batch of due timers keeps the same invariant |
| TimerSpec.RunKeeps | src/timer.c:159-217 | the invariant holds after every run |
| TimerWheel.WrappedBlocks | src/timer.c:91-107 | for deadlines less than 2^31 ahead, comparing wrapped 32-bit times block by block decides like comparing the true times |
| TimerWheel.PlacedByWrappedTimes | src/timer.c:91-107 | the list chosen from 32-bit times is the list chosen from true times, also when the time has wrapped in between |
| TimerWheel.NearSlotIsDue | src/timer.c:129-137 | the near slot of the current time holds exactly the timers due now, in registration order |
| TimerWheel.FiringEmptiesOneList | src/timer.c:129-137 | dispatching the due timers empties one near slot and leaves every other list as it was |
| TimerWheel.StaysPut | src/timer.c:139-157 | a waiting timer outside the slot that comes up belongs in the same list after the tick |
| TimerWheel.MovesDown | src/timer.c:139-157 | a timer in the slot that comes up belongs at a lower level after the tick |
| TimerWheel.NoneBelow | src/timer.c:139-157 | when a slot of some level comes up, every list below that level is empty |
| TimerWheel.CascadeMoves | src/timer.c:139-157 | moving the slot that comes up gives every list its contents for the new time, in registration order |
| TimerWheel.Wheel.constructor | src/timer.c:167-182 | an empty wheel at time zero |
| TimerWheel.Wheel.AddNode | src/timer.c:91-107 | a node is appended to exactly one list, the one its expiry time selects |
| TimerWheel.Wheel.MoveList | src/timer.c:109-116 | a slot is emptied and each of its nodes is appended to its new list, in order |
| TimerWheel.Wheel.Timeout | src/timer.c:209-217 | registering puts a timer into the wheel exactly as it puts it among the waiting timers, for every delay of a non-negative C int |
| TimerWheel.Wheel.Execute | src/timer.c:129-137 | dispatches all timers due now, including those registered while the lock is released between batches, in order |
| TimerWheel.Wheel.Shift | src/timer.c:139-157 | one tick of the wheel, with all its masks and cascades and across the 32-bit wrap, is one tick of the clock |
| TimerWheel.Wheel.Update | src/timer.c:159-165 | one update dispatches the late and the due timers and leaves the wheel in step with the specification; the returned ids are what the log gained |
| TimerWheel.RunWheel | src/timer.c:129-217 | a whole run of the wheel over any list of registrations and ticks dispatches the timers of the specification, at its ticks and in its order |
| Scheduler.StepKeeps | src/pixel.c:132-370 | every step of every thread keeps: a queue is in at most one place, reference counts count references, and a service is freed by one thread |
| Scheduler.RunKeeps | src/pixel.c:132-370 | the invariant holds after every interleaving of any number of threads |
| Scheduler.OneWorkerPerService | src/pixel.c:328-370 | in every reachable state at most one thread has the queue of a service, and then it is not on the global list: no service runs twice at once |
| Scheduler.GlobalListDistinct | src/queue.c:41-65 | the global list never holds a queue twice and never one that was freed |
| Scheduler.WaitingMeansScheduled | src/queue.c:80-120 | a launched service with waiting messages is on the global list or in the hands of a thread: it is never forgotten |
| Scheduler.MessagesInOrder | src/queue.c:80-120 | what was pushed to a service is what was popped followed by what waits: nothing lost, doubled or reordered (what was pushed: see SchedulerMessages) |
| SchedulerMessages.MessagesArrive | src/pixel.c:213-221 | over every schedule, with the sends read off it: what was pushed to a service is what was popped followed by what waits; together with what threads are about to push, it is the multiset of the messages of all sends that found the service; and for each thread it is in the order of its sends |
| Scheduler.FreedOnceUnreferenced | src/handle.c:105-167 | over the table of services: while a thread has a reference the service is there, counted and not freed, and nobody is freeing it; it is freed by one thread only |
| Scheduler.NothingDangles | src/pixel.c:132-224 | the service or queue that the next step of a thread uses is there, but for two steps of a launch: the forced release of a failed one has a first reference to give up if and only if no kill gave it up; the report of a successful one, after it has given up its only reference, finds the service if and only if another reference is out or its removal is not finished, and always when there was no kill |
| Scheduler.FreedIff | src/handle.c:121-167 | a registered service has not been freed if and only if its first reference or one of a thread is out, or its removal is still to come, or a thread is freeing it |
| Scheduler.ReachableLaunches | src/pixel.c:166-194 | in every run only launched services are reported, and the first reference of a launched service is gone exactly when it was killed |
| Scheduler.NothingLeaks | src/handle.c:121-155 | when all threads are idle, a service is freed exactly when its first reference was given up and a live one has count 1; the queue of a freed service waits in the global list if and only if it is not one that was forgotten |
| Scheduler.ForgottenIff | src/pixel.c:148-155 | a queue is forgotten by exactly one kind of step: a failed launch gives up the first reference while somebody else still has one |
| Scheduler.ForgottenForever | src/pixel.c:148-155 | a forgotten queue is never freed: in every continuation it exists, is on no list and in no thread's hands |
| SchedulerRuns.QueueForgotten | src/pixel.c:176-187 | a run of two threads that ends at rest with the queue of a freed service forgotten: a launch fails while another thread looks the service up |
| SchedulerRuns.KilledThenFailed | src/pixel.c:182-187 | a run in which a service is killed during its init function, which then fails: the launching thread is about to use a service that has been freed |
| SchedulerRuns.KilledThenReported | src/pixel.c:188-193 | a run in which a service is killed after the end of its launch and before the log: the launching thread is about to use a service that has been freed |
| HandleTable.SlotTest | src/handle.c:105-119 | the test `slot->handle == handle` is the search in the table of services, for live handles and for old ones whose slot was given away, if and only if the handle is not 0 or slot 0 is taken |
| HandleTable.PutTable | src/handle.c:77-155 | writing one slot binds or removes one service and leaves all others as they are |
| HandleTable.NextFreeFinds | src/handle.c:86-102 | as long as one slot is empty, as many handles as there are slots are enough to find one |
| HandleTable.ExpandedTable | src/handle.c:57-75 | doubling the slots keeps every service and its count, except the one in slot 0, which is lost if and only if it stays in slot 0 and a later slot is empty |
| HandleTable.Table.Expand | src/handle.c:57-75 | the loop over the old slots builds that table, and the number of services stays right if and only if none is lost |
| HandleTable.LostService | src/handle.c:57-103 | 44 registrations and 31 removals on the 16 slots that the source starts with lose the service 32 |
| HandleTable.Table.Regist | src/handle.c:77-103 | the table grows when a quarter of the slots is not left; the next handle whose slot is empty is given, occupied slots are skipped, and exactly one service is added, with one reference and a new handle; all others stay but the one that growing can lose |
| HandleTable.Table.Grab | src/handle.c:105-119 | one reference more if and only if the handle is live, whatever its slot holds otherwise |
| HandleTable.Table.ReleaseRef | src/handle.c:121-135 | one reference less in the slot, and whether there is another one |
| HandleTable.Table.Remove | src/handle.c:137-155 | the slot is emptied for the next service if and only if the handle still has it and no reference is left |
| SlotScheduler.SlotStepRefines | src/handle.c:57-167 | every step of the scheduler over the array of slots, which grows, is a step of the scheduler over the table |
| SlotScheduler.SlotFreedOnceUnreferenced | src/handle.c:57-167 | in every run over a growing slot array, with slots used again and again: a referenced service has its slot and a positive count and nobody frees it; a service that is being freed has lost its slot, and one thread frees it |
| SlotScheduler.SlotNothingDangles | src/pixel.c:132-224 | in every such run, what the next step of a thread works on is there, with the same two exceptions and their exact conditions read off the slots |
| SlotScheduler.OldHandlesFindNothing | src/handle.c:105-119 | in every such run, the handle of a freed service finds nothing, whoever has its slot by now, and that of a live service finds its own slot |
| SlotMessages.SlotMessagesArrive | src/pixel.c:213-221 | the same for schedules over a growing slot array, where a send counts when its slot test finds the service |
| Scheduler.PopMessageKeeps | src/queue.c:96-120 | popping a message, or finding the queue empty and giving up its place |
| Scheduler.PushMessageKeeps | src/queue.c:80-94 | pushing a message puts an idle queue on the global list, once |
| Scheduler.NextKeeps | src/pixel.c:363-369 | choosing the next queue, or keeping the own one when there is none |
| Scheduler.QueueFreeKeeps | src/queue.c:149-160 | a released queue is freed by its one owner, another goes back on the list |
| Scheduler.GrabKeeps | src/handle.c:105-119 | over the table: a reference may be taken as long as the service is there, even when its count has just reached zero |
| Scheduler.ReleaseRefKeeps | src/handle.c:121-135 | over the table: giving up a reference; the last one sends the thread on to removal |
| Scheduler.RemoveKeeps | src/handle.c:137-155 | over the table: removal rechecks the count: a service that was grabbed again stays, and only one thread removes it |
| Scheduler.MarkFreeKeeps | src/queue.c:162-170 | an idle queue is put on the list when its service is freed, so that a worker finds and frees it |
| Scheduler.LaunchOkKeeps | src/pixel.c:176-189 | a new service, which exists with its queue from one step on, gets the queue on the list after its init function, not before, and goes on to give up its own reference |
| Scheduler.ReportKeeps | src/pixel.c:189-193 | the log and the report of the new handle keep the invariant |
| Scheduler.LaunchFailKeeps | src/pixel.c:182-187 | a failed launch gives up the references it created |
| SchedulerAlone.PushAlone | src/pixel.c:213-221 | a push that nobody interrupts puts the message at the end of the queue, and the queue on the list if it was idle; nothing else has changed |
| SchedulerAlone.DispatchAlone | src/pixel.c:328-350 | a worker that finds a queue with messages is in its callback with the oldest one; with an empty queue it makes it idle and gives its reference back |
| SchedulerAlone.NextAlone | src/pixel.c:363-369 | after a callback the worker keeps its queue if no other waits, or else takes the first and puts its own at the end |
| SchedulerAlone.LaunchAlone | src/pixel.c:166-194 | a launch leaves a new service with one reference and an empty queue on the list |
| SchedulerAlone.KillAlone | src/handle.c:121-155 | a kill of a service that nobody else uses frees it, and marks its queue and lists it if it was idle |
| SchedulerAlone.FreeAlone | src/pixel.c:333-344 | a worker that finds the queue of a freed service frees that queue |
| MessageQueue.PutAtTail | src/queue.c:80-94 | writing at the tail of a ring appends to its contents, also when the ring becomes full |
| MessageQueue.TakeAtHead | src/queue.c:96-120 | advancing the head takes the oldest message |
| MessageQueue.Doubled | src/queue.c:106-113 | the overload threshold after doubling: the length does not exceed it, and it was not doubled once too often |
| MessageQueue.Queue.constructor | src/queue.c:122-131 | a new queue is empty and counts as being on the global list, so that pushes before the launch is over do not schedule it |
| MessageQueue.Queue.Expand | src/queue.c:67-78 | growing a full ring keeps its messages in order |
| MessageQueue.Queue.Push | src/queue.c:80-94 | the message is appended, and the queue asks to be scheduled exactly when it was idle |
| MessageQueue.Queue.Pop | src/queue.c:96-120 | the oldest message is removed, or an empty queue becomes idle; overload and threshold are updated as promised |
| MessageQueue.Queue.Len | src/queue.c:176-187 | head, tail and capacity give the number of waiting messages |
| MessageQueue.Queue.Overload | src/queue.c:189-196 | an overload is reported once |
| MessageQueue.Queue.MarkFree | src/queue.c:162-170 | marks the queue released and asks for scheduling exactly when it is idle |
| MessageQueue.Queue.Drop | src/queue.c:139-147 | every remaining message is dropped, once and in order |
| MessageQueue.GlobalList.Push | src/queue.c:41-50 | the linked list gets the queue at its end |
| MessageQueue.GlobalList.Pop | src/queue.c:52-65 | the queue that waited longest is unlinked, and its link is cleared |
| QueueRefines.PushMessage | src/queue.c:80-94 | pushing to the ring, with its growth, is the scheduler's step, and it asks to be scheduled exactly when that step puts the queue on the list |
| QueueRefines.PopMessage | src/queue.c:96-120 | popping from the ring is the scheduler's step, and hands over the message that the step takes |
| QueueRefines.MarkFree | src/queue.c:162-170 | marking the ring released is the scheduler's step |
| QueueRefines.StepRings | src/queue.c:41-170 | on rings and a linked list that mirror a state, every step of the scheduler is an operation on one ring, the list or both, which then mirror the next state: no queue is linked twice and no stale link is left; a pop hands over the message of that step |
| QueueRefines.RunRings | src/queue.c:41-170 | any run of any number of threads on real rings and a real list: what was handed to the callbacks of a service, followed by what its ring holds, is what was pushed to it, across every growth; that is, but for what threads are about to push, the messages of the sends in the schedule that found it, each once, and in the order of each thread; a launched service whose ring is not empty is on the list or in the hands of a thread |
| RwLock.StepKeeps | src/lock.h:80-100 | every single load or atomic operation of any thread keeps the lock invariant, although readers announce themselves before the second check |
| RwLock.RunKeeps | src/lock.h:80-100 | the invariant holds after every interleaving |
| RwLock.WriterIsAlone | src/lock.h:80-100 | for any number of threads and any interleaving, a writer inside excludes readers and other writers |
| RwLock.QuietMeansFree | src/lock.h:80-100 | when all threads are outside, both fields of the lock are back to zero |
| RwLock.ReaderAlone | src/lock.h:80-87 | a reader that is let alone is inside after three operations, counted once, if nobody owns the write flag; otherwise it waits for ever, not counted |
| RwLock.WriterAlone | src/lock.h:93-96 | a writer that is let alone owns the flag after two operations and is inside if no reader is counted; it waits for readers, or for the owner of the flag |
| RwLock.WithdrawsAlone | src/lock.h:80-87 | a reader that announced itself while a writer took the flag takes that back and waits |
| RwLock.SetMeansOwned | src/lock.h:80-100 | in every run the write flag is set exactly when one of the writers owns it |
| Stm.StepKeeps | lualib/lstm.c:24-112 | every step of readers and of the writer keeps: counts are right, versions belong to addresses, and what a reader remembers is true |
| Stm.HeldCopiesStay | lualib/lstm.c:45-101 | the count of a copy is the object's link plus all references of threads, and a copy that somebody has is live and nobody is freeing it |
| Stm.FreedOnce | lualib/lstm.c:45-52 | in every run a copy is freed by one thread only, when its count is zero and nobody has it |
| Stm.AddressTestIsRight | lualib/lstm.c:202-232 | the pointer comparison of a reader says "not updated" if and only if nothing was published since its last read, although freed addresses are used again |
| StmReads.ReadsThePublished | lualib/lstm.c:91-101 | in every run, a reader has in hand the copy that was linked in the object at its own latest stm_copy step, and remembers the one of its last finished read |
| StmReads.NotUpdatedIff | lualib/lstm.c:202-214 | in every run, the pointer comparison says "not updated" if and only if no step of the schedule published or closed between the stm_copy of the last finished read and that of this one, or the object was closed at both; for a first read, if and only if it was closed |
| StmReads.Between | lualib/lstm.c:103-112 | what the object offers changes between two moments of a run exactly when somebody publishes or closes in between |
| StmReads.UpdateIsRead | lualib/lstm.c:91-232 | a run of a reader and a writer: the second read gets the second copy, and the first copy is freed |
| Stm.NothingLeaks | lualib/lstm.c:45-112 | at rest, every live copy is the published one or the last copy of some reader |
| SprotoPack.SizeBound | lualib/sproto/sproto.c:1148-1254 | packed data is at most the segments plus two bytes for each block of 256 segments: a run that ends early is paid for by the segment that ended it |
| SprotoPack.PackedSize | lualib/sproto/sproto.c:1148-1254 | for inputs of every length, the packed size is at most the padded length plus 2 * ceil(length / 2048) |
| SprotoPackLimits.SizeIs | lualib/sproto/sproto.c:1200-1254 | the packed size is eight bytes for each segment and two for each run, less the zeros that are dropped |
| SprotoPackLimits.TooLargeIff | lualib/sproto/lsproto.c:459-477 | lpack's allowance is too small if and only if the padding and the heads of the runs exceed the dropped zeros and two bytes for each 2048 |
| SprotoPackLimits.ZerosFit | lualib/sproto/lsproto.c:459-477 | an input with a zero in each eight bytes always fits the allowance, whatever its length |
| SprotoPackLimits.NineBytesRefused | lualib/sproto/lsproto.c:459-477 | any nine bytes that are not zero pack to twelve, and lpack allows eleven |
| SprotoPackExamples.HeaderBit | lualib/sproto/sproto.c:1148-1180 | bit i of a header says whether byte i of the segment is not zero |
| SprotoPackExamples.PackZeros | lualib/sproto/README.md:277-282 | the first example of the packing format, byte by byte |
| SprotoPackExamples.PackThirty | lualib/sproto/README.md:287-292 | the second example: thirty bytes in one run, with the padding written out |
| SprotoPack.UnpackPack | lualib/sproto/sproto.c:1200-1308 | unpacking what was packed gives back the segments, with the memory behind the input in place of the padding exactly when a full run ends there |
| SprotoPack.RoundTripIff | lualib/sproto/sproto.c:1227-1234 | the padded input comes back if and only if no run of 256 segments ends on a padded tail, or the bytes behind the input happen to be zero |
| SprotoPackLimits.FullRunSpoils | lualib/sproto/sproto.c:1227-1234 | 2047 bytes that are not zero, with such memory behind them, do not come back as the padded input |
| SprotoPack.RoundTrip | lualib/sproto/sproto.c:1200-1308 | every input of whole segments comes back unchanged, whatever lies behind it in memory |
| SprotoPacker.PackSeg | lualib/sproto/sproto.c:1149-1184 | the size that one segment adds and, when it fits, its header and bytes; nothing before it changes |
| SprotoPacker.WriteFf | lualib/sproto/sproto.c:1187-1197 | writes the two-byte head, the bytes of the run and zeros to whole segments, in place |
| SprotoPacker.EndRun | lualib/sproto/sproto.c:1227-1242 | closing a run writes what the format prescribes, and leaves what was already written behind it |
| SprotoPacker.LastRun | lualib/sproto/sproto.c:1247-1252 | the run left open at the end of the input, padded with zeros |
| SprotoPacker.PackInto | lualib/sproto/sproto.c:1200-1254 | the loop, on a buffer of any size, returns the full packed size and, when it fits, the buffer holds the packed data |
| SprotoUnpacker.UnpackSegment | lualib/sproto/sproto.c:1283-1304 | expands one segment in place, or fails exactly where the input ends too early |
| SprotoUnpacker.UnpackInto | lualib/sproto/sproto.c:1257-1308 | the loop, on a buffer of any size, returns the full size or -1, and the buffer holds the data when it fits |
| SprotoUnpacker.LPack | lualib/sproto/lsproto.c:459-477 | the entry point raises its error on exactly the inputs that are too large for the allowance, and never on whole segments, which come back when its result is unpacked |
| SprotoCodec.ExpandKeeps | lualib/sproto/sproto.c:974-980 | widening a 32-bit word keeps the signed value |
| SprotoLengths.FormatAccepted | lualib/sproto/sproto.c:1076-1085 | whatever the format accepts, the source decodes in the same way, although its test for room adds in 32 bits |
| SprotoLengths.AcceptedIff | lualib/sproto/sproto.c:1042-1144 | a message that the source accepts is one of the format if and only if every length it announces is below 2^32 - 4 |
| SprotoLengths.MessageCompares | lualib/sproto/sproto.c:1042-1144 | when all announced lengths are below 2^32 - 4 source and format agree on every input, and otherwise the format rejects it |
| SprotoLengths.RunawayStep | lualib/sproto/sproto.c:1076-1133 | a block with a longer length moves the cursor by less than four bytes; it is skipped for an unknown tag and for an array of strings or messages, and an error for any other single value |
| SprotoLengths.UnknownTagAccepted | lualib/sproto/sproto.c:1076-1088 | eight bytes that announce 2^32 - 4 bytes for an unknown tag: accepted by the source, with four bytes used, and rejected by the format |
| SprotoRoundTrip.RecordsFit | lualib/sproto/sproto.c:266-322 | encoding any message needs at most the number of records that import_type counted |
| SprotoRoundTrip.MaxnFits | lualib/sproto/sproto.c:266-322 | that number always fits the 16-bit count of a message |
| SprotoRoundTrip.InlineBack | lualib/sproto/sproto.c:1134-1141 | a value small enough for a record is read back from it |
| SprotoRoundTrip.BlockBack | lualib/sproto/sproto.c:983-1039 | a data block of any type, arrays and nested messages included, is read back as the value projected to the reader's schema |
| SprotoRoundTrip.FieldsBack | lualib/sproto/sproto.c:846-1144 | records and data of the fields are read back whatever follows, unknown tags being skipped |
| SprotoRoundTrip.MessageBack | lualib/sproto/sproto.c:846-1144 | decoding with schema 2 what was encoded with schema 1, both agreeing on shared tags, gives the message projected to the shared tags, with empty arrays absent, and uses exactly the encoded bytes, whatever follows them |
| SprotoRoundTrip.AgreesWithItself | lualib/sproto/sproto.c:266-322 | every schema agrees with itself |
| SprotoRoundTrip.MessageSelf | lualib/sproto/sproto.c:846-947 | projecting a message without empty arrays or unknown tags to its own schema changes nothing |
| SprotoRoundTrip.RoundTrip | lualib/sproto/sproto.c:846-1144 | with one schema, the message itself comes back, and exactly its bytes are used |
| SprotoWire.IntegerRecord | lualib/sproto/sproto.c:878-904 | an integer is in its record exactly from 0 to 0x7ffe, as 2 * (n + 1) |
| SprotoWire.EvenRecord | lualib/sproto/sproto.c:1071-1141 | an even record w > 0 stands, in the next tag, for the integer w / 2 - 1, or for the boolean that is true unless w is 2; it fails for any other type and passes over an unknown tag |
| SprotoWire.BooleanRecord | lualib/sproto/lsproto.c:177-186 | the record of a boolean is that of the integer 1 for true and 0 for false, and any integer but 0 is read as true |
| SprotoWire.SkipRecord | lualib/sproto/sproto.c:1067-1071 | a gap of tags is one odd record, and an odd record w moves the tag on by (w + 1) / 2 |
| SprotoWire.IntAt | lualib/sproto/sproto.c:704-782 | an element of an integer array is its two's complement in four or eight bytes |
| SprotoWire.NumberBlocks | lualib/sproto/sproto.c:624-645 | the bytes of 100000, -1 and -10000000000 |
| SprotoWire.ArrayBlocks | lualib/sproto/sproto.c:704-842 | the bytes of small arrays of each plain type |
| SprotoWire.EncodeAlice | lualib/sproto/README.md:226-237 | the first example of the wire protocol is encoded to its 17 bytes |
| SprotoWire.EncodeBob | lualib/sproto/README.md:239-267 | the second example, with a nested message, skipped tag and array, to 42 bytes |
| SprotoWire.DecodeExamples | lualib/sproto/README.md:226-267 | both are read back from these bytes, whatever follows, by the format and by the source |
| SprotoWire.RunExample | lualib/sproto/sproto.c:846-1144 | the loops of encoder and decoder on the first example: 17 bytes, and back; -1 only below 19 bytes of room |
| SprotoDecoder.ImportType | lualib/sproto/sproto.c:301-320 | once its fields have been read, a type is accepted exactly when their tags ascend; `base` is set exactly when they are contiguous, and `maxn` is the room its records need |
| SprotoDecoder.FindTag | lualib/sproto/sproto.c:584-608 | direct indexing and binary search find what a linear search finds, for every tag |
| SprotoDecoder.SprotoDecode | lualib/sproto/sproto.c:1042-1144 | the decoding loop, with its cursors and its 32-bit test for room, gives the fields and the used length of the source's reading, which agrees with the format as SprotoLengths says |
| SprotoDecoder.DecodeField | lualib/sproto/sproto.c:1086-1141 | one record is handed to the field with its tag, or to nobody |
| SprotoDecoder.DecodeArray | lualib/sproto/sproto.c:983-1039 | arrays by element type, with all their length checks |
| SprotoDecoder.DecodeIntegers | lualib/sproto/sproto.c:993-1022 | integer arrays of both widths are read as the signed numbers written |
| SprotoDecoder.DecodeStrings | lualib/sproto/sproto.c:950-971 | a list of sized strings, or failure when a length exceeds what is there |
| SprotoDecoder.DecodeMessages | lualib/sproto/sproto.c:950-971 | a list of sized messages, each of which must use exactly its bytes |
| SprotoEncoder.FillSize | lualib/sproto/sproto.c:615-621 | the four bytes of a length |
| SprotoEncoder.EncodeNumber | lualib/sproto/sproto.c:624-647 | a sized number of four or eight bytes; it fails exactly when the room is too small and not negative, as the C comparison has it |
| SprotoEncoder.WidenBytes | lualib/sproto/sproto.c:689-701 | four bytes of sign turn a 32-bit number into the same 64-bit number, and the top bit of its fourth byte is its sign |
| SprotoEncoder.Widen | lualib/sproto/sproto.c:744-758 | widening an integer array in place, from the last element to the first, keeps every number |
| SprotoEncoder.WidenOne | lualib/sproto/sproto.c:689-701 | one element moved and widened where it lies, although source and target overlap |
| SprotoEncoder.TameIff | lualib/sproto/sproto.c:744-749 | an integer array can be written past its room for some room if and only if three or more short numbers precede its first wide one |
| SprotoEncoder.EncodeIntegerArray | lualib/sproto/sproto.c:704-781 | the array is written with the smallest width that fits all its numbers; it stays inside its room if and only if it is not the case that there is room for the first wide number but none for widening those before it; it fails exactly when it stays inside and the room is less than the tests ask for |
| SprotoEncoder.AddNumber | lualib/sproto/sproto.c:714-774 | one turn of the loop, with the comparisons of a C int and a size_t as they are written |
| SprotoEncoder.LateWideNumber | lualib/sproto/sproto.c:744-749 | three small numbers and one that needs 64 bits, given room for 21 to 24 bytes: 33 bytes are written |
| SprotoEncoder.EncodeBools | lualib/sproto/sproto.c:797-815 | one byte for each boolean, or failure exactly when there is too little room |
| SprotoEncoder.EncodeStrings | lualib/sproto/sproto.c:816-837 | sized strings one after another |
| SprotoEncoder.EncodeObject | lualib/sproto/sproto.c:673-686 | a sized string or nested message, inside the given memory; with a tame value or enough room, inside its room |
| SprotoEncoder.EncodeMessages | lualib/sproto/sproto.c:816-837 | sized nested messages one after another, each encoded in the room that is left; failure only for want of room or of an encoding |
| SprotoEncoder.EncodeArray | lualib/sproto/sproto.c:784-843 | the data block of an array of any type; an empty array adds nothing |
| SprotoEncoder.EncodeValue | lualib/sproto/sproto.c:871-910 | a value goes into its record or into a data block, as the format prescribes (bytes and numbers: see SprotoWire), also when an array before it has used up more than the room |
| SprotoEncoder.PutRecords | lualib/sproto/sproto.c:913-936 | the tags to skip and the value, in the records |
| SprotoEncoder.EncodeField | lualib/sproto/sproto.c:862-937 | one field of the loop: records and data grow by what the field adds |
| SprotoEncoder.MoveDown | lualib/sproto/sproto.c:941-945 | the overlapping move of the data down to the records |
| SprotoEncoder.Finish | lualib/sproto/sproto.c:938-946 | the count of records is filled in and the data closes up to them |
| SprotoEncoder.MessageFits | lualib/sproto/sproto.c:846-947 | the room that the tests ask for is at least the size of the encoded message |
| SprotoEncoder.SprotoEncode | lualib/sproto/sproto.c:846-947 | a result that is not -1 is the length of the encoded message, in place. For a message whose integer arrays are tame, or with all the room that is asked for, nothing outside the room changes, and -1 is returned exactly when the message cannot be encoded or the room is smaller than what is asked for |
| SprotoEncoder.Transfer | lualib/sproto/sproto.c:846-1144 | under the same guard, encoding into a buffer and decoding from it with another version of the schema gives the projected message, exactly when the message can be encoded and the buffer is large enough |
| SharedTable.CountSize | lualib/lsharedata.c:56-76 | the node array gets exactly one slot for each key outside the array part |
| SharedTable.KeysCounted | lualib/lsharedata.c:212-246 | a node array with different keys has as many keys as slots if and only if every slot is filled |
| SharedTable.EmptySlotLeft | lualib/lsharedata.c:224-233 | when a colliding key is placed there is still an empty slot: the assertion holds by counting |
| SharedTable.ChainedLink | lualib/lsharedata.c:212-246 | linking a slot in behind the slot a key claims keeps every chain a finite list of the keys with one main position |
| SharedTable.Table.constructor | lualib/lsharedata.c:250-294 | for integer keys that fit 32 bits the two passes build a full table that holds exactly the bindings of the source, for any border as array size |
| SharedTable.Table.FillNoColliding | lualib/lsharedata.c:188-210 | after the first pass every main position that some key claims is filled by one of those keys |
| SharedTable.Table.FillColliding | lualib/lsharedata.c:212-246 | the second pass always finds a slot and places every other key |
| SharedTable.Table.LookupKey | lualib/lsharedata.c:448-476 | the walk along one chain ends, and finds the slot of a key or shows that the key is nowhere in the table |
| SharedTable.Table.Index | lualib/lsharedata.c:478-510 | indexing gives the source table's binding of the key, or nil for an absent one; a key is first converted to a 32-bit int |
| SharedTable.Table.NextKey | lualib/lsharedata.c:531-586 | nextkey from nil gives the first key of a fixed order, from each key the next one, and nil after the last |
| SharedTable.OrderIsKeys | lualib/lsharedata.c:531-586 | that order holds every key of the source table exactly once |
| NetPack.WriteSize | lualib/lnetpack.c:366-369 | read_size reads the two bytes back as the size, except that a size of 65536 becomes zero |
| NetPack.StreamStarts | lualib/lnetpack.c:164-193 | in bytes: a stream starts with a packet exactly when it has two bytes b0, b1 and at least 256 * b0 + b1 more; the packet is those, and parsing goes on behind them |
| NetPack.PackedBytes | lualib/lnetpack.c:366-383 | the packed form of n < 65536 bytes is n / 256, n % 256 and the bytes |
| NetPack.PackParse | lualib/lnetpack.c:371-383 | a packed payload is read back as itself if and only if it is shorter than 65536 bytes; lpack lets 65536 through |
| NetPack.ParseAppend | lualib/lnetpack.c:169-282 | parsing a stream that was cut anywhere is parsing its first part and going on with what that left |
| NetPack.PackAllParse | lualib/lnetpack.c:371-383 | a stream of packed payloads is read back as those payloads with nothing left over |
| NetPack.Queue.FindUncomplete | lualib/lnetpack.c:80-101 | takes the connection's partial packet out of its hash chain, and no other connection's |
| NetPack.Queue.SaveUncomplete | lualib/lnetpack.c:153-162 | puts a partial packet back without disturbing others in the same chain |
| NetPack.Queue.ExpandQueue | lualib/lnetpack.c:119-133 | growing the ring keeps its packets in order |
| NetPack.Queue.PushData | lualib/lnetpack.c:135-151 | appends a packet, growing a ring that has become full |
| NetPack.Queue.PushMore | lualib/lnetpack.c:169-193 | all complete packets of what follows are queued, and the rest becomes the partial packet |
| NetPack.Queue.FilterData | lualib/lnetpack.c:204-282 | one chunk delivers exactly the packets it completes and leaves exactly the unread bytes, for headers and bodies cut anywhere; said in bytes, the first packet out is the 256 * b0 + b1 bytes behind the first two that its connection has then, and nothing goes out when there are not so many |
| NetPack.Queue.FillRecord | lualib/lnetpack.c:207-245 | a chunk for a packet whose size is known |
| NetPack.Queue.FreshChunk | lualib/lnetpack.c:246-281 | a chunk of a connection with no partial packet |
| NetPack.Queue.CloseUncomplete | lualib/lnetpack.c:195-202 | closing a connection forgets its partial packet and nothing else |
| NetPack.Queue.Pop | lualib/lnetpack.c:341-353 | the oldest packet, or nothing when the queue is empty |
| NetPack.Dispatch | lualib/lnetpack.c:204-353 | for any interleaving of chunks and closings of any number of connections, what is delivered for each is the parse of its whole stream |
| NetPack.Drain | lualib/gate.lua:280-289 | popping until the queue is empty delivers its packets in order |
| NetPack.PackedDelivered | lualib/lnetpack.c:371-383 | payloads of at most 65535 bytes that were packed, sent and cut anywhere are delivered unchanged and in order |
| ReadBuffer.FreeBuffer | lualib/lsocket.c:28-44 | the first node goes back to the free list, and the others stay |
| ReadBuffer.PopString | lualib/lsocket.c:50-90 | the first bytes are returned without the skipped end, and exactly those bytes leave the buffer, across any number of chunks; the source runs off the list if and only if there are fewer |
| ReadBuffer.PopLong | lualib/lsocket.c:63-89 | the same when the string reaches into more than one chunk |
| ReadBuffer.ReadAll | lualib/lsocket.c:91-107 | all bytes in order, the buffer is empty and its size right, whatever it was |
| ReadBuffer.CheckSep | lualib/lsocket.c:108-124 | true if and only if the separator stands here, also when it spans several chunks; the search runs off the list if and only if the bytes end within it |
| ReadBuffer.AnswerMeans | lualib/lsocket.c:125-162 | in bytes: a returned line is what stands before the separator, which occurs at no earlier position, and what stays is what was behind it; checking says "present" or "absent" exactly as it occurs and removes nothing |
| ReadBuffer.ReadLine | lualib/lsocket.c:125-162 | the old bytes are the returned line, the separator and the new bytes, and the separator stands at no position in the line, or nothing changes when there is none; checking removes nothing; with a size that is too large it runs off the list exactly when there is no separator and the bytes end within one for which there seems to be room |
| ReadBuffer.PopBuffer | lualib/lsocket.c:163-175 | the first n bytes, or nothing when there are fewer or none are asked for; a negative n is a null pointer on a buffer without chunks and Lua's length error on any other; with a size that is too large, a null pointer or the end of the list, with the exact conditions |
| ReadBuffer.PushBuffer | lualib/lsocket.c:176-207 | the chunk is appended, and the reported size grows by its length, so that it stays right if it was |
| ReadBuffer.Free | lualib/lsocket.c:208-213 | only the first chunk is dropped and the size is not changed, so that it stays right if and only if there was no chunk |
| ReadBuffer.PopNegative | lualib/lsocket.c:163-175 | a negative number of bytes from a new buffer is a null pointer |
| ReadBuffer.PopAfterFree | lualib/lsocket.c:163-213 | one byte from a buffer that had one chunk and was freed is a null pointer |
| ReadBuffer.FlatAppend | lualib/lsocket.c:176-207 | a chunk at the end of the list is at the end of the bytes |
| Serial.ValueBack | src/lserial.c:184-360 | every value within the depth limit is read back with its tables in packing order, whatever follows it |
| Serial.AllBack | src/lserial.c:242-400 | a whole argument list comes back, nils included |
| Serial.NormalKeeps | src/lserial.c:114-146 | packing order neither loses nor adds an entry of a table: array part, holes and hash part make up the table, for any border |
| Serial.TooDeep | src/lserial.c:184-221 | packing fails if and only if the value reaches deeper than 32 tables |
| Serial.ScalarBack | src/lserial.c:303-360 | scalars and strings are read back |
| Serial.ScalarBytes | src/lserial.c:76-110 | the type byte and the value of each scalar: 0 nil, 1 boolean, 2 integer, 3 number, 4 string with its length, 5 pointer, low bytes first |
| Serial.TableBytes | src/lserial.c:114-221 | a table with an array item and a string key, byte by byte |
| SerialBuffer.Buffer.Push | src/lserial.c:56-74 | bytes are appended, over any number of 128-byte chunks |
| SerialBuffer.Buffer.Flatten | src/lserial.c:223-240 | copying the chunks out gives the concatenation of everything pushed |
| SerialBuffer.Buffer.PackOne | src/lserial.c:184-221 | the bytes of the value are appended, or the depth error is raised exactly where the format has no bytes |
| SerialBuffer.Buffer.PackTable | src/lserial.c:171-182 | size, array part, hash part and closing nil of a table that has no __pairs method |
| SerialBuffer.Buffer.PackItems | src/lserial.c:114-127 | the array part, nil for each hole |
| SerialBuffer.Buffer.PackPairs | src/lserial.c:129-146 | the entries outside the array part |
| SerialBuffer.LPack | src/lserial.c:242-254 | the flattened block is the format of the arguments |
| SerialBuffer.Reader.Pop | src/lserial.c:256-265 | takes exactly n bytes, or none when there are fewer |
| SerialBuffer.Reader.UnpackOne | src/lserial.c:303-360 | the value and the remaining bytes that the format prescribes |
| SerialBuffer.Reader.PopTable | src/lserial.c:313-332 | array part and hash part of a table up to its closing nil |
| SerialBuffer.LUnpack | src/lserial.c:362-400 | values until the block is used up |
| SerialBuffer.Transfer | src/lserial.c:242-400 | packing in one service and unpacking in another gives the arguments back, or fails exactly when packing fails |
| LittleEndian.ValLE | src/lserial.c:56-110 | a number written in k bytes is read back when it fits |
| DhExchange.MulModP | lualib/lcrypt.c:576-595 | the shift-and-add loop computes the product modulo P with no intermediate value wider than 64 bits |
| DhExchange.PowModP | lualib/lcrypt.c:596-607 | square and multiply computes the power modulo P; only a base equal to P with exponent 1 is left unreduced |
| DhExchange.PowMod | lualib/lcrypt.c:609-613 | the power modulo P for every 64-bit base and every exponent from 1 on |
| DhExchange.WordIs | lualib/lcrypt.c:638-654 | a key of eight bytes is a number, low byte first |
| DhExchange.DhExchange | lualib/lcrypt.c:638-654 | the public value is the power of 5, it is never zero, and strings of another length are refused |
| DhExchange.DhSecret | lualib/lcrypt.c:626-636 | the secret is the power of the other side's value; an error exactly for wrong lengths and zero values |
| DhExchange.PublicIsNotZero | lualib/lcrypt.c:638-654 | no power of 5 is a multiple of P |
| DhExchange.SecretsAgree | lualib/lcrypt.c:626-654 | both sides compute the same power of 5, and it is not zero |
| DhExchange.Agree | lualib/lcrypt.c:626-654 | for all non-zero private keys, exchange and secret give both sides the same eight bytes |
| DhExchange.RunExample | lualib/lcrypt.c:638-654 | the public values of the keys 1 and 28, in bytes: 5, and 5^28 reduced |
| DhPrime.PIsPrime | lualib/lcrypt.c:574-575 | the modulus is prime |
| DhPrime.PIsBiggest | lualib/lcrypt.c:574-575 | and no larger number of 64 bits is, as the comment in the source says |
| DhPrime.SecretIsZeroIff | lualib/lcrypt.c:626-636 | a power modulo P is zero if and only if its base is a multiple of P, so that a secret is zero exactly for that public value |
| Des.PermutationsUndo | lualib/lcrypt.c:183-203 | the final permutation undoes the initial one and the other way round, on all 2^64 blocks |
| Des.RoundUndoes | lualib/lcrypt.c:205-218 | a round undoes itself after its halves are exchanged, for any contents of the S-boxes |
| Des.FeistelUndoes | lualib/lcrypt.c:205-218 | any number of rounds is undone by the same rounds with reversed subkeys |
| Des.BackwardsIsLastFirst | lualib/lcrypt.c:354-357 | the pairwise reversed key array gives the round keys from the last to the first |
| Des.CryptUndoes | lualib/lcrypt.c:276-292 | decrypting a block undoes encrypting it, for all subkeys |
| Des.PaddingUndoes | lualib/lcrypt.c:313-382 | removing the padding from a padded text gives the text, for texts of every length and content |
| Des.PaddedBytes | lualib/lcrypt.c:313-343 | the padded text is the text, 0x80 and zeros up to the next whole block |
| Des.CryptAllUndoes | lualib/lcrypt.c:313-382 | the same for texts of many blocks |
| Des.RoundTrip | lualib/lcrypt.c:313-382 | decoding an encoded text gives the text back, for texts of every length, all subkeys and any S-boxes |
| Des.DesCrypt | lualib/lcrypt.c:276-292 | the in-place rounds write the encrypted block and nothing else |
| Des.DesEncode | lualib/lcrypt.c:313-343 | whole blocks and then the padded last one |
| Des.BackwardKeys | lualib/lcrypt.c:354-357 | the loop fills the key array in reverse order of pairs |
| Des.DesDecode | lualib/lcrypt.c:344-382 | all blocks decrypted and the padding removed, or an error exactly when length or padding is wrong |
| Des.RemovePadding | lualib/lcrypt.c:368-380 | the backward scan finds the 0x80 behind which only zeros come, or the error |
| DesKeys.MainKs | lualib/lcrypt.c:220-275 | the loop over sixteen rounds fills the key array with the schedule: each half turned by one or two bits, then the second choice |
| DesKeys.LDesEncode | lualib/lcrypt.c:305-343 | a text under a key of eight bytes, with the source's schedule and S-boxes; the error for other keys |
| DesKeys.LDesDecode | lualib/lcrypt.c:305-382 | the same for decoding, with its errors |
| DesKeys.Transfer | lualib/lcrypt.c:305-382 | under every key of eight bytes every text comes back, from a ciphertext of whole blocks |
| DesExample.BlockOfStandard | lualib/lcrypt.c:10-292 | schedule, S-boxes, permutations and rounds give the ciphertext of the first block of FIPS 81, Table B1 |
| DesExample.TextOfStandard | lualib/lcrypt.c:313-343 | the text of that block, encoded by the whole operation, starts with that ciphertext |

## Left out

- PegCorrect.CompilerCorrect: the guard `OptSafe` is sufficient and not necessary. It excludes the whole family of patterns in which a loop compiled to a test touches the frame of an optional around it; some of them still match correctly, for example when the body can never match twice. Saying which would mean deciding what the body can match, which is a question about all subjects and not a guard of the code.
- PegCorrect.Code: also carries `OptSafe`, for the same reason.
- PegCompiler.CompileAndMatch: also carries `OptSafe`; `PegCompiler.Compile` does not.
- LPeg captures, run-time captures, grammars, calls and the jump threading of `peephole` (3rd/lpeg-0.12.2/lpcode.c:928-967): Lua values and recursion bookkeeping on top of the machine modelled here.
- LPeg limits: the maximum backtrack depth and the growth of the backtrack stack, the doubling of the code array and the width of offsets. Patterns with a nullable loop body, which `lp_star` refuses, are excluded by `WellFormed`.
- The `key` and `cap` fields of flat tree nodes, and `fixonecall`, which resolves rule references.
- TimerWheel.Wheel.Timeout: does not model negative delays, which the callers never pass; a delay of 2^31 and more is not a C int.
- Intrusive lists: the timer lists and the hash chains of partial packets are sequences, since each node is in one list only and the list is always walked whole; `MessageQueue`, `ReadBuffer` and `SerialBuffer` keep their links.
- timer_unit, reading the clock, and the loop of timer_update that asks how many ticks have passed.
- Scheduler: a callback's own sends, launches and exits are steps of other threads of the model, which may happen while the callback runs. Names, pixel_dispatchall, logging, the monitor and G.total are not modelled, and no message is sent to handle 0.
- Scheduler.LaunchOkKeeps: registering the handle, creating the queue and the grab behind them are one step (src/pixel.c:174-181); a thread that guesses the handle in between would find a service without a queue.
- HandleTable.Table.Regist: the 24-bit mask of a handle, the number of the harbor, the wrap of the last handle and a failed allocation are not modelled.
- SlotScheduler.SlotStepRefines: a launch that would make the table grow and lose a service is no step; what that does to the table is in HandleTable.
- SharedTable.Table.constructor: integer keys fit 32 bits. With larger keys, which countsize tests with 64 bits and ishashkey after narrowing (lualib/lsharedata.c:56-76, 168-186), two keys can become one.
- Scheduler.FreedOnceUnreferenced: every reference is given up once; a second kill of the same service, which gives up a reference that it does not have, is not a step, and neither is what a failed launch does after such a kill.
- RwLock: loads and atomic operations are sequentially consistent; that a waiting thread gets in at last is not claimed.
- Stm: the lifetime of the object that holds the published copy (lualib/lstm.c:54-80); only copies are modelled.
- SprotoUnpacker.UnpackInto: a truncated input makes the source read one byte behind it before it notices; that byte is the parameter `stray`.
- SprotoEncoder.SprotoEncode: for a message that is not tame, in less room than is asked for, only the memory that is touched and the causes of failure are stated, not which of the two outcomes it has.
- SprotoLengths.RunawayStep: what the source makes of an array of integers or booleans whose length is 2^32 - 4 or more, which it reads far behind its input, is the parameter `astray`. Inputs have less than 2^31 bytes, as the C int of their size has it.
- SprotoDecoder.ImportType: the fields are given; the binary form of a type is not read.
- Sproto: reading a schema from its binary form, protocols, arrays indexed by a key field, the nesting limit of the Lua binding, the growth of its buffer and sizes of buffers beyond a C int. Types without fields have no base tag in the source's search and are empty here.
- SharedTable: values are opaque, so nested tables, the string table and reference counts of a shared table are not modelled; strings are compared as such where the source compares their index.
- NetPack: the gate's handlers and coroutines, and socket events other than data and close. Buffers hold the bytes copied so far instead of a block of the full size.
- ReadBuffer: one buffer uses the pool at a time. Chunks are not empty, as the socket layer guarantees.
- ReadBuffer.ReadLine: the size is at least the number of bytes, as every operation leaves it.
- SerialBuffer.Buffer.PackTable: a table with a __pairs method (src/lserial.c:148-169), and input that was not written by this serialiser beyond the first error, where the source goes on with memory that is not there. The host is little-endian.
- DhExchange: `pow_mod_p` with exponent 0, which is never asked for. Random numbers.
- Des: the key schedule and the contents of the S-boxes are parameters of every theorem, so the ciphertext itself is not stated. For a single block of zeros the source's scan goes on in front of its buffer; whatever it finds there, more than eight bytes have been counted and it reports the error that the model reports at once.
- lualib/lsha1.c, base64, hex, HMAC and the key hash: sound, and would add only easy members.
- service/lalloc.c, src/socket.c, src/epoll.c, lualib/lclientsocket.c, module loading, environment, logging and all services written in Lua: system calls and glue.
