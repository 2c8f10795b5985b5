# Nupa: a Dafny model of the compiler's and runtime's core

Nupa compiles an Objective-C dialect to C99 and links it with a small C runtime. This project models the
parts of both whose correctness spans more than one function, and proves what they promise:

- `TryLowering`, `TryMeaning`: `@try`/`@catch`/`@finally`/`@throw` and their translation to `setjmp`/`longjmp`.
  The translation, a small-step machine for the emitted C with jump buffers, blocks that end, undefined jumps and
  locals that a jump leaves indeterminate (section 7.13 of ISO/IEC 9899:1999), and the structured meaning of the source.
- `Lifecycle`, `WeakTable`, `AutoreleasePools`: the reference-counting runtime, with its recursive release
  cascade, the side table of weak variables and the stack of growing autorelease pools.
- `Arc`, `ArcAnalyzer`, `ArcLeaks`, `ArcForgets`, `ArcExact`, `ArcByHand`, `ArcPairs`: static ARC. The analysis that
  inserts releases at scope ends and early exits, an execution model in which they can go wrong, when nothing leaks and
  what does, what hand-written releases change, and the pass that removes adjacent pairs.
- `Vtable`: inheritance depths, the sort, the merge of inherited methods, vtable slots and struct layout.
- `StructOrder`, `ProtocolClosure`: the order of struct definitions, and the selectors a protocol requires.
- `Json`, `JsonRoundTrip`, `JsonSpelling`, `JsonGrammar`, `JsonLayout`, `JsonEditor`: the JSON printer and the
  recursive-descent parser of the editor, exactly which texts the parser accepts and what they mean, and how the
  printer lays its output out.
- `Lexer`, `TokenShapes`, `Relexing`, `TokenNormal`, `Keywords`: the scanner, its spans, the texts that are literals,
  the shape of every token of any source, and lexing what was printed from tokens.
- `SelectorHash`, `BumpAllocator`, `Words`: FNV-1a hashes, and the bare-metal allocator with its bit mask.

Code that changes state in the source is imperative here: a class whose methods are proved against functions,
about which the properties are then proved as lemmas. `dafny verify dfyconfig.toml` checks the whole project.

## What the proofs found

Where a property does not hold of the code, the model keeps the code and a lemma exhibits the failure; for most of
them a second one says exactly when the code is right.

- An exception that leaves a `@catch` block is offered to the catches of its own statement again, because the
  handler buffer is restored only after them; `@throw;` in a handler therefore never ends
  (`TryMeaning.HandlersFaithfulIff`, `TryMeaning.RethrowInHandlerNeverEnds`).
- A local variable assigned in a `@try` body is indeterminate in the handlers and after them, because the emitted C
  leaves the body by `longjmp` and adds no `volatile` to the user's variables (`TryMeaning.HandlerReadsIff`,
  `TryMeaning.LocalLostInHandler`).
- A `@finally` block that throws and catches another exception replaces the one in flight
  (`TryMeaning.FinallyFaithfulIff`, `TryMeaning.FinallyReplacesException`).
- An exit in a branch or loop body makes ARC forget the owned locals around it on every path, also on those that do
  not take the exit (`ArcForgets.ForgetsIff`, `ArcForgets.ForgottenLeaks`, `ArcForgets.EarlyExitLeaks`). Where each
  owned local is acquired once, in its own scope, which bodies leak can be read off the source
  (`ArcExact.LeaksIff`).
- `return [x length];` keeps `x` as if it were handed back, and leaks it (`ArcLeaks.KeptNotHandedBackLeaks`,
  `ArcLeaks.ReturnedMessageLeaks`).
- Behind a hand-written release nothing inserted names the variable, in the text. A loop that comes round to a
  `return` above its own release of an outer variable therefore releases that variable twice
  (`ArcByHand.LoopReleasesAgain`). Where no loop body releases what is declared outside it below a `return` or
  `@throw`, the inserted releases add no bad one (`ArcByHand.BadOnlyByHandEverywhere`); elsewhere that is so on every
  run on which such a variable is still held whenever an iteration begins (`ArcByHand.BadOnlyByHand`).
- A name that the root class uses for a class method gets NULL slots in every subclass that makes it an instance
  method (`Vtable.UnitSlotIffLookup`, `Vtable.KindClashLosesMethod`).
- Pointers count as dependencies of struct definitions. A pointer back therefore blocks a struct and the one that
  holds it by value, and the fallback may write the user first, which is not valid C. Fields whose type is a typedef
  alias count as no dependency at all, so a struct held through one may be written after its user, without any cycle
  (`StructOrder.ValuesFirstIff`, `StructOrder.PointerBlocksValue`, `StructOrder.AliasWrittenFirst`). The comment at
  codegen.rs:2940-2945 promises that a struct referenced by value is defined first, and that pointer members only
  need a forward declaration.
- JSON keys are printed without escapes, so a key comes back only without quotes and backslashes
  (`JsonRoundTrip.KeyReadBackIff`, `JsonRoundTrip.QuotedKeyIsLost`).
- The JSON parser accepts more than JSON: a string that the end of the input closes, and a key that breaks off at a
  bad escape, which it drops with its value. Behind a backslash at the very end it reads on past the input
  (`JsonGrammar.Accepted`, `JsonGrammar.MembersRead`, `JsonGrammar.RefusedString`).
- A full weak table drops registrations silently, which is the only way to a dangling weak variable, and
  registering a location twice ruins the table (`WeakTable.Table.Store`, `WeakTable.Table.Register`).
- In the bare-metal allocator a request may wrap either addition; then blocks overlap or do not hold what was asked
  for (`BumpAllocator.Heap.Malloc`, `BumpAllocator.HugeRequestOverlaps`).
- A block comment that is never closed leaves the last byte of the file to be scanned, and `..` takes the byte
  behind it into an ellipsis (`Relexing.UnclosedCommentSkippedIff`, `Relexing.TwoDotsTakeAThird`). These dots, literals
  cut off by the end of the file and the at sign of `@(`, which is a token for a parenthesis by itself, are the only
  tokens that do not have the shape of their kind (`TokenNormal.ScannedShape`).
- The layout signature hashes names without separators, so it does not determine the method set, although the
  comment at codegen.rs:62-66 says it does (`SelectorHash.SignatureForgetsBoundaries`). Lists whose names differ in
  one byte of one name never share it (`SelectorHash.OneByteChangesSignature`); beyond that hashes collide.

## Model

| member | source | states |
|---|---|---|
| TryLowering.Simulate | crates/codegen/src/codegen.rs:2060-2602 | for every statement, nesting and surrounding code, the emitted C does on the machine exactly what `Exec` says: same events, same local variables, determinate and not, same ending, jump buffer and live blocks restored, no jump into a block that has ended |
| TryLowering.SimulateHandle | crates/codegen/src/codegen.rs:2100-2286 | the catches as emitted: what a handler raises comes back to the same catch list, with the state back at 1 |
| TryLowering.SimulateFinish | crates/codegen/src/codegen.rs:2461-2552 | after the catches the saved buffer is restored, finally runs once, and state 1 jumps to the enclosing handler |
| TryLowering.FirstCatchRuns | crates/codegen/src/codegen.rs:2194-2240 | the catch that runs is number k iff its class is none, one the unit does not define, or the thrown object's own, and each catch before it names a defined class that is not the object's; without such a k none runs |
| TryLowering.ThrowReachesCatch | crates/codegen/src/codegen.rs:2100-2240 | an exception jumps to the emitted tests, and control reaches the block of exactly that catch, its parameter bound to the object |
| TryLowering.ParamRead | crates/codegen/src/codegen.rs:2123-2170 | in the handler its parameter is the exception, and names it does not hide are what they were outside |
| TryLowering.JumpUntilBlockEnds | crates/codegen/src/codegen.rs:2370-2477 | a filled buffer leads back to its `setjmp` while the block lives; once that has ended the jump is undefined, whatever was declared since |
| TryMeaning.FaithfulRunsPreserved | crates/codegen/src/codegen.rs:2060-2602 | on every structured run in which no handler raises what its own catches take, no completed finally block changes the exception in flight, `@throw;` finds the one being handled, and no local is read that a jump has left indeterminate, the emitted C has the same events in the same order, the same locals and the same ending, buffer and blocks restored |
| TryMeaning.LoweringPreservesMeaning | crates/codegen/src/codegen.rs:2060-2602 | that is so on every run of a statement whose handlers let nothing escape, whose finally blocks catch nothing of their own where an exception can be in flight, and which reads no local that a body or handler it may leave by an exception has assigned, until it is assigned again; one that has not ended in `fuel` rounds has not stopped on the machine |
| TryMeaning.HandlerReadsIff | crates/codegen/src/codegen.rs:2370-2477 | a handler that uses a local of the function does what the source says iff the body did not assign it before it raised the exception and no jump has left it indeterminate |
| TryMeaning.LocalLostInHandler | crates/codegen/src/codegen.rs:2370-2477 | `n = zero; @try { n = one; @throw e; } @catch (id x) { use(n); }`: the source uses `one`, the emitted C is undefined |
| TryMeaning.StructuredIgnoresLost | crates/codegen/src/codegen.rs:2060-2602 | the structured meaning does not depend on which locals a jump has left indeterminate |
| TryMeaning.RunLoses | crates/codegen/src/codegen.rs:2060-2602 | every run of the emitted C assigns only the statement's targets, and leaves indeterminate only what some body or handler that may throw assigns |
| TryMeaning.FaithfulMeansStructured | crates/codegen/src/codegen.rs:2060-2602 | on faithful runs the lowered and the structured meaning agree, and `__nupa_exception_value` ends as the operand of the last `@throw e;` the source executes |
| TryMeaning.ContainedIsFaithful | crates/codegen/src/codegen.rs:2060-2602 | every run of such a statement is faithful |
| TryMeaning.ContainedMeansStructured | crates/codegen/src/codegen.rs:2060-2602 | on that fragment the two meanings agree for every fuel |
| TryMeaning.HandlersFaithfulIff | crates/codegen/src/codegen.rs:2100-2477 | when the body of the handler that runs does the same on both sides, the catches have their structured meaning iff that body does not raise an exception that a catch of its own statement takes |
| TryMeaning.HandleEndsUnmatched | crates/codegen/src/codegen.rs:2100-2286 | an exception leaves the catches only if none of them matches it |
| TryMeaning.RethrowInHandlerNeverEnds | crates/codegen/src/codegen.rs:2558-2602 | `@throw;` in the handler that took the exception: the source raises it to the enclosing statement, the emitted C never stops |
| TryMeaning.FinallyFaithfulIff | crates/codegen/src/codegen.rs:2461-2552 | when the finally block itself runs faithfully, the rethrow after it raises the exception in flight iff the block does not complete, executes no `@throw e;`, or threw that exception last |
| TryMeaning.FinallyReplacesException | crates/codegen/src/codegen.rs:2461-2552 | a finally block that throws and catches b while a is in flight: the source raises a, the emitted C b |
| TryMeaning.NothingThrown | crates/codegen/src/codegen.rs:2060-2602 | a statement without reachable throws raises nothing, for every fuel |
| TryMeaning.ValueKept | crates/codegen/src/codegen.rs:2060-2602 | which statements leave `__nupa_exception_value` as it was |
| TryMeaning.NeverStops | crates/codegen/src/codegen.rs:2060-2602 | a statement that runs out of every fuel runs for ever on the machine |
| Lifecycle.FreedExactlyTheOrphans | include/nupa/runtime.c:191-213 | the objects a release frees are the least set closed under "every owner is gone": all orphans, nothing else, so unreachable cycles stay |
| Lifecycle.Runtime.Release | include/nupa/runtime.c:191-213 | ends on every heap; every count stays the number of owners; exactly the objects left without an owner are freed and the weak variables pointing to them become NULL |
| Lifecycle.Runtime.Destroy | include/nupa/runtime.c:201-212 | weak references first, then dealloc, then the memory of the object |
| Lifecycle.Runtime.Dealloc | include/nupa/runtime.c:206-210 | gives up each strong instance variable once, in order; freed objects are not touched again |
| Lifecycle.Runtime.Retain | include/nupa/runtime.c:183-189 | one more owner; the books stay right iff the 32-bit counter does not wrap |
| Lifecycle.Runtime.Alloc | include/nupa/runtime.c:148-156 | a zeroed object with one owner, the caller |
| Lifecycle.Runtime.StoreIvar | crates/codegen/src/codegen.rs:1501-1503 | a plain assignment to a strong instance variable moves one ownership in and one out |
| Lifecycle.Runtime.StoreWeak | crates/codegen/src/codegen.rs:1455-1500 | setting a weak variable to a live object or NULL: only live objects have entries, and a full table is the only way to a variable that dangles |
| Lifecycle.Runtime.DeclareWeak | crates/codegen/src/codegen.rs:5391-5437 | the same for a weak local with its initialiser |
| Lifecycle.Runtime.EndWeak | include/nupa/runtime.c:89-91 | a weak local that goes out of scope leaves nothing behind, and no other variable dangling |
| Lifecycle.CleanupComplete | include/nupa/runtime.c:201-211 | a release leaves no weak variable dangling |
| Lifecycle.CountedDeath | include/nupa/runtime.c:191-213 | at the last release the instance variables of the object become ownerships of its dealloc |
| Lifecycle.CountedFree | include/nupa/runtime.c:211 | returning the memory of a deallocated object leaves every other count right |
| Lifecycle.LastOwner | include/nupa/runtime.c:193-201 | a count that reaches zero means no live object refers to the object |
| Lifecycle.CascadeDeath | include/nupa/runtime.c:201-212 | a destruction and the release that caused it are one cascade |
| Lifecycle.JustifiedIsLeast | include/nupa/runtime.c:191-213 | every freed object is in any set that contains the orphans |
| WeakTable.Table.Store | include/nupa/runtime.c:43-72 | unregister, store, register: the variable holds the target and is tracked iff the target is non-NULL and there was room; a full table is the only way to a dangling weak variable |
| WeakTable.Table.Register | include/nupa/runtime.c:43-59 | one more slot in the entry of the target, or nothing when the table is full; the table goes on standing for a map iff nothing was done or the location was not registered and holds the target |
| WeakTable.RegisteredTwice | include/nupa/runtime.c:43-59 | a table in which a location was registered twice stands for no map |
| WeakTable.RegisteredOnce | include/nupa/runtime.c:43-59 | registering a new location adds exactly its pair |
| WeakTable.Table.Declare | crates/codegen/src/codegen.rs:5431-5437 | a weak local is declared with an initialiser and registered for it |
| WeakTable.Table.Unregister | include/nupa/runtime.c:61-72 | removes the variable from the map; no other pair changes |
| WeakTable.Table.ClearAll | include/nupa/runtime.c:74-87 | every variable registered for the object is NULL, no other variable has changed, the object is no longer tracked |
| WeakTable.Table.AutoCleanup | include/nupa/runtime.c:89-91 | a weak local that goes out of scope leaves no entry behind |
| WeakTable.Table.FindEntry | include/nupa/runtime.c:35-41 | the first entry of the object, or none |
| WeakTable.RefinesAddSlot | include/nupa/runtime.c:54-58 | appending a location to an entry adds exactly that pair to the partial map |
| WeakTable.RefinesDropSlot | include/nupa/runtime.c:66-68 | swap-removal of a location drops exactly its pair, each location stays in at most one entry |
| WeakTable.RefinesDropEntry | include/nupa/runtime.c:78-84 | swap-removal of an entry drops exactly the pairs of its object, one entry per object stays |
| WeakTable.SwapRemoveContents | include/nupa/runtime.c:66-68 | swap-removal loses the removed element and nothing else |
| WeakTable.NoneDanglingAfterStore | include/nupa/runtime.c:43-59 | a store leaves no weak variable dangling iff the variable is NULL or tracked |
| AutoreleasePools.Thread.Pop | include/nupa/runtime.c:136-144 | each entry of the pool gets exactly one release, in insertion order; the pool current before the matching push is current again |
| AutoreleasePools.Thread.Autorelease | include/nupa/runtime.c:215-226 | the caller's ownership goes to the innermost pool; nothing is released now |
| AutoreleasePools.Thread.Push | include/nupa/runtime.c:128-134 | a new innermost pool; owners and the other pools are unchanged |
| AutoreleasePools.Thread.ReleaseEntries | include/nupa/runtime.c:138-140 | the loop over the entries keeps every count right through each cascade |
| AutoreleasePools.Pool.Append | include/nupa/runtime.c:219-224 | contents survive every doubling, in order, and the object is last |
| AutoreleasePools.PoolStack.Push | include/nupa/runtime.c:128-134 | an empty pool on top of the others, which are as they were |
| AutoreleasePools.PoolStack.Append | include/nupa/runtime.c:215-226 | only the innermost pool changes |
| AutoreleasePools.PoolStack.DropTo | include/nupa/runtime.c:142 | the pools below the popped one are the stack again |
| Arc.NoBadRelease | crates/arc/src/arc.rs:79-381 | in every execution of the rewritten body no variable is released that holds no acquired object: none twice, none before it is acquired |
| ArcLeaks.NothingLeaks | crates/arc/src/arc.rs:67-381 | when no exit in a branch or loop body makes the analysis forget a local around it and what an exit keeps it hands back, every finished execution releases each acquired object exactly once, except the one handed back |
| ArcLeaks.KeptNotHandedBackLeaks | crates/arc/src/arc.rs:67-94 | an owned variable that an exit keeps without handing it back is still held when the body has been left |
| ArcLeaks.ReturnedMessageLeaks | crates/arc/src/arc.rs:67-77 | `T *x = [[T alloc] init]; return [x length];` releases nothing |
| ArcForgets.ForgetsIff | crates/arc/src/arc.rs:135-351 | a scope goes on listing a variable iff no exit in the statements, at whatever depth, clears it |
| ArcForgets.ForgottenLeaks | crates/arc/src/arc.rs:135-351 | when some exit at any depth clears every scope that lists a held variable and the statement can be passed, then on the way past it a variable that is not assigned again stays unreleased whatever is chosen afterwards, and the rest ends as the source does: it leaks unless that end hands it back |
| ArcForgets.EarlyExitLeaks | crates/arc/src/arc.rs:126-381 | the same for a whole body and a local it declares |
| ArcForgets.LaterHandBackLeaks | crates/arc/src/arc.rs:126-381 | `T *x = [[T alloc] init]; if (a) return nil; if (b) return x;` loses the object where neither return is taken |
| ArcForgets.AnalyzedControl | crates/arc/src/arc.rs:135-347 | the rewritten statements take the branches of the source and end as it ends, whatever was released |
| ArcExact.LeaksIff | crates/arc/src/arc.rs:79-381 | on bodies in which each owned local, at any depth, is acquired once and in its own scope, some finished execution leaks iff some reachable exit or scope end leaves an acquired variable that it neither releases nor hands back |
| ArcExact.HeldScope | crates/arc/src/arc.rs:135-347 | where no such point can be reached, every execution of a scope holds afterwards exactly what it held before, and an exit exactly what was held around its loop or what it hands back |
| ArcExact.HeldList | crates/arc/src/arc.rs:135-347 | at each point reached, what is held is what the source text says |
| ArcExact.LoseScope | crates/arc/src/arc.rs:135-347 | where one can be reached, some choices reach it and end the scope, the loop or the body with the object still held, by a variable that can no longer be named |
| ArcExact.FinishEnds | crates/arc/src/arc.rs:135-347 | every statement list has choices that end it |
| ArcByHand.BadOnlyByHand | crates/arc/src/arc.rs:135-357 | with hand-written releases of whatever can be named: the rewritten body releases a variable that holds nothing iff the source does, on every run on which each iteration of a loop finds held what the loop was entered with from outside, save what its body releases above any `return` or `@throw` |
| ArcByHand.BadOnlyByHandEverywhere | crates/arc/src/arc.rs:135-357 | so in every execution of a body in which no loop body releases a variable declared outside it below a `return` or `@throw` |
| ArcByHand.UnseenScope | crates/arc/src/arc.rs:135-357 | what a loop body releases above any `return` or `@throw` might as well not be listed around it: the analysis inserts the same and leaves the same stack |
| ArcByHand.ReleasedIsForgotten | crates/arc/src/arc.rs:307-318 | behind a hand-written release, until the variable is acquired again, nothing inserted names it |
| ArcByHand.ReleasedOnce | crates/arc/src/arc.rs:307-318 | `T *x = [[T alloc] init]; [x release];` is left as it is and releases once |
| ArcByHand.OverwrittenThenReleased | crates/arc/src/arc.rs:315-336 | `T *x = [[T alloc] init]; x = y;` loses the object, and the inserted release hits one that x does not own |
| ArcByHand.LoopReleasesAgain | crates/arc/src/arc.rs:193-318 | `T *x = [[T alloc] init]; while (a) { if (b) return; [x release]; }`: in the second round the inserted release hits what the source has released |
| ArcForgets.WayPasses | crates/arc/src/arc.rs:135-347 | a way past all exits and loops meets no release of another scope's variable |
| ArcForgets.NoWayNoEnd | crates/arc/src/arc.rs:135-347 | statements without such a way never complete |
| ArcForgets.EarlyReturnForgets | crates/arc/src/arc.rs:195-204 | after `if (c) return v;` every execution that does not return there keeps every held variable unreleased |
| Arc.SafeScope | crates/arc/src/arc.rs:135-347 | a scope analysed under any stack releases only what is held, and leaves what the stack still lists held |
| Arc.SafeExit | crates/arc/src/arc.rs:178-215 | the releases in front of an exit are of variables that are held, each once |
| ArcLeaks.ExactScope | crates/arc/src/arc.rs:135-347 | on a clean body what is held after each scope is exactly what the stack still lists |
| Arc.ExecReleases | crates/arc/src/arc.rs:79-94 | inserted releases run well on distinct held variables and end with none of them held but the returned one |
| Arc.CollectFacts | crates/arc/src/arc.rs:116-124 | collects the variables of the scopes without repetition |
| Arc.ScopeStack | crates/arc/src/arc.rs:135-347 | a scope's analysis leaves each enclosing scope as it was or cleared |
| ArcForgets.ForgottenList | crates/arc/src/arc.rs:349-351 | a variable no scope lists is never released by what follows |
| ArcAnalyzer.LocalAnalyze | crates/arc/src/arc.rs:126-381 | the in-place analysis of a whole body gives `Rewritten`, and its releases are safe in every execution |
| ArcAnalyzer.Analyzer.Analyze | crates/arc/src/arc.rs:135-347 | pushing, inserting under a moving index and popping compute the analysis of the scope and leave the stack it describes |
| ArcAnalyzer.Analyzer.AnalyzeAt | crates/arc/src/arc.rs:140-336 | one round replaces one statement by its releases and itself |
| ArcAnalyzer.Analyzer.CollectVars | crates/arc/src/arc.rs:116-124 | the nested loops compute `Collect` |
| ArcAnalyzer.Analyzer.InsertReleasesBefore | crates/arc/src/arc.rs:79-94 | inserting at one position reverses the variables and skips the returned one |
| ArcAnalyzer.Analyzer.NearestLoop | crates/arc/src/arc.rs:180-184 | break and continue release from the nearest loop scope, or from the outermost one |
| ArcAnalyzer.Analyzer.LeaveLoop | crates/arc/src/arc.rs:178-191 | releases of the variables inside the loop, and those scopes cleared |
| ArcAnalyzer.Analyzer.LeaveBody | crates/arc/src/arc.rs:193-215 | releases of all variables but the returned one, and every scope cleared |
| ArcAnalyzer.Analyzer.ClearVars | crates/arc/src/arc.rs:349-351 | forgets the variables from a scope on and nothing below it |
| ArcAnalyzer.Analyzer.Drop | crates/arc/src/arc.rs:353-357 | a hand-written release removes the variable from every scope |
| ArcPairs.OptimizePairs | crates/arc/src/arc.rs:402-423 | compacting with a write index leaves exactly the unmarked statements, in order |
| ArcPairs.MarkPairs | crates/arc/src/arc.rs:404-414 | marks disjoint adjacent pairs, leftmost first |
| ArcPairs.OptimizedKeeps | crates/arc/src/arc.rs:402-441 | other statements keep their order; each variable's net count is the same and never runs lower than before |
| ArcPairs.NoPairIsLeft | crates/arc/src/arc.rs:404-441 | of a retain and a release of one variable side by side, in either order, at least one is marked |
| ArcPairs.OptimizedLength | crates/arc/src/arc.rs:402-441 | statements disappear two at a time |
| ArcPairs.NestedPairStays | crates/arc/src/arc.rs:402-441 | one pass leaves the outer of two nested pairs |
| Vtable.AcyclicIffRanked | crates/codegen/src/codegen.rs:4402-4419 | no class is its own ancestor iff the classes can be numbered so that the number grows along every superclass link |
| Vtable.WalkEnds | crates/codegen/src/codegen.rs:4402-4419 | in an acyclic unit the walk upwards ends within as many steps as there are classes |
| Vtable.Depths | crates/codegen/src/codegen.rs:4402-4419 | the relaxation loop ends on every acyclic unit with the number of ancestors of each class |
| Vtable.StopsIffAcyclic | crates/codegen/src/codegen.rs:4402-4419 | some vector would end the loop iff no class is its own ancestor, so on a cyclic unit it never ends |
| Vtable.SortByDepth | crates/codegen/src/codegen.rs:4421-4428 | the exchange sort orders by depth, keeps every class with its depth, and moves nothing that is in order |
| Vtable.SortedByDepth | crates/codegen/src/codegen.rs:4398-4429 | in the sorted unit the depths are still depths and each superclass comes before its subclasses |
| Vtable.ChainReordered | crates/codegen/src/codegen.rs:4421-4437 | sorting changes no class's superclass chain |
| Vtable.MergeMethods | crates/codegen/src/codegen.rs:4440-4484 | the two loops build the merge of a parent's and an own list |
| Vtable.MergeAll | crates/codegen/src/codegen.rs:4431-4492 | merging in place, in depth order, gives every class the methods of its whole chain |
| Vtable.LayOut | crates/codegen/src/codegen.rs:4398-4492 | depth, sort and merge together: every class once, after its superclass, complete |
| Vtable.MergeFirst | crates/codegen/src/codegen.rs:4447-4484 | a merge keeps the parent's position of a name and overrides only the same kind; new names come from the class |
| Vtable.AddedExactly | crates/codegen/src/codegen.rs:4468-4484 | behind the parent's entries a merge puts each own entry as often as the class lists it, unless the parent's first entry of that name has the same kind |
| Vtable.SymbolsApart | crates/codegen/src/codegen.rs:37-41 | classes without an underscore in their names never share a function name |
| Vtable.SymbolsShared | crates/codegen/src/codegen.rs:37-41 | method `c` of class `a_b` and method `b_c` of class `a` do |
| Vtable.MergedEntry | crates/codegen/src/codegen.rs:4431-4492 | the complete list has a name iff a class of the chain declares it; its entry is that of the nearest class declaring it with the kind of the rootmost declarer |
| Vtable.SlotIsLookupIff | crates/codegen/src/codegen.rs:6104-6128 | a slot is what superclass-chain lookup finds iff lookup finds nothing, or the rootmost declarer made the name an instance method and the found class lists it as one first |
| Vtable.OwnerIsNearestDeclarer | crates/codegen/src/codegen.rs:4398-4492 | along a chain on which a name keeps one kind, it is present iff a class declares it, its owner is the nearest one, and the slot is that class's function, or NULL when none is emitted |
| Vtable.OwnedChain | crates/codegen/src/codegen.rs:4398-4437 | in a unit of unique names and own methods every chain is one of distinct owners |
| Vtable.UnitSlotIffLookup | crates/codegen/src/codegen.rs:6104-6128 | every slot of every class of the unit against lookup along its superclasses, exactly |
| Vtable.UnitOwnerIsNearest | crates/codegen/src/codegen.rs:4398-4492 | presence, owner and slot of a consistently used name in every class of the unit |
| Vtable.EmitVtables | crates/codegen/src/codegen.rs:4398-4523 | from the declarations of any acyclic unit: a vtable for each class with a slot for each instance method name, the slots of consistently used names are superclass-chain lookup, and each is cast to the signature that the first class resolving the name gives it |
| Vtable.KindClashLosesMethod | crates/codegen/src/codegen.rs:6109-6128 | a root's class method makes the subclass's instance method of that name unreachable |
| Vtable.InstanceNames | crates/codegen/src/codegen.rs:4494-4502 | exactly the names of all instance methods of the unit, each once |
| Vtable.MethodMetadata | crates/codegen/src/codegen.rs:4505-4523 | an index and a function type for exactly the names some class resolves to an instance method; the type is the signature of the first entry of the name in the class of least index whose first entry of the name is an instance method |
| Vtable.EmitSlots | crates/codegen/src/codegen.rs:6109-6137 | one slot per name: the owner of the class's first entry of that name, cast to the type its metadata has, iff that entry is an instance method whose function is emitted; every filled slot finds its metadata, so the unwrap cannot fail |
| Vtable.ParentLayoutIsPrefix | crates/codegen/src/codegen.rs:4440-4484 | the (selector, kind) list of every ancestor is a prefix of the class's |
| Vtable.ParentStructIsPrefix | crates/codegen/src/codegen.rs:6046-6084 | the struct fields of every ancestor are a prefix of the class's |
| Vtable.Ancestors | crates/codegen/src/codegen.rs:6053-6064 | walking up ends with the whole chain |
| Vtable.EmitStruct | crates/codegen/src/codegen.rs:6046-6084 | isa, retain_count, the ancestors' ivars from the root down, then its own |
| StructOrder.Order | crates/codegen/src/codegen.rs:3001-3024 | ends on every graph; each definition once; the first part after its dependencies, the rest in order, each waiting for one that never settles; with distinct tags the first part is what settles, sorted by pass and then by index |
| StructOrder.FallbackUnusedIffAcyclic | crates/codegen/src/codegen.rs:3001-3024 | acyclic dependencies leave nothing for the fallback, with distinct tags only they do, and each definition then follows everything it depends on |
| StructOrder.BlockedByLeftover | crates/codegen/src/codegen.rs:3020-3024 | a definition left over depends on another one left over |
| StructOrder.SameTagHidesCycle | crates/codegen/src/codegen.rs:3007-3009 | with one tag twice the order can settle a cyclic unit |
| StructOrder.LeftoverIffCycle | crates/codegen/src/codegen.rs:3001-3024 | what is left to the fallback is exactly what depends on a cycle |
| StructOrder.ValuesFirstIff | crates/codegen/src/codegen.rs:2939-3024 | every struct held by value, however its type is written, is defined before its user iff it is earlier by pass and then by index, what never settles coming last in source order |
| StructOrder.RoundIsLatest | crates/codegen/src/codegen.rs:3001-3019 | the pass in which a definition settles is the latest that one of its dependencies asks for: that one's pass, or the next when it stands further down |
| StructOrder.PositionsAreRounds | crates/codegen/src/codegen.rs:3001-3024 | with distinct tags two definitions are written in the order of their passes and indices |
| StructOrder.TaggedValuesFirstIff | crates/codegen/src/codegen.rs:2939-3024 | where every by-value field is written with `struct `, that is so iff among the definitions that depend on a cycle each one held by value stands before its user in the source |
| StructOrder.AliasWrittenFirst | crates/codegen/src/codegen.rs:2983-3024 | `typedef struct P { struct Q *q; } P; struct A { P p; }; struct Q { int x; };` is acyclic and written A, Q, P |
| StructOrder.OwnPointersKeepOrder | crates/codegen/src/codegen.rs:2983-3024 | structs that point to nothing but themselves settle in the first pass and stay in source order |
| StructOrder.PointerBlocksValue | crates/codegen/src/codegen.rs:2939-3024 | `struct A { struct B b; }; struct B { struct A *a; };` is written A first |
| ProtocolClosure.Binder.ProtocolSelectors | crates/binder/src/binder.rs:689-709 | ends on every protocol graph; returns exactly the selectors of the protocols the call visits, all reachable, with all their parents on the list |
| ProtocolClosure.Binder.Requirements | crates/binder/src/binder.rs:686-709 | from an empty list: exactly the required and optional selectors of all protocols reachable through parents; no duplicates iff the protocol's own lists have none |
| ProtocolClosure.ReachableUnion | crates/binder/src/binder.rs:689-709 | the visited protocols are exactly the reachable ones |
| ProtocolClosure.VisitNext | crates/binder/src/binder.rs:703-707 | what each parent's call keeps of the walk |
| ProtocolClosure.Include | crates/binder/src/binder.rs:705-706 | adds what is missing, keeps what is there, makes no duplicate |
| JsonRoundTrip.ParsePrinted | examples/01_JSONEditor/json_editor.c:1588-1599 | parsing the printed form of any tree gives the tree back, at any nesting and indentation |
| JsonRoundTrip.ReadBack | examples/01_JSONEditor/json_editor.c:2226-2371 | a printed value is parsed up to its last byte, whatever follows |
| JsonRoundTrip.EscapedStringReadBack | examples/01_JSONEditor/json_editor.c:2150-2224 | every NUL-free string survives escaping, as in section 7 of RFC 8259 |
| JsonRoundTrip.KeyReadBackIff | examples/01_JSONEditor/json_editor.c:1823-1841 | a key comes back iff it has no quote and no backslash |
| JsonRoundTrip.QuotedKeyIsLost | examples/01_JSONEditor/json_editor.c:1823-1841 | an object with a quote for a key prints as something the parser refuses, whatever the value |
| JsonRoundTrip.NumberReadBack | examples/01_JSONEditor/json_editor.c:2264-2284 | every 32-bit integer is scanned whole and classified as an integer |
| JsonRoundTrip.ExponentIsInteger | examples/01_JSONEditor/json_editor.c:2264-2284 | an integer with an exponent is the integer it stands for |
| JsonRoundTrip.ReadArray | examples/01_JSONEditor/json_editor.c:2295-2320 | a printed array comes back with its items in order |
| JsonRoundTrip.ReadObject | examples/01_JSONEditor/json_editor.c:2322-2357 | a printed object comes back with its entries in order |
| JsonSpelling.SpelledStringRead | examples/01_JSONEditor/json_editor.c:2137-2224 | a string spelled with any mixture of plain bytes, short escapes and `\uXXXX` with digits of either case is read as what its units stand for, the code points in UTF-8, and the cursor stops behind the quote |
| JsonSpelling.Decoded | examples/01_JSONEditor/json_editor.c:2191-2200 | what is written for a code point below 0x10000 decodes to it by section 3 of RFC 3629 |
| JsonSpelling.NumberIsDenoted | examples/01_JSONEditor/json_editor.c:2264-2284 | a number with sign, fraction and exponent is the 32-bit integer that it denotes as a real, and its text if it denotes none |
| JsonSpelling.SpelledNumberRead | examples/01_JSONEditor/json_editor.c:2264-2284 | the parser takes all of a number and nothing behind it, up to 63 bytes |
| JsonSpelling.NothingFollows | examples/01_JSONEditor/json_editor.c:1588-1599 | behind a value only blanks and the end are accepted |
| JsonGrammar.Accepted | examples/01_JSONEditor/json_editor.c:1588-1599 | a C string is accepted iff it is a document between blanks: values in any spelling with blanks between all tokens, a string closed by the end of the input, keys that break off at a bad escape; the result is what the document means, with each key once, at its first place and with its last value |
| JsonGrammar.ValueRead | examples/01_JSONEditor/json_editor.c:2359-2371 | every document is read up to its last byte, whatever blank, comma, bracket or end follows, as what it means |
| JsonGrammar.ValueSpelled | examples/01_JSONEditor/json_editor.c:2133-2371 | whatever the parser takes for a value is spelled by some document |
| JsonGrammar.MembersRead | examples/01_JSONEditor/json_editor.c:2322-2357 | members in any spelling become one entry per name, in the order of first occurrence, with the value of the last; a broken key adds none |
| JsonGrammar.RefusedStart | examples/01_JSONEditor/json_editor.c:2237-2371 | a text that begins like null, true or false and is not, and one that begins with no value, are refused by name |
| JsonGrammar.RefusedString | examples/01_JSONEditor/json_editor.c:2150-2224 | a string with a broken escape is invalid; behind a backslash that ends the input the cursor leaves it |
| JsonGrammar.RefusedKey | examples/01_JSONEditor/json_editor.c:2322-2357 | an object whose first key is no string is refused |
| JsonGrammar.RefusedEmpty | examples/01_JSONEditor/json_editor.c:1588-1599 | nothing and nothing but blanks are two different failures |
| JsonLayout.EscapedIsStandard | examples/01_JSONEditor/json_editor.c:1745-1778 | an escaped string consists of what section 7 of RFC 8259 allows, and stands for the bytes up to the first NUL |
| JsonLayout.ControlsHaveLetters | examples/01_JSONEditor/json_editor.c:1745-1778 | backspace, form feed, newline, return and tab are written with their letters |
| JsonLayout.PrintedLayout | examples/01_JSONEditor/json_editor.c:1788-1841 | arrays and objects stand on one line per item, with commas between, four spaces per level and the brackets on lines of their own |
| Json.SetNewKey | examples/01_JSONEditor/json_editor.c:1535-1553 | a new key goes to the end |
| JsonEditor.ParseInput | examples/01_JSONEditor/json_editor.c:1588-1599 | the cursor-driven parser returns what the parsing function says, errors included |
| JsonEditor.Reader.ReadValue | examples/01_JSONEditor/json_editor.c:2359-2371 | result and cursor of every kind of value |
| JsonEditor.Reader.ReadRawString | examples/01_JSONEditor/json_editor.c:2150-2224 | buffer, cursor and the cases where the cursor runs past the input |
| JsonEditor.Reader.Hex4 | examples/01_JSONEditor/json_editor.c:2137-2148 | four digits or where they stop |
| JsonEditor.Reader.SkipSpaces | examples/01_JSONEditor/json_editor.c:2133-2135 | the cursor stops at the first byte above a space, or the NUL |
| JsonEditor.Reader.ReadNumber | examples/01_JSONEditor/json_editor.c:2264-2284 | the longest number text, its value and the length limit |
| JsonEditor.Reader.ReadString | examples/01_JSONEditor/json_editor.c:2286-2293 | a string value or the error |
| JsonEditor.Reader.ReadLiteral | examples/01_JSONEditor/json_editor.c:2237-2262 | null, true and false, or the error |
| JsonEditor.Reader.ReadArray | examples/01_JSONEditor/json_editor.c:2295-2320 | result and cursor of an array |
| JsonEditor.Reader.ReadObject | examples/01_JSONEditor/json_editor.c:2322-2357 | result and cursor of an object |
| JsonEditor.ObjectArrays.Set | examples/01_JSONEditor/json_editor.c:1535-1553 | the parallel arrays keep one entry per key: an old key in place, a new one at the end |
| JsonEditor.Writer.PrintOn | examples/01_JSONEditor/json_editor.c:1708-1841 | the printing loops put out the printed form |
| JsonEditor.Writer.PutString | examples/01_JSONEditor/json_editor.c:1745-1778 | a quoted string with its escapes |
| JsonEditor.Writer.PutItems | examples/01_JSONEditor/json_editor.c:1788-1805 | items on lines of their own with commas between |
| JsonEditor.Writer.PutEntries | examples/01_JSONEditor/json_editor.c:1823-1841 | entries on lines of their own with commas between |
| Lexer.Scanner.NextToken | crates/lexer/src/lexer.rs:298-682 | returns the token `Next` describes, moves behind it, and the line is one plus the newlines before the position |
| Lexer.Scanner.SkipWhitespace | crates/lexer/src/lexer.rs:198-226 | moves over blanks and comments and no further |
| Lexer.Scanner.SkipBlockComment | crates/lexer/src/lexer.rs:187-196 | behind the first closing mark, or to the last byte |
| Lexer.Scanner.Advance | crates/lexer/src/lexer.rs:169-179 | one byte, counted as a line iff it is a newline |
| Lexer.Scanner.ReadString | crates/lexer/src/lexer.rs:252-296 | text, end and line of a string, closed or not |
| Lexer.Scanner.ReadAt | crates/lexer/src/lexer.rs:331-438 | everything that begins with an at sign |
| Lexer.Scanner.ReadExponent | crates/lexer/src/lexer.rs:409-423 | an exponent without digits is given back with the line still right |
| Lexer.Scanner.ReadChar | crates/lexer/src/lexer.rs:468-514 | value and end of a character literal |
| Lexer.Scanner.ReadNumber | crates/lexer/src/lexer.rs:517-582 | kind, text without suffix, and end of a number |
| Lexer.Scanner.ReadOperator | crates/lexer/src/lexer.rs:585-681 | the peeks and advances take the longest operator the code looks for |
| Lexer.Scanner.Dots | crates/lexer/src/lexer.rs:652-657 | the peek behind one of two dots always sees the second, so a third byte is taken, if there is one |
| Lexer.Scanner.SavePos | crates/lexer/src/lexer.rs:156 | a saved position carries its line |
| Lexer.Scanner.RestorePos | crates/lexer/src/lexer.rs:157-159 | going back to a saved position is a valid state |
| Lexer.Tokenize | crates/lexer/src/lexer.rs:298-682 | calling until `Eof` ends and gives all tokens |
| Lexer.ScanProgresses | crates/lexer/src/lexer.rs:298-682 | every token lies in the source and takes at least one byte |
| Keywords.LookupKeyword | crates/lexer/src/lexer.rs:127-134 | the kind of the first table entry with the text |
| TokenNormal.ScannedShape | crates/lexer/src/lexer.rs:298-682 | every token of every source has the shape of its kind: words and their keywords, numbers of parts and suffixes, boxed numbers with digits behind point and exponent, closed strings of units, characters with the value of their form, operators with their text; only cut-off literals, two dots without a third and the at sign of `@(` have not |
| TokenNormal.LexedTwice | crates/lexer/src/lexer.rs:298-682 | lexing a source without those, printing its tokens and lexing again gives the same kinds, keywords, texts and values |
| TokenNormal.ParenIsOdd | crates/lexer/src/lexer.rs:362-372 | in front of a parenthesis the at sign becomes an opening parenthesis itself |
| TokenShapes.Classes | crates/lexer/src/lexer.rs:198-226 | the bytes that are blanks, digits, letters, word bytes, hexadecimal digits, suffixes and signs, by their codes |
| TokenShapes.StringIsUnits | crates/lexer/src/lexer.rs:252-296 | the text of a string is a sequence of bytes that are neither quote nor backslash and of backslashes with a byte behind them, a lone backslash only at the end of the source |
| TokenShapes.StringEndsAt | crates/lexer/src/lexer.rs:252-296 | it stops at the first quote that no backslash stands for, or at the end |
| TokenShapes.ScanString | crates/lexer/src/lexer.rs:252-296 | any such text between quotes, with an at sign or without, is one token with that text |
| TokenShapes.ScanChar | crates/lexer/src/lexer.rs:468-514 | a character literal, plain, escaped or hexadecimal, closed or not, has the value its form stands for |
| TokenShapes.ScanDecimal | crates/lexer/src/lexer.rs:517-582 | any mixture of digits, points and exponents with its suffix is one token, an integer with an integer suffix, a float with an `f`, and else a float iff it has a point or an exponent |
| TokenShapes.ScanHex | crates/lexer/src/lexer.rs:517-582 | a hexadecimal number with its suffix is one integer token |
| TokenShapes.ScanBoxed | crates/lexer/src/lexer.rs:375-427 | a boxed number is one token whatever its fraction and exponent |
| Relexing.Relex | crates/lexer/src/lexer.rs:298-682 | printing tokens of every kind, literals with their quotes, prefixes and suffixes included, each with a space, and lexing gives the same kinds, keywords, texts and character values, then `Eof` |
| Relexing.ScanPrinted | crates/lexer/src/lexer.rs:298-682 | a printed token of any kind is scanned whole and as what it was |
| Relexing.TokensWellSpaced | crates/lexer/src/lexer.rs:198-682 | at most length + 1 tokens, in order and disjoint, with only blanks and comments between them, `Eof` last |
| Relexing.SkipsOnlyTrivia | crates/lexer/src/lexer.rs:181-226 | the bytes skipped before a token are blanks and comments; what follows is neither |
| Relexing.LongestOperator | crates/lexer/src/lexer.rs:585-681 | wherever the text of an operator stands, that operator or a longer one is taken, whatever follows |
| Relexing.OperatorTaken | crates/lexer/src/lexer.rs:585-681 | what is taken is the text of its kind, save the third byte behind two dots |
| Relexing.OperatorStanding | crates/lexer/src/lexer.rs:585-679 | before a space each operator text is scanned as its own kind |
| Relexing.UnclosedCommentKeepsLastByte | crates/lexer/src/lexer.rs:187-196 | an unclosed comment leaves the last byte to be scanned |
| Relexing.UnclosedCommentSkippedIff | crates/lexer/src/lexer.rs:187-196 | the rest of the file counts as the comment iff nothing follows its opening or the last byte is a blank |
| Relexing.TwoDotsTakeAThird | crates/lexer/src/lexer.rs:653-657 | two dots become an ellipsis with the next byte, whatever it is; the text is an ellipsis iff that byte is a dot |
| Relexing.TwoDotsDoNotRelex | crates/lexer/src/lexer.rs:653-657 | printed with a space, two dots take the space along |
| SelectorHash.OneByteChangesHash | crates/codegen/src/codegen.rs:167-174 | names of equal length that differ in one byte share neither the 32-bit hash nor the 64-bit signature |
| SelectorHash.SameSuffix | crates/codegen/src/codegen.rs:67-76 | the same bytes on top of two states join them only if they were one |
| SelectorHash.StepUndone | crates/codegen/src/codegen.rs:167-174 | each step can be undone, as the prime is invertible modulo the word size |
| SelectorHash.BothPrimesInvertible | crates/codegen/src/codegen.rs:67-76 | both FNV primes are invertible |
| SelectorHash.Fnv1a | crates/codegen/src/codegen.rs:167-174 | the loop computes the hash of the bytes |
| SelectorHash.RegisterName | include/nupa/runtime.c:95-103 | the loop computes the hash of the bytes before the first NUL |
| SelectorHash.HashesAgree | include/nupa/runtime.c:95-103 | compiler and runtime give every NUL-free name the same hash |
| SelectorHash.LayoutSignature | crates/codegen/src/codegen.rs:67-76 | the signature is the hash of the names run together |
| SelectorHash.OneByteChangesSignature | crates/codegen/src/codegen.rs:67-76 | two lists whose names differ in one byte of one name never share the layout signature |
| SelectorHash.SignatureForgetsBoundaries | crates/codegen/src/codegen.rs:67-76 | two different method lists with one signature |
| BumpAllocator.RoundsToLeastMultiple | include/nupa/runtime_baremetal.c:48-50 | the mask rounds up to the least multiple of the alignment unless the addition wraps, and then to 0 |
| BumpAllocator.HoldsRequestIff | include/nupa/runtime_baremetal.c:48-50 | the rounded size holds the request iff the addition does not wrap |
| BumpAllocator.Heap.Malloc | include/nupa/runtime_baremetal.c:48-55 | NULL iff the new offset is past the end, and then nothing changed; blocks stay aligned, in bounds and pairwise disjoint iff neither addition of the request wrapped |
| BumpAllocator.WrappedRequestGetsNothing | include/nupa/runtime_baremetal.c:48-55 | a request whose rounding wraps takes no bytes |
| BumpAllocator.WrappedSumMovesBack | include/nupa/runtime_baremetal.c:50-54 | when only the sum wraps the offset moves back |
| BumpAllocator.HugeRequestOverlaps | include/nupa/runtime_baremetal.c:48-55 | asking for two alignment units less than the word range succeeds, and the next block begins two units inside what was handed out |
| BumpAllocator.BlocksDisjoint | include/nupa/runtime_baremetal.c:48-55 | no address is in two blocks |
| BumpAllocator.Pool.Grow | include/nupa/runtime_baremetal.c:136-145 | copies all entries in order into a block of its own, nothing that was handed out before changes, and the pool stays sound, exactly if neither the product nor an addition of the request wrapped |
| BumpAllocator.Pool.Autorelease | include/nupa/runtime_baremetal.c:132-148 | the object becomes the last entry, one address changes below the old offset; without room for growth the pool is as before and the object is not recorded; the pool stays sound exactly if it did not grow by a request that wrapped |
| BumpAllocator.Pool.SmallHeapUnwrapped | include/nupa/runtime_baremetal.c:41-45 | on a heap of less than a third of the address range, less one initial buffer and one alignment unit, no request of a pool wraps |
| Words.MaskClears | include/nupa/runtime_baremetal.c:50 | masking with the complement of 2^k - 1 takes off the remainder modulo 2^k |

## Left out

- TryMeaning.LoweringPreservesMeaning: a fragment that can be read off the source. Statements outside it, such as handlers that raise what no catch of theirs takes, are covered run by run (`TryMeaning.FaithfulRunsPreserved`).
- The ARC shadows of `@try` (codegen.rs:1788-1933, 2484-2514): `@try` is modelled without lifted locals.
- Block scopes of local variables in `TryLowering`: names stand for the whole function, and none is declared `volatile` by the user. An action, a condition or a throw reads one variable at most.
- `return`, `break`, `continue` and `goto` out of a `@try`, which leave without restoring the buffer.
- The catch parameter that is declared but not used is stored all the same in the model; the emitted C is equivalent.
- ArcLeaks.NothingLeaks: its condition is sufficient; the exact one is given by `ArcExact.LeaksIff`.
- ArcExact.LeaksIff: bodies in which a variable is acquired again, or in another scope than its own, where what is held at a point depends on the way to it.
- ARC on `do`, `switch`, `@try`, comma-separated declarators, shadowed names, `@noarc`: in the analysis where it handles them, outside the safety theorems.
- ArcByHand.BadOnlyByHandEverywhere: no `@noarc`, and a variable that ever owns an object is not overwritten with one it does not own (`ArcByHand.OverwrittenThenReleased` shows why). A body with such a loop may still do no harm, where the exit cannot be reached or the variable is acquired again; runs of the second kind are covered by `ArcByHand.BadOnlyByHand`.
- Uses of a variable inside expressions, so the release of `x` in front of `return f(x)` is not seen as early.
- Retain cycles are kept, as in the runtime; nothing collects them.
- Lifecycle.Runtime.Dealloc: dealloc is the release of every strong instance variable, once each; hand-written dealloc code is not modelled.
- Right-hand sides of weak assignments and initialisers are emitted twice (codegen.rs:1455-1500, 5405-5437); values are taken to have no effects.
- Weak instance variables inside objects that are being freed: weak locations are plain variables.
- Threads, allocation failure of the hosted runtime, the debug trace, and the sizes of the weak table's slot arrays.
- AutoreleasePools.Thread.Pop: popping a pool that is not innermost is modelled as the code does it, dropping the pools above; that their entries stay owned for ever is visible only in `Outside`.
- Vtable: sorting the global method names, and the typed function pointers; slots are addressed by name in the emitted C.
- `name_flat`: class names stand for their flattened form.
- ProtocolClosure: the injection of inherited protocol methods into classes; `find_protocol_method_decl` does not walk ancestors.
- JsonEditor.ParseInput: a number whose decimal value is not a 32-bit integer stays text, as its conversion is `strtod`'s; so do those that only round to an integer.
- JsonEditor.Reader.ReadNumber: the same.
- JsonEditor.Writer.PrintOn: such a number is put out as its text, where the program prints with `%g`.
- JSON surrogate pairs, buffer capacities, terminal input and the editor's commands.
- Lexer: columns, which are not restored at lexer.rs:421; slicing inside a UTF-8 character.
- BumpAllocator.Pool.Autorelease: the 32-bit `count` and `capacity` do not overflow, and the memory of the pool structures themselves is not modelled.
- crates/cfg/src/cfg.rs, which ARC ignores, the parser, type names, attribute tables, C text formatting, the bridge header and inline assembly.
