# Verified models of the client's algorithmic cores

Dafny models of self-contained cores of the Cfx client, with proofs of what they promise. Each
file models one core; `dafny verify dfyconfig.toml` checks them all.

| files | core |
|---|---|
| `DependencySort`, `ComponentLoader`, `ComponentId`, `ComponentText` | the depth-first dependency sort that tolerates cycles, the component loader built on it, and component ids: parser, printer, version order and matching |
| `TokenBucket`, `TokenBucketCalls` | the rate limiter whose only state is one atomic instant, run alone and by any number of threads |
| `Clr`, `DynFunc`, `DynFuncShapes`, `DynFuncCommands` | the compiler from method signatures to CIL that binds parameters, on a small stack machine with labels and branches, and the two wrapper caches |
| `MsgPack`, `MsgPackRoundTrip`, `MsgPackAccepted`, `MsgPackSerializer`, `MsgPackLayouts` | the MessagePack decoder and serializer against a relation taken from the format's specification |
| `TaskScheduler`, `TaskHistory` | the re-entrant tick with concurrent queueing |
| `SigSlot`, `SigSlotRuns`, `SigSlotEmits`, `SigSlotLists` | the two-way links between signals and objects, and emitting while handlers connect and disconnect |
| `WordShifts`, `WordOverlaps`, `Relocations`, `RelocationTable` | base relocations applied by the loader and taken back by the snapshot writer, and when that gives the image back |
| `SurfaceRing` | the two-semaphore ring of shared surfaces |
| `DownloadQueue` | download admission, counts and byte sums |
| `DelayList` | deferred callbacks fired from a list that they append to |
| `Base64` | section 4 of RFC 4648 |
| `MergedFileStream` | several files read as one |
| `RequestTick` | the compare-exchange minimum of requested times |
| `Common` | what several models use |

Code that changes objects is modelled by classes and methods with loops, each proved against a
function whose properties are then proved as lemmas. Code that several threads run is a state
machine with one step per load, exchange, locked region or semaphore operation; its theorems
speak of every run. Reflection, clocks, transfers, callbacks and the packer's choice of formats
are parameters: functions or values about which nothing is known, unless stated.

## What the proofs showed about the code

- The argument number of a compiled parameter is the operand of `ldc.i4.s`, a signed byte: the
  129th argument is read at a negative index and throws
  (`DynFuncCompiler.BindsDirectlyIffNumberable`). A parameter of a pointer-sized integer
  type cannot be compiled at all, because the conversion table has no entry for it, while its entry for
  `decimal` is never used.
- Direct and remapped wrappers share one cache, so the first request for a method decides how all
  later ones behave (`DynFuncCaches.FirstRequestDecides`).
- Matching of component ids is not transitive from an id whose last category is empty
  (`ComponentIds.MatchingChainsIff`).
- `reset` on a token bucket forgives what was borrowed (`TokenBuckets.TokenBucket.Reset`). Returning
  tokens can make a later reservation ready before an earlier one (`TokenBuckets.ReturnReorders`).
- Disconnecting a pair that was connected twice leaves a connection its object does not know of
  (`SigSlotRuns.CompleteKeptIff`).
- The comment calls a mega-huge download the sole file; the code starts it alone but lets any other
  that is not mega-huge join it (`DownloadQueues.MegaHugeIsJoined`). It stays alone exactly as long
  as no start is tried with such a download at the head (`DownloadQueues.MegaHugeSoleIff`). The model
  follows the code.
- A delay whose callback throws stays in the list and is due again in the next pass, before
  everything behind it; while it throws at the head of the list, no pass fires anything else
  (`DelayLists.ThrowingHeadBlocks`).
- Relocation targets that overlap may not be restored by undoing the relocation, since words are
  shifted back in the same order and a carry dropped by one word reaches the other
  (`Relocations.OverlapNotRestored`). All images whose tables name words of some set are restored
  exactly when any two words of the set end at the same byte or share no more bytes than the delta has
  low zero bytes (`Relocations.AllRestoredIff`).
- Emitting a signal calls a connection that a handler adds meanwhile, unless the last handler
  adds it (`SigSlotEmits.EmitCallsEachOnce`).
- The deserializer accepts input that is no encoding: data cut short, negative lengths of
  collections, wrong lengths of vectors, keys that are not strings and repeated keys, and nothing else
  (`MsgPackAccepted.AcceptedIff`).
- With more permits than surfaces the producer draws on a surface still queued
  (`SurfaceRing.ExclusiveIffEnoughSurfaces`).

## Model

| member | source | states |
|---|---|---|
| `DependencySort.SortDependencyList` | code/client/citicore/ComponentLoader.h:241-272 | terminates on every closed graph, cycles included; the queue holds exactly the entries reachable from the list, each once, and for every edge u to v either v comes first or v reaches u |
| `DependencySort.Sorter.Visit` | code/client/citicore/ComponentLoader.h:248-261 | a visit appends `entry` last, keeps every mark and everything already queued, and appends only what `entry` reaches |
| `DependencySort.TopologicalIffAcyclic` | code/client/citicore/ComponentLoader.h:241-272 | a queue ordered up to cycles puts every dependency strictly first exactly when no queued entry lies on a cycle through one of its edges |
| `DependencySort.AcyclicIsTopological` | code/client/citicore/ComponentLoader.h:241-272 | on an acyclic graph the sorted queue is a topological order |
| `ComponentLoading.ComponentLoader.AddComponent` | code/client/citicore/ComponentLoader.cpp:307-314 | the component is not loaded, and known under its name unless another one already is |
| `ComponentLoading.ComponentLoader.ResolveOne` | code/client/citicore/ComponentLoader.cpp:257-283 | records the first known component, in map order, that provides the dependency, and no other |
| `ComponentLoading.ComponentLoader.LoadDependencies` | code/client/citicore/ComponentLoader.cpp:252-290 | appends what the dependency ids resolve to in declaration order, or names the first one that is neither optional nor provided by any known component |
| `ComponentLoading.ComponentLoader.SortAndLoad` | code/client/citicore/ComponentLoader.cpp:209-249 | succeeds exactly when no known component lacks a dependency it needs, and else names the first in map order that does and its first missing dependency; on success, whatever the map order, every known component is loaded once, in an order that respects dependencies up to cycles, and strictly when the graph has none |
| `ComponentLoading.ComponentLoader.SortKnown` | code/client/citicore/ComponentLoader.cpp:216-226 | the sorted list is a permutation of the known components, topological when the resolved graph is acyclic |
| `ComponentLoading.ComponentLoader.LoadInOrder` | code/client/citicore/ComponentLoader.cpp:228-242 | the loaded list is the sorted list, with every component marked as loaded |
| `ComponentLoading.ResolvedProvides` | code/client/citicore/ComponentLoader.cpp:252-290 | a dependency that any known component provides is provided by one of the resolved components |
| `ComponentLoading.NothingMissingIff` | code/client/citicore/ComponentLoader.cpp:285-289 | nothing is missing exactly when every dependency has a provider or a first category that is vendor or legitimacy |
| `ComponentLoading.ProvidersInOrder` | code/client/citicore/ComponentLoader.cpp:257-283 | what a further dependency resolves to is appended: the first component in map order that satisfies it |
| `ComponentIds.GetString` | code/client/citicore/ComponentId.cpp:61-82 | prints the text form of the id |
| `ComponentIds.Parse` | code/client/citicore/ComponentId.cpp:84-156 | the state-machine loop reads the id the text denotes, for every text whose tokens fit the buffer |
| `ComponentIds.AtoiInvertsDecimal` | code/client/citicore/ComponentId.cpp:132-132 | reading a printed number gives the number back, negative ones included |
| `ComponentIds.RoundTripIffPrintable` | code/client/citicore/ComponentId.cpp:61-156 | parsing a printed id gives the id back exactly when it has a category and no name holds a separator |
| `ComponentIds.PrintNormalises` | code/client/citicore/ComponentId.cpp:61-156 | printing what was parsed and parsing it again changes nothing, for every text |
| `ComponentIds.ParsedIsPrintable` | code/client/citicore/ComponentId.cpp:84-156 | whatever the text, the parsed id has at least one category and no separator in a name |
| `ComponentIds.PrintedFitsBuffer` | code/client/citicore/ComponentId.cpp:93-93 | the text of an id with names and numbers under 256 characters never overruns the token buffer |
| `ComponentTexts.ParsedPlain` | code/client/citicore/ComponentId.cpp:84-156 | a text without a bracket denotes the names between its colons and version 0.0.0.0 |
| `ComponentTexts.ParsedVersioned` | code/client/citicore/ComponentId.cpp:84-156 | with one, the categories end at the first bracket; the first four pieces that a dot or closing bracket ends are the versions, those missing are 0, and a last piece that is not ended is dropped |
| `ComponentTexts.FitsIff` | code/client/citicore/ComponentId.cpp:93-93 | the token buffer is not overrun exactly when every piece between separators is shorter than 256 characters |
| `ComponentTexts.TextIs` | code/client/citicore/ComponentId.cpp:61-82 | how an id with two categories is printed, separator by separator |
| `ComponentTexts.DecimalIs` | code/client/citicore/ComponentId.cpp:71-76 | numbers are printed in base ten, with a sign when negative |
| `ComponentIds.CompareVersion` | code/client/citicore/ComponentId.cpp:29-44 | -1, 0 or 1 as the first version precedes, equals or follows the second in lexicographic order |
| `ComponentIds.PrecedesIsStrictTotalOrder` | code/client/citicore/ComponentId.cpp:29-44 | the version order is irreflexive, asymmetric, total and transitive |
| `ComponentIds.IsMatchedBy` | code/client/citicore/ComponentId.cpp:46-59 | true exactly when the provider matches, which is said below slot by slot |
| `ComponentIds.MatchesIff` | code/client/citicore/ComponentId.cpp:46-59 | a provider matches exactly when it has the categories in front, those it lacks being empty, and its four versions are equal or greater in the first slot that differs |
| `ComponentIds.GreaterMatchesOnly` | code/client/citicore/ComponentId.cpp:57-58 | with equal categories, the one greater in the first version that differs satisfies the other and not the other way round |
| `ComponentIds.RaisingKeepsMatch` | code/client/citicore/ComponentId.cpp:57-58 | raising any version of a provider, or lowering one of a dependency, never loses a match |
| `ComponentIds.MatchesItself` | code/client/citicore/ComponentId.cpp:46-59 | every id matches itself |
| `ComponentIds.MatchingChainsIff` | code/client/citicore/ComponentId.cpp:46-59 | what an id matches through another one it matches itself, for all others, exactly when its own last category is not empty (a missing category reads as an empty one) |
| `TokenBuckets.DynamicTokenBucket.ConsumeImpl` | code/shared/TokenBucket.h:290-307 | after any number of spurious failures, the callback decides on the balance and the zero time moves as one grant moves it |
| `TokenBuckets.DynamicTokenBucket.Consume` | code/shared/TokenBucket.h:128-148 | grants and moves the zero time as the atomic operation does, or refuses and leaves it |
| `TokenBuckets.DynamicTokenBucket.ConsumeOrDrain` | code/shared/TokenBucket.h:165-190 | takes the smaller of request and balance |
| `TokenBuckets.DynamicTokenBucket.ReturnTokens` | code/shared/TokenBucket.h:198-203 | moves the zero time back by the tokens returned |
| `TokenBuckets.DynamicTokenBucket.ConsumeWithBorrow` | code/shared/TokenBucket.h:225-249 | ends within two passes and has moved the zero time as one grant of the whole amount would; the wait is what is left until then |
| `TokenBuckets.DynamicTokenBucket.AvailableTokens` | code/shared/TokenBucket.h:274-286 | the balance, or nothing while tokens are owed |
| `TokenBuckets.TokenBucket.SetCapacity` | code/shared/TokenBucket.h:415-417 | from then on the bucket holds the given tokens plus what is generated, up to the burst size |
| `TokenBuckets.TokenBucket.Reset` | code/shared/TokenBucket.h:393-403 | new limits keep the available tokens, cut to the new burst size; a debt is forgiven |
| `TokenBuckets.GrantMovesZero` | code/shared/TokenBucket.h:298-302 | the stored value is max(zero time, now - burst/rate) + granted/rate |
| `TokenBuckets.ExecAgrees` | code/shared/TokenBucket.h:128-286 | one operation under a monotone clock answers as a (count, last refill) bucket does and keeps the two in agreement |
| `TokenBuckets.RunsAgree` | code/shared/TokenBucket.h:128-286 | so does every sequence of operations |
| `TokenBuckets.ReservationsReadyInOrder` | code/shared/TokenBucket.h:225-249 | under any operations between them, a reservation of some tokens is ready no earlier than one made before it, less the tokens those operations give back over the rate; one of no tokens is ready when it is made |
| `TokenBuckets.ReturnReorders` | code/shared/TokenBucket.h:198-249 | while tokens are owed, a reservation after a return is ready no earlier than one before it exactly when it takes at least what was returned |
| `TokenBuckets.ConsumeThenReturnInvisible` | code/shared/TokenBucket.h:128-203 | consuming and returning the same amount changes no later balance |
| `TokenBucketThreads.RunsLinearize` | code/shared/TokenBucket.h:128-148 | in every interleaving at each load and compare-exchange, with arbitrary clocks and spurious failures, each finished call got the answer of one atomic operation between its start and its end |
| `TokenBucketThreads.GrantsWithinRate` | code/shared/TokenBucket.h:128-148 | between any two grants at most burst + rate * (time between them) tokens are granted, net of returns |
| `TokenBucketCalls.CallsAreThoseBegun` | code/shared/TokenBucket.h:128-148 | in every interleaving the call a thread is in, or has ended, is the one it began last |
| `TokenBucketCalls.SinceIsTheStart` | code/shared/TokenBucket.h:128-148 | and the answer is sought from the point at which that call began |
| `TokenBucketCalls.LogHoldsSuccesses` | code/shared/TokenBucket.h:290-323 | the log holds the calls that succeed, each once, in the order in which they do |
| `TokenBucketCalls.RoundEndsUnlessOvertaken` | code/shared/TokenBucket.h:298-307 | an exchange that does not fail spuriously ends its call unless another call has succeeded since the value was read |
| `TokenBucketCalls.AloneIsAtomic` | code/shared/TokenBucket.h:128-148 | a call that runs alone, whatever exchanges fail spuriously, ends with the answer and the zero time of the atomic operation on the arguments it was begun with |
| `TokenBucketCalls.AloneEnds` | code/shared/TokenBucket.h:128-148 | a call can run alone to its end |
| `TokenBucketCalls.ThreadsGoOn` | code/shared/TokenBucket.h:128-148 | every thread can take a step, whatever the others do |
| `DynFuncCompiler.EmitParameter` | code/client/clrcore-v2/DynFunc.cs:144-217 | emits the modelled code of one parameter, or the error of its type |
| `DynFuncCompiler.Emitted` | code/client/clrcore-v2/DynFunc.cs:110-239 | a body comes out exactly when every source parameter is a Remote, a bool or made from a Remote and no other is a pointer-sized integer, and it is the compiled one; otherwise the error names the first parameter that breaks this |
| `DynFuncCompiler.TypeTestRuns` | code/client/clrcore-v2/DynFunc.cs:188-199 | the test leaves the unboxed value at one label or the argument itself at the other |
| `DynFuncCompiler.ParamRuns` | code/client/clrcore-v2/DynFunc.cs:144-217 | the code of a parameter pushes what binding it gives, or throws its error |
| `DynFuncCompiler.CompiledMeans` | code/client/clrcore-v2/DynFunc.cs:110-239 | running the body is binding the parameters left to right, calling the method and boxing the result, failures included, with argument numbers read as signed bytes |
| `DynFuncCompiler.ManyArgumentsThrow` | code/client/clrcore-v2/DynFunc.cs:180-181 | past 128 arguments every call that direct binding would complete throws instead |
| `DynFuncCompiler.BindsDirectlyIffNumberable` | code/client/clrcore-v2/DynFunc.cs:110-239 | the body agrees with direct binding in every world exactly for at most 128 non-source parameters |
| `DynFuncCompiler.BoundValuesIff` | code/client/clrcore-v2/DynFunc.cs:144-217 | direct binding gives values exactly when each is what its parameter gets: the remote or something made from it, or the argument numbered by the parameters before it that take arguments, as the type asks |
| `DynFuncCompiler.CallGoesThrough` | code/client/clrcore-v2/DynFunc.cs:110-239 | for supported parameters, at most 128 of them numbered, the body passes these values to the method and boxes its result |
| `DynFuncShapes.CompiledIsVerifiable` | code/client/clrcore-v2/DynFunc.cs:183-231 | one stack shape per instruction fits, so both branches reach every label with the same shape |
| `DynFuncCommands.EmitCommandParameter` | code/client/clrcore-v2/DynFunc.cs:283-351 | emits the modelled code of a remapped parameter, or the error of its type |
| `DynFuncCommands.EmittedCommand` | code/client/clrcore-v2/DynFunc.cs:253-373 | a remapped body comes out exactly when every parameter is of a supported type, and it is the compiled one; otherwise the error names the first that is not |
| `DynFuncCommands.CommandCompiledMeans` | code/client/clrcore-v2/DynFunc.cs:241-373 | a remapped body binds source, arguments and raw text as documented and calls the method |
| `DynFuncCommands.CommandValuesIff` | code/client/clrcore-v2/DynFunc.cs:283-351 | remapped binding gives values exactly when each parameter gets the source, the arguments or the raw text as its type asks |
| `DynFuncCommands.CommandGoesThrough` | code/client/clrcore-v2/DynFunc.cs:253-373 | the remapped body passes these values to the method and boxes its result |
| `DynFuncCaches.Func.Construct` | code/client/clrcore-v2/DynFunc.cs:110-115 | serves the cached wrapper of a method or makes one, keeping both tables inverse to each other |
| `DynFuncCaches.Func.ConstructCommandRemapped` | code/client/clrcore-v2/DynFunc.cs:253-258 | the same for remapped wrappers |
| `DynFuncCaches.Func.CreateCommand` | code/client/clrcore-v2/DynFunc.cs:106-107 | serves the kind named by the flag: the cached wrapper or a new one with its target, or the error that its compilation gives |
| `DynFuncCaches.Func.GetWrappedMethod` | code/client/clrcore-v2/DynFunc.cs:444-447 | the answer is a method exactly when that method is served by this wrapper, so no two methods share one; none for functions that are not wrappers |
| `DynFuncCaches.WrappedMethodRoundTrip` | code/client/clrcore-v2/DynFunc.cs:235-236 | after any requests, the method behind a served wrapper is the one it was requested for |
| `DynFuncCaches.FirstRequestDecides` | code/client/clrcore-v2/DynFunc.cs:255-258 | the first compilable request for a method fixes the kind of wrapper that every later request for it gets |
| `MsgPackDeserializing.UnpackAny` | code/client/clrcore/MsgPackDeserializer.cs:27-33 | the dispatch over all lead bytes decodes what the specification function says, with its position and errors |
| `MsgPackDeserializing.UnpackScalar` | code/client/clrcore/MsgPackDeserializer.cs:64-211 | so does every unpacker of a format that holds no other values |
| `MsgPackDeserializing.UnpackItems` | code/client/clrcore/MsgPackDeserializer.cs:50-62 | so does the array loop |
| `MsgPackDeserializing.UnpackEntries` | code/client/clrcore/MsgPackDeserializer.cs:35-48 | so does the map loop; setting a key again keeps its place |
| `MsgPackDeserializing.UnpackExtension` | code/client/clrcore/MsgPackDeserializer.cs:351-384 | so does the extension decoder, which ignores the length for vectors |
| `MsgPackDeserializing.BinaryReader.ReadNumber` | code/client/clrcore/MsgPackDeserializer.cs:103-148 | a big-endian number, or the error at the end of the data |
| `MsgPackRoundTrip.WireDecodes` | code/client/clrcore/MsgPackDeserializer.cs:27-449 | wherever an encoding in any formats that fit stands, decoding it gives its object and stops right after it |
| `MsgPackRoundTrip.DecodeReturnsValue` | code/client/clrcore/MsgPackDeserializer.cs:27-449 | decoding any encoding of a value, whatever follows, gives that value and stops right after it |
| `MsgPackRoundTrip.EncodingsPrefixFree` | code/client/clrcore/MsgPackDeserializer.cs:386-449 | no encoding is a proper prefix of another, and an encoding denotes one value |
| `MsgPackAccepted.AcceptedIff` | code/client/clrcore/MsgPackDeserializer.cs:27-449 | an encoding stands at a position exactly when reading there never runs short, meets no negative length, no vector with a length not its own, no key that is not a string and no key twice; what is accepted besides is exactly what reads without an error but not like that |
| `MsgPackAccepted.CutStringAccepted` | code/client/clrcore/MsgPackDeserializer.cs:155-161 | a string cut short by the end of the data is accepted although it is no encoding |
| `MsgPackAccepted.NegativeLengthAccepted` | code/client/clrcore/MsgPackDeserializer.cs:228-258 | so is an array or map of negative length, as an empty one |
| `MsgPackAccepted.VectorOfAnyLengthAccepted` | code/client/clrcore/MsgPackDeserializer.cs:312-384 | so is a vector sent with a length that is not its own |
| `MsgPackAccepted.OtherKeyAccepted` | code/client/clrcore/MsgPackDeserializer.cs:35-48 | so is a map with a key that is neither a string nor null, under the key's text |
| `MsgPackAccepted.RepeatedKeyAccepted` | code/client/clrcore/MsgPackDeserializer.cs:35-48 | so is a map that repeats a key, with the last of its values |
| `MsgPackLayouts.UnsignedAre` | code/client/clrcore/MsgPackDeserializer.cs:93-122 | the lead bytes of unsigned integers, the type each gives, and the number that the bytes after it make, first byte first |
| `MsgPackLayouts.SignedAre` | code/client/clrcore/MsgPackDeserializer.cs:124-153 | the same for signed ones, which are negative from half the range on |
| `MsgPackLayouts.ScalarsAre` | code/client/clrcore/MsgPackDeserializer.cs:64-77 | the lead bytes of nil, false and true, and the one without a meaning |
| `MsgPackLayouts.FloatsAre` | code/client/clrcore/MsgPackDeserializer.cs:79-91 | the lead bytes of floating point numbers, whose bits come first byte first |
| `MsgPackLayouts.CutNumbersFail` | code/client/clrcore/MsgPackDeserializer.cs:79-148 | a number cut short by the end of the data fails, with one exception for single bytes and another for longer numbers |
| `MsgPackLayouts.TextIs` | code/client/clrcore/MsgPackDeserializer.cs:155-189 | a text in any of its four formats is the bytes that its header announces |
| `MsgPackLayouts.BinaryIs` | code/client/clrcore/MsgPackDeserializer.cs:191-211 | so is binary data in any of its three |
| `MsgPackLayouts.ListIs` | code/client/clrcore/MsgPackDeserializer.cs:213-234 | values one after the other behind a header that announces their number make a list of them |
| `MsgPackLayouts.Vector2Is` | code/client/clrcore/MsgPackDeserializer.cs:374-375 | a vector2 in any format of length 8 is its two little-endian floats and ends after them |
| `MsgPackLayouts.Vector3Is` | code/client/clrcore/MsgPackDeserializer.cs:374-375 | a vector3 in any format of length 12 is its three floats |
| `MsgPackLayouts.Vector4Is` | code/client/clrcore/MsgPackDeserializer.cs:376-379 | a vector4 or quaternion in any format of length 16 is its four floats |
| `MsgPackLayouts.ExtensionTypesAre` | code/client/clrcore/MsgPackDeserializer.cs:341-372 | function references are extension types 10 and 11 and keep the bytes announced; any type but these and 20 to 23 is an error |
| `MsgPackSerializing.Serialize` | code/client/clrcore/MsgPackSerializer.cs:62-177 | appends the encoding that the packer's choices of formats determine |
| `MsgPackSerializing.SerializeItems` | code/client/clrcore/MsgPackSerializer.cs:112-122 | so does the list loop |
| `MsgPackSerializing.SerializeEntries` | code/client/clrcore/MsgPackSerializer.cs:88-111 | so does the dictionary loop |
| `MsgPackSerializing.WireFits` | code/client/clrcore/MsgPackSerializer.cs:62-177 | with any choice of formats that can hold what they are given, the result is an encoding of the graph's value |
| `MsgPackSerializing.WidestIsLawful` | code/client/clrcore/MsgPackSerializer.cs:53-58 | a packer that always uses the widest formats is among those covered |
| `MsgPackSerializing.SerializeRoundTrip` | code/client/clrcore/MsgPackSerializer.cs:62-177 | decoding what is packed, whatever follows it, gives the graph's value back and stops right after it |
| `MsgPackLayouts.InRangeAre` | code/client/clrcore/MsgPackSerializer.cs:62-177 | the ranges covered: 64-bit integers, texts and data below 2 GB, and vectors of two, three, four and four 32-bit floats |
| `MsgPackLayouts.KindsComeBack` | code/client/clrcore/MsgPackSerializer.cs:62-177 | packed and decoded again, every part of a graph comes back as the object of its kind: lists in order, dictionaries and objects entry by entry under their keys |
| `TaskScheduling.NoTaskLost` | code/client/clrcore/CitizenTaskScheduler.cs:78-93 | in every interleaving a task whose QueueTask returned and whose body has not ended is among the running tasks |
| `TaskScheduling.TickRestores` | code/client/clrcore/CitizenTaskScheduler.cs:132-140 | a Tick that returns leaves the field naming the dictionary it found, with the contents it had, however ticks nest |
| `TaskScheduling.OutermostTickDrains` | code/client/clrcore/CitizenTaskScheduler.cs:121-178 | when an outermost Tick returns, every task still running or not ended was registered by another thread meanwhile; without such, nothing is left |
| `TaskScheduling.WorkShrinks` | code/client/clrcore/CitizenTaskScheduler.cs:121-178 | every step that the ticking thread takes towards the end of its ticks lowers a measure over the bodies running, the tasks to try and clean up, those in the ticks' dictionaries and the loops to leave |
| `TaskScheduling.WorkBounded` | code/client/clrcore/CitizenTaskScheduler.cs:78-178 | in every interleaving the ticking thread takes no more such steps than that measure at the start and what tasks queued into a tick, inlined bodies and nested ticks add to it |
| `TaskScheduling.TicksCanReturn` | code/client/clrcore/CitizenTaskScheduler.cs:121-178 | from every state in which the ticking thread is not queueing, its own steps alone bring every tick in progress to its return |
| `TaskScheduling.DictionariesPresent` | code/client/clrcore/CitizenTaskScheduler.cs:164-168 | neither the loop nor QueueTask ever finds its dictionary missing |
| `TaskScheduling.InvKept` | code/client/clrcore/CitizenTaskScheduler.cs:78-178 | every step of every thread keeps nesting, bookkeeping and coverage |
| `TaskHistories.NoTaskLostInSteps` | code/client/clrcore/CitizenTaskScheduler.cs:78-93 | in terms of the steps alone: what threads ask for and register, and the bodies that begin and end, are what the state records; of the registered tasks those not ended are running |
| `TaskHistories.QueueAlone` | code/client/clrcore/CitizenTaskScheduler.cs:78-93 | any thread can queue a task whatever the others do; in four steps at most it is running and, inside a tick, in the dictionary that the field names |
| `TaskHistories.QueueingGoesOn` | code/client/clrcore/CitizenTaskScheduler.cs:78-93 | a thread in the middle of queueing can go on, in every state |
| `TaskHistories.TicksNest` | code/client/clrcore/CitizenTaskScheduler.cs:95-140 | from host code and from every body the ticking thread can begin a tick, and run an unused task in place |
| `TaskHistories.InsertedIsStarted` | code/client/clrcore/CitizenTaskScheduler.cs:80-87 | a task that any thread inserts while the innermost tick will look into its dictionary again has been started when no tick is in progress any more |
| `TaskHistories.RunningIsStarted` | code/client/clrcore/CitizenTaskScheduler.cs:121-178 | so has every task that runs when a tick begins |
| `SigSlot.Signal.Connect` | code/shared/sigslot.h:2244-2252 | adds the link at the end and the sender at the other side |
| `SigSlot.Signal.Disconnect` | code/shared/sigslot.h:599-617 | removes the first link to the object and, only then, the sender |
| `SigSlot.Signal.DisconnectAll` | code/shared/sigslot.h:564-579 | removes all links of the signal and its entry in every object linked to |
| `SigSlot.Signal.SlotDisconnect` | code/shared/sigslot.h:619-638 | removes every link to the object, keeping the order of the others |
| `SigSlot.Signal.SlotDuplicate` | code/shared/sigslot.h:640-655 | terminates although it appends to the list it walks; the list is the old one followed by one duplicate per matching link, in order |
| `SigSlot.Signal.Copy` | code/shared/sigslot.h:535-549 | the copy has the same links, and every object linked to knows of it |
| `SigSlot.HasSlots.DisconnectAll` | code/shared/sigslot.h:505-518 | every signal in the senders loses all its links to the object |
| `SigSlot.HasSlots.Copy` | code/shared/sigslot.h:474-486 | every signal in the senders gets duplicate links to the copy, which has the same senders |
| `SigSlot.Signal.Emit` | code/shared/sigslot.h:2254-2269 | the iterator loop calls what the specification says for any removals and additions by the handlers, including the case where the next iterator dangles |
| `SigSlotRuns.LinksAgree` | code/shared/sigslot.h:474-655 | in every run a signal in an object's senders has a connection to it, and the converse when no pair is disconnected while connected more than once |
| `SigSlotRuns.LinksAgreeWhenSingle` | code/shared/sigslot.h:474-655 | both hold in every run that connects each pair at most once at a time |
| `SigSlotRuns.CompleteKeptIff` | code/shared/sigslot.h:599-617 | a step leaves a connection its object does not know of exactly when it disconnects a pair connected more than once |
| `SigSlotRuns.NothingDangles` | code/shared/sigslot.h:500-579 | while the links agree, no operation follows a link to something destroyed |
| `SigSlotRuns.DestroyedSignalForgotten` | code/shared/sigslot.h:551-554 | a destroyed signal is in no object's senders |
| `SigSlotRuns.DestroyedObjectUncalled` | code/shared/sigslot.h:500-503 | a destroyed object is called by no signal exactly when it knew of all connections to it |
| `SigSlotLists.OthersKept` | code/shared/sigslot.h:619-638 | disconnecting an object leaves exactly the links to others, in order |
| `SigSlotLists.OwnDuplicated` | code/shared/sigslot.h:640-655 | duplicating repeats exactly the links to the object, in order and with their slots |
| `SigSlotLists.FirstRemovedIs` | code/shared/sigslot.h:599-617 | disconnecting a pair takes out the first link and keeps what stands before and behind it |
| `SigSlotLists.ListsAfter` | code/shared/sigslot.h:474-655 | a connection comes last with its slot, a copy has the list of its original, and only the lists of the signals concerned change |
| `SigSlotEmits.EmitCallsNext` | code/shared/sigslot.h:2254-2269 | whatever handlers remove and add, the next connection called is the first that was there before the call, present at the start or added, and neither called nor removed yet; emitting ends exactly when no call removes the one that is next when it is made |
| `SigSlotEmits.EmitCallsEachOnce` | code/shared/sigslot.h:2254-2269 | if no handler removes a connection beyond the next one, emitting ends exactly when none removes the next one, and has then called once, in order, every connection present at the start followed by every one that a handler but the last added |
| `SigSlotEmits.EmitLeaves` | code/shared/sigslot.h:2254-2269 | with handlers that remove at most their own connection, the list is left with the called ones whose handlers did not, followed by what the last handler added |
| `Relocations.ApplyRelocations` | code/client/launcher/ExecutableLoader.cpp:404-475 | relocates the image; true when the delta is zero or no entry has an unknown kind |
| `Relocations.UnapplyRelocations` | code/client/launcher/ExecutableLoader.Snapshot.cpp:283-370 | relocates by the negated delta, or by the delta again |
| `Relocations.ShiftBlock` | code/client/launcher/ExecutableLoader.cpp:445-468 | shifts the words a block names, up to an entry of an unknown kind |
| `RelocationTables.TargetsAreNamed` | code/client/launcher/ExecutableLoader.cpp:430-472 | by the bytes of the table: the words to shift are those that the half-words of kind 3 (4 bytes) and 10 (8 bytes) in the blocks the walk comes to name, at their low 12 bits plus the page modulo 2^32, each half-word up to the end of its block once and in order, as far as the first of an unknown kind |
| `RelocationTables.KnownIff` | code/client/launcher/ExecutableLoader.cpp:451-468 | the walk succeeds exactly when every half-word in the table is of kind 0, 3 or 10 |
| `RelocationTables.WellFormedIff` | code/client/launcher/ExecutableLoader.cpp:430-472 | the tables covered are those whose blocks, as far as the walk comes, are empty or lie inside the image with their headers |
| `RelocationTables.ExtentIs` | code/client/launcher/ExecutableLoader.cpp:430-472 | what the walk reads ends with the empty block, or with the block that goes up to the end of the table |
| `RelocationTables.WordsAre` | code/client/launcher/ExecutableLoader.cpp:457-464 | words are little-endian, of 4 and 8 bytes |
| `RelocationTables.NamedWordsMove` | code/client/launcher/ExecutableLoader.cpp:451-464 | on targets pairwise identical or disjoint, the word that a half-word names grows by the delta for each half-word that names it, modulo 2^32 or 2^64 |
| `Relocations.RelocationAdds` | code/client/launcher/ExecutableLoader.cpp:430-472 | on targets pairwise identical or disjoint, each named word grows by the delta for each time it is named, modulo its width, and no other byte changes |
| `Relocations.RelocationCancels` | code/client/launcher/ExecutableLoader.Snapshot.cpp:309-369 | when any two targets are disjoint, end together or share no more bytes than the delta has low zero bytes, taking a relocation back restores every byte, also after an early stop |
| `Relocations.CompatibleRestored` | code/client/launcher/ExecutableLoader.Snapshot.cpp:309-369 | in particular when any two targets are the same word or disjoint, for every delta |
| `Relocations.RelocationKeepsTable` | code/client/launcher/ExecutableLoader.Snapshot.cpp:309-369 | on every image whose targets miss the table, the table reads the same after relocating |
| `Relocations.AllRestoredIff` | code/client/launcher/ExecutableLoader.Snapshot.cpp:309-369 | for any words and delta: every image whose table names only those words is restored exactly when every two of them end together or share no more bytes than the delta has low zero bytes |
| `Relocations.AllRestoredForBasesIff` | code/client/launcher/ExecutableLoader.Snapshot.cpp:309-369 | over all multiples of 64 KB: exactly when no two words share three bytes without ending together |
| `Relocations.OverlapNotRestored` | code/client/launcher/ExecutableLoader.Snapshot.cpp:337-358 | two 4-byte words one byte apart and a delta of 64 KB: an image with its table that is not restored |
| `WordOverlaps.UndoneIff` | code/client/launcher/ExecutableLoader.Snapshot.cpp:337-358 | shifting two words and shifting them back in the same order restores every byte string exactly when they end together or share no more bytes than the delta has low zero bytes |
| `WordOverlaps.UndoneForAllDeltasIff` | code/client/launcher/ExecutableLoader.Snapshot.cpp:337-358 | for all deltas: exactly when the words are disjoint or end at the same byte |
| `WordOverlaps.ListsUndoneIff` | code/client/launcher/ExecutableLoader.Snapshot.cpp:337-358 | every list over some words is undone exactly when every two of the words are |
| `SurfaceRing.RingConserves` | code/client/citicore/ReverseGameData.h:132-174 | in every interleaving permits, surface in hand and surfaces in use add up to the initial permits; surfaces are fetched in submission order |
| `SurfaceRing.ExclusiveIffEnoughSurfaces` | code/client/citicore/ReverseGameData.h:132-174 | the surface drawn is never queued or held, in any interleaving, exactly when there are no more permits than surfaces |
| `SurfaceRing.SemaphoresBounded` | code/client/citicore/ReverseGameData.h:142-151 | neither semaphore is raised above the number of surfaces |
| `SurfaceRing.NeverStuck` | code/client/citicore/ReverseGameData.h:132-174 | with at least one permit some thread can always go on |
| `DownloadQueues.DownloadState.constructor` | code/client/launcher/Download.cpp:163-179 | starts empty and establishes what every operation keeps: the number of downloads is those waiting, running and completed, and both byte sums are the sum of the progress of all downloads |
| `DownloadQueues.DownloadState.QueueDownload` | code/client/launcher/Download.cpp:186-213 | the download waits last; count and total size grow by it |
| `DownloadQueues.DownloadState.DequeueDownload` | code/client/launcher/Download.cpp:239-270 | the head starts exactly when it is admissible |
| `DownloadQueues.DownloadState.WriteToFile` | code/client/launcher/Download.cpp:375-390 | received bytes are added to the download and to both sums, on either branch, unless they could not be decoded |
| `DownloadQueues.DownloadState.TransferEnded` | code/client/launcher/Download.cpp:746-792 | a transfer completes its download, is retried while retries are left, or fails |
| `DownloadQueues.DownloadState.ProcessDownload` | code/client/launcher/Download.cpp:665-798 | deals with all transfers exactly when none fails, and else with those before the first that does: a file that cannot be moved, a refusal, or an error with no retries left; completes exactly the running downloads whose transfers succeeded until then, in order, and takes one retry for each of their errors |
| `DownloadQueues.SuccessesAre` | code/client/launcher/Download.cpp:665-798 | the downloads completed are exactly the running ones with a successful transfer, each once |
| `DownloadQueues.DownloadState.Process` | code/client/launcher/Download.cpp:801-852 | goes on downloading exactly when no transfer fails, and then completes the successful ones and tries to start the head; else reports an error with those before the first failure completed; it reports the end exactly when nothing waits or runs |
| `DownloadQueues.LimitsAlwaysHold` | code/client/launcher/Download.cpp:16-25 | in every run at most 6 downloads run, at most 2 huge and at most 1 mega-huge; they start in queue order and none is lost |
| `DownloadQueues.TickShrinks` | code/client/launcher/Download.cpp:239-270 | a call that finishes a running download, or finds nothing running, makes progress: the head is then admissible whatever its size |
| `DownloadQueues.Drains` | code/client/launcher/Download.cpp:801-852 | if some running download finishes in each call, nothing waits or runs after two calls per waiting and one per running download |
| `DownloadQueues.MegaHugeStartsAlone` | code/client/launcher/Download.cpp:258-265 | in every run a mega-huge download that runs was started while nothing ran and has not finished since |
| `DownloadQueues.SoleIffNoSmallerTried` | code/client/launcher/Download.cpp:239-270 | from its start until it finishes it is the sole one running exactly as long as no start is tried with a head of at most the mega-huge size |
| `DownloadQueues.MegaHugeSoleIff` | code/client/launcher/Download.cpp:239-270 | both, for every reachable state |
| `DownloadQueues.MegaHugeIsJoined` | code/client/launcher/Download.cpp:258-265 | in some run any download that is not itself mega-huge joins a running mega-huge one |
| `DownloadQueues.StartsIff` | code/client/launcher/Download.cpp:16-25 | in every reachable state the head starts exactly when fewer than 6 downloads run, fewer than 2 if it has more than 10 MB, and none if it has more than 40 MB |
| `DownloadQueues.SmallOnesStart` | code/client/launcher/Download.cpp:239-270 | waiting downloads of up to 10 MB are started in order until 6 run |
| `DownloadQueues.TickStartsNext` | code/client/launcher/Download.cpp:801-852 | when all running downloads finish, the same call starts the head of the queue |
| `DownloadQueues.EleventhErrorFails` | code/client/launcher/Download.cpp:129-129 | a new download survives ten errors and ends all downloading with the eleventh |
| `DelayLists.DelayList.FireDelays` | code/client/clrcore/InternalManager.cs:315-344 | the loop with its index and count edited in place does what the pass function says |
| `DelayLists.DelayList.AddDelay` | code/client/clrcore/InternalManager.cs:285-289 | adds at the end |
| `DelayLists.PassFiresDue` | code/client/clrcore/InternalManager.cs:315-344 | when no callback throws, exactly the delays due at the start fire, once and in order, and the others stay, followed by those added |
| `DelayLists.DueAre` | code/client/clrcore/InternalManager.cs:324-324 | the due delays are those whose time is not after now, each once and in list order |
| `DelayLists.ThrowStopsPass` | code/client/clrcore/InternalManager.cs:328-341 | a throwing callback ends the pass and stays in the list with everything behind it |
| `DelayLists.CompleteIffNoneThrows` | code/client/clrcore/InternalManager.cs:315-344 | a pass reaches its end exactly when no due callback throws |
| `DelayLists.ThrowingHeadBlocks` | code/client/clrcore/InternalManager.cs:328-341 | in every run of additions and passes, a due head whose callback throws whenever called is all that any pass fires, and nothing leaves the list |
| `DelayLists.FiresInFirstPass` | code/client/clrcore/InternalManager.cs:285-344 | in every run of additions and complete passes, a pass fires a delay as often as it was added, from outside or by a callback, with no pass reaching its time since |
| `DelayLists.FiresOnce` | code/client/clrcore/InternalManager.cs:285-344 | a delay added once fires once, in the first pass after that to reach its time, and in no other |
| `DelayLists.PassConserves` | code/client/clrcore/InternalManager.cs:315-344 | when no callback throws, what was listed or added is fired or still listed, and nothing is fired twice |
| `Base64.Base64Encode` | code/shared/base64.cpp:18-47 | the loop and the padding produce the encoding of section 4 of RFC 4648 |
| `Base64.Decoder.Base64Decode` | code/shared/base64.cpp:50-85 | null exactly for a length that is not a multiple of four; otherwise the decoded bytes |
| `Base64.Decoder.BuildDecodingTable` | code/shared/base64.cpp:92-100 | the table maps every character of the alphabet to its sextet |
| `Base64.AlphabetIs` | code/shared/base64.cpp:5-12 | the alphabet runs from A to Z, a to z and 0 to 9 and ends with + and / |
| `Base64.QuadIs` | code/shared/base64.cpp:35-40 | four characters have the bits of three bytes, first bits first |
| `Base64.RestIs` | code/shared/base64.cpp:43-44 | with fewer bytes the bits that fill up are zero, and = stands for missing characters |
| `Base64.DecodeInvertsEncode` | code/shared/base64.cpp:18-85 | decoding an encoding gives the bytes back; encodings are canonical |
| `Base64.EncodeInvertsDecode` | code/shared/base64.cpp:18-85 | encoding what a canonical string decodes to gives the string back |
| `Base64.RoundTripIffCanonical` | code/shared/base64.cpp:18-85 | for decodable strings that round trip holds exactly for the canonical ones |
| `MergedFileStreams.MergedFileStream.GetFileFor` | code/client/launcher/InstallerExtraction.cpp:76-91 | the file that has the byte, skipping files without bytes; -1 past the end |
| `MergedFileStreams.MergedFileStream.Read` | code/client/launcher/InstallerExtraction.cpp:40-63 | terminates and reads the next bytes of the concatenated file |
| `MergedFileStreams.PartOfWhole` | code/client/launcher/InstallerExtraction.cpp:32-37 | a part of one file is the part of the concatenation at its offset |
| `MergedFileStreams.Replay` | code/client/launcher/InstallerExtraction.cpp:40-73 | every sequence of Set and Read within the total gives the bytes and offsets of the single file |
| `TickRequests.ScheduledIsSound` | code/client/clrcore-v2/ScriptInterface.cs:85-98 | in every interleaving the scheduled time never rises, is at most the time of every request that returned, and is the initial time, a requested one or, if asked for the next frame, 0, all as the steps tell |
| `TickRequests.EndsAsMinimum` | code/client/clrcore-v2/ScriptInterface.cs:85-92 | once all requests begun returned, it is the least of the initial time, the requested ones and, if asked for the next frame, 0 |
| `TickRequests.RoundsBounded` | code/client/clrcore-v2/ScriptInterface.cs:88-91 | a call's loop takes finitely many rounds, whatever the other threads do |
| `TickRequests.RoundExplained` | code/client/clrcore-v2/ScriptInterface.cs:88-91 | a round schedules the request's own time or found that another thread had lowered it |
| `TickRequests.AloneSchedules` | code/client/clrcore-v2/ScriptInterface.cs:85-92 | a request left alone ends in two rounds at most and leaves the lesser of the scheduled time and its own |

## Left out

- TokenBucket: IEEE rounding and infinities (exact reals are used), sleeping in `consumeWithBorrowAndWait`, copying, and concurrent mixing of `consumeOrDrain` and borrowing with other threads.
- TokenBuckets.DynamicTokenBucket.Reset: the plain store is modelled alone, not against other threads.
- DynFunc: security attributes, `calli`, the checks of `CreateDelegate`, the 256-local limit of the generator and the delegate overloads of `Create`; conversions, casts, constructors and the called method are uninterpreted.
- MsgPackRoundTrip.DecodeReturnsValue: lengths of 2^31 and more are not covered, because the decoder reads them as negative; strings are their bytes, because UTF-8 decoding and number formatting for non-string keys are not modelled.
- MsgPackSerializing.Serialize: dictionaries with other than string keys, dates, decimals, GUIDs, enumerables that are not lists (which are copied to a list first) and packable objects are left out; the packer library is any packer whose formats can hold what they are given, and what a delegate packs is a given byte string.
- Creating function references for extension types 10 and 11: their bytes are kept as they are.
- ComponentLoading.ComponentLoader.SortAndLoad: an unresolved dependency ends it with an outcome instead of stopping the process; reading the component list, loading libraries, the replacement of one component on unsupported platforms and creating instances are left out, and so is the empty entry that looking up an unknown name adds to the map.
- ComponentIds.Parse: number tokens outside the range of an int, for which `atoi` is undefined, read as unbounded integers; token buffers that overflow are excluded by a precondition.
- TaskScheduling.NoTaskLost: that a body runs only once and ends, and that a task is queued or inlined once, is the runtime's guarantee and part of the model; inlining by other threads, attached children, cancellation and `GetScheduledTasks` are left out.
- `CitizenSynchronizationContext`: it only swaps a list under a lock.
- Locks and arities 1 to 8 in `sigslot.h`: the default policy has no locks and the arities repeat arity 0.
- SigSlot.Signal.Emit: an emission in which handlers add connections without end does not end and is excluded by a precondition; what handlers do to other signals is not part of it.
- SigSlot.Signal.SlotDuplicate: old and new target are required to differ; for equal ones the loop does not end.
- Relocations.ApplyRelocations: the headers are not parsed, the table's place and size are parameters; targets are required to lie in the image and outside the table, and blocks not to be shorter than their header, since the code reads and writes outside the image otherwise. `VirtualProtect` is left out.
- Relocations.ShiftBlock: the two files repeat the same loop; it is modelled once, and the walk is split into methods per table, block and entry.
- SurfaceRing: time-outs (they change nothing), handle creation, and several producers or consumers.
- DownloadQueues.DownloadState.WriteToFile: what is written or decoded is an event; speed and percentage shown are left out, and so are file moves, transfer handles and the failure to open a file.
- DelayLists.DelayList.FireDelays: a callback that ticks re-entrantly, and the rest of the tick.
- Base64.Decoder.Base64Decode: the empty input and characters outside the alphabet are excluded by a precondition, because the code reads before the start of its input or an uninitialised table entry; lengths beyond an int index are not modelled.
- MergedFileStreams.MergedFileStream.Read: reading past the total is excluded by a precondition, because `GetFileFor` returns -1 there; files shorter than declared are excluded too.
- TickRequests.ScheduledIsSound: resets of the scheduled time by the host.
- Installer, user interface, hooking, crash handling, networking and native interop.
