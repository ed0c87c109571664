# Zapata: a Dafny model of its hardest parts

This project models five parts of the Zapata code base and proves what they are for.

* **Functional expressions** such as `gt(integer(0,2),x)`: a refillable byte buffer, a scanner of three
  DFAs, a table-driven LALR(1) parser, and actions that build a JSON tree on a stack.  `Tokenizer`,
  `Grammar` and `Json` hold the three simple definitions (a pure maximal-munch tokenizer, parse trees with
  their yields, and the tree that a parse tree denotes); `FunctionalLexer`, `FunctionalTokenizer` and
  `FunctionalParser` are the program, with its buffer, pointers, state stack and value stack changed in
  place; `Automaton` and `ParserCorrectness` connect the two; `RoundTrip` prints trees and gets them back.
* **The slot table of a stream set**: `StreamSlots` is the lock-free protocol as a state machine with any
  number of threads, one atomic access to a step; `StreamSafety` has what holds of every interleaving;
  `StreamSet` is the program text of the operations, with the proof that undisturbed they are sequences of
  those steps.
* **Plugin boot**: `Startup` has the dependency closure over the list that it extends, the loader's
  repeated passes, and unloading; `BuiltinPlugins` has the table of builtin plugins.
* **The event dispatcher**: `Dispatcher` is the state machine of workers, triggering threads, start and
  stop; `DispatcherSafety` has its properties over every interleaving.
* **Hashes and codecs**: `Sha1Compression`, `Sha1`, `Sha2` and `Padding`; `WebSocket`; `Base64`.

Where the code is a loop or changes fields, a method and a function go together: the method's `ensures`
equates its result, or the new state, with a recursive function, and the lemmas are about that function.  Concurrency is modelled
under sequential consistency.

## What the code does that one might not expect

* `catch_error` is documented to make the dispatcher trigger the event again when it returns true; the code
  only logs when it returns false (common/events/src/dispatcher.cpp:94-114).  The model follows the code: an
  operation that has thrown is finished for good, whether or not the error has been caught
  (`DispatcherSafety.ThrownIsNeverRetried`).
* The queue's shutdown flag is set by `stop_consumers` and never reset.  After the first stop has returned,
  consumers can be started again but every event that is triggered is dropped and none is ever handled.
  That no event is lost while the dispatcher is not being shut down therefore holds exactly as long as no
  stop has shut the queue down (`DispatcherSafety.DroppedAtTheQueueExactlyAfterStop`,
  `DispatcherSafety.NothingIsFinishedAfterStop`); `DispatcherSafety.RestartLosesEvents` is a run that ends
  with the dispatcher up and its queue down.
* A `stop_consumers` that finds another one under way returns at once, and then no worker is left in the loop
  exactly if the counter of running workers happens to be zero
  (`DispatcherSafety.StopReturnsAtOnceExactlyDuringAnother`; `DispatcherSafety.SecondStopDoesNotWait` is a run
  in which it is not).
* Lookups by uri go wrong when a stream is inserted under a uri that is taken; when a stream is upgraded that is
  not registered, while its uri has an entry; when the uri of an upgraded stream has no `://`, since its entry is
  erased before the upgrade throws; and when an upgrade leads to a uri that another stream has.  They are right
  exactly as long as none of these happens (`StreamSafety.UrisAgreeExactlyWhenSafe`); two runs that break them
  are `StreamSafety.TakenUriBreaksLookups` and `StreamSafety.UpgradeWithoutSchemeBreaksLookups`.
* SHA-256 and SHA-512 write the message length as a 32-bit number.  They agree with FIPS 180-4 exactly for
  messages of less than 2^29 bytes (`Sha2.SuffixIsRight`).  And `update` adds lengths as 32-bit numbers: a
  message is hashed whole exactly as long as no sum of what waits in the block and of the next piece wraps
  (`Sha2.AllIsTaken`).
* Once the end of its stream is known, the scanner's `fill` no longer shifts the buffer, although `yyfill`
  sizes it as if the token in flight were at its start.  If there would be room only after a shift, the padding
  does not fit (`Lexer.OutOfBounds`, a precondition); if the buffer has to grow, the pointers move to its start
  and the bytes do not, which keeps the layout exactly if the same bytes happen to be there
  (`FunctionalLexer.Lexer.Yyfill`).  Neither happens in a run: the DFAs only ask before the end is known.
* The loader looks at one entry of a name after the other and loads a plugin as soon as what the entries so far
  require is live, although a later entry of the name may require more.  Two things that one would expect are
  therefore false of some lists: that a boot succeeds exactly if there is no cycle of requirements, and that each
  plugin comes after all that it requires.  A boot succeeds exactly if what its first pass leaves has no cycle, and
  the order is right exactly if each plugin that the first pass loads has, when it is loaded, all that any entry of
  its name requires (`Startup.Boot.Start`); both are as expected if later entries add nothing.  The first pass is a
  function of the list (`Startup.FirstPass`).  With the program's own builtins, one boot with a cycle succeeds
  (`BuiltinPlugins.LaterEntryComesTooLate`), and one fails although first entries have no cycle
  (`BuiltinPlugins.LaterEntryClosesCycle`).
* A parameter list may begin with a comma and need not have any between parameters, as the grammar has it
  (parsers/functional/src/FunctionalParser.bison.cpp:527-530).
* Only a variable as the outermost head reaches the root object; for a string or a number the parse is
  accepted and the root stays empty (`FunctionalParser.RootOf`).
* The parser's stack limit is a parameter of the model, since the code stops at one of two depths depending
  on whether its stack can be relocated (parsers/functional/src/FunctionalParser.bison.cpp:782-837).

## Model

| member | source | states |
|---|---|---|
| Automaton.TablesAreLalr | parsers/functional/src/FunctionalParser.bison.cpp:499-518 | In each of the 18 states and for each of the 9 symbols, the compressed tables decode to the action of the LALR(1) automaton written out by hand, and the states that need no lookahead are those marked as such |
| Automaton.GotosAreLalr | parsers/functional/src/FunctionalParser.bison.cpp:1000-1005 | The goto tables decode to the automaton's gotos, for every rule and every state that a reduction can uncover |
| Automaton.ReductionHasHandle | parsers/functional/src/FunctionalParser.bison.cpp:919-992 | Whatever the stack, when a rule is reduced its whole right-hand side is on top, so that popping never reaches below the bottom |
| Automaton.WeightBound | parsers/functional/src/FunctionalTokenizerLexer.cpp:68-77 | The states on the stack bound the number of JSON values from below: two where a parameter is about to be added |
| Automaton.NoUnderflow | parsers/functional/src/FunctionalParser.bison.cpp:934-978 | No action pops or reads an empty value stack |
| Automaton.StepKeepsValid | parsers/functional/src/FunctionalParser.bison.cpp:766-1007 | Each round keeps the stack a path of the automaton that accounts for the values, and uses up tokens or potential, so that the parse ends |
| ParserCorrectness.ExpRuns | parsers/functional/src/FunctionalParser.bison.cpp:766-1007 | Any derived expression, in any context that opens one, drives the machine to the state after it and leaves its tree, exactly when the stack has room for it and its calls are headed by variables; otherwise the run fails for one of these reasons |
| ParserCorrectness.ListRuns | parsers/functional/src/FunctionalParser.bison.cpp:934-949 | The same for a parameter list: the target on the value stack gets all parameters, in order |
| ParserCorrectness.RunSound | parsers/functional/src/FunctionalParser.bison.cpp:766-1007 | Whatever is accepted is the yield of a parse tree |
| ParserCorrectness.AcceptedTree | parsers/functional/src/FunctionalParser.bison.cpp:766-1007 | The run of a parse tree's yield: accepted with exactly the tree's value if it fits and is well headed; else out of stack, or, only if it is not well headed, a type error |
| ParserCorrectness.AcceptsExactlyTheGrammar | parsers/functional/src/FunctionalParser.bison.cpp:499-530 | A token sequence is accepted if and only if a well-headed parse tree that fits the stack yields it |
| ParserCorrectness.SyntaxErrorsAreNotDerived | parsers/functional/src/FunctionalParser.bison.cpp:1012-1020 | What is called a syntax error is not derived by the grammar, whatever the limit |
| ParserCorrectness.NeverUnderflows | parsers/functional/src/FunctionalTokenizerLexer.cpp:62-77 | No run, on any input, underflows the value stack |
| Grammar.SameTree | parsers/functional/src/Functional.y:51-92 | The grammar is unambiguous, also within a longer text: if two yields, each followed by anything but an opening parenthesis, are the same tokens, both the trees and what follows are the same |
| ParserCorrectness.OneTree | parsers/functional/src/Functional.y:51-92 | A token sequence has at most one parse tree |
| FunctionalParser.ActionFound | parsers/functional/src/FunctionalParser.bison.cpp:852-914 | The lookup in the compressed tables finds the automaton's action |
| FunctionalParser.RoundRuns | parsers/functional/src/FunctionalParser.bison.cpp:852-914 | What taking the automaton's action does to the rest of the machine's run: it stops with the run's result, or goes on with a valid machine that has the same run |
| FunctionalParser.ReduceIsPossible | parsers/functional/src/FunctionalParser.bison.cpp:919-1007 | The tables give the length of the rule and a goto from the uncovered state, without leaving their bounds |
| FunctionalParser.Reduce | parsers/functional/src/FunctionalParser.bison.cpp:919-1007 | Running the action, popping and pushing in the array is the machine's reduction |
| FunctionalParser.Round | parsers/functional/src/FunctionalParser.bison.cpp:766-1007 | One turn of the goto-driven loop, with scanner and actions, is one round of the machine on the pure token sequence |
| FunctionalParser.YyParse | parsers/functional/src/FunctionalParser.bison.cpp:709-1007 | The parse has the outcome, the values and the unread rest of the machine's run on the tokens of what the stream has left |
| FunctionalParser.Parse | parsers/functional/src/FunctionalTokenizer.cpp:26-36 | After success and after an error the stream stands at the first byte that the parse has not consumed |
| FunctionalParser.FunctionalParse | parsers/functional/src/FunctionalTokenizer.cpp:26-36 | From bytes to tree: accepted if and only if the text's tokens have a well-headed parse tree that fits; then the root has its value and the stream has been read to its end; a syntax error means that there is no derivation |
| FunctionalParser.RootIsTree | parsers/functional/src/FunctionalTokenizerLexer.cpp:62-66 | The one value left by an accepted parse is in the root object if its head is a variable, with its parameters behind those that were there; otherwise the root is as it was |
| FunctionalLexer.Lexer.Fill | parsers/functional/src/Re2cFunctionalLexer.cpp:79-133 | Makes bytes available if the stream has them; shifting and growing keep every pointer's place in the stream, and no write leaves the buffer |
| FunctionalLexer.Lexer.Yyfill | parsers/functional/src/Re2cFunctionalLexer.cpp:135-162 | Always makes the bytes available, at the same place in the stream; the buffer's layout, with NULs only behind the end of the stream, is kept if and only if the pointers are not moved away from the token's bytes |
| FunctionalLexer.Lexer.Conserved | parsers/functional/src/Re2cFunctionalLexer.cpp:79-183 | What has been consumed, what is buffered from the cursor on, and what has not been read make up the input |
| FunctionalLexer.Lexer.CaptureMatch | parsers/functional/src/Re2cFunctionalLexer.cpp:164-172 | The match becomes the stream's text between token start and cursor, appended to the previous match if more was asked for |
| FunctionalLexer.Lexer.Munch | parsers/functional/src/FunctionalLexer.re2c.cpp:242-260 | Consumes the longest run of a character class, across any number of refills |
| FunctionalLexer.Lexer.LexInitial | parsers/functional/src/FunctionalLexer.re2c.cpp:67-185 | Token, text, rest, mode and `more` flag after the first DFA, from what is left of the stream |
| FunctionalLexer.Lexer.LexQuoted | parsers/functional/src/FunctionalLexer.re2c.cpp:187-234 | The same inside a string literal, where NULs are dropped and runs are chained |
| FunctionalLexer.Lexer.LexNumber | parsers/functional/src/FunctionalLexer.re2c.cpp:236-271 | The number that began with the captured digit ends after the longest run of digits and points, which may be empty |
| FunctionalLexer.QuotedProgress | parsers/functional/src/FunctionalLexer.re2c.cpp:187-234 | Each round inside a literal gets closer to its end, with the characters so far as the match to be extended |
| FunctionalLexer.Lexer.Lex | parsers/functional/src/Re2cFunctionalLexer.cpp:210-228 | Terminates, and returns the kind and text of the pure tokenizer's next token and leaves what that leaves |
| FunctionalLexer.Lexer.SyncBackToStream | parsers/functional/src/Re2cFunctionalLexer.cpp:174-183 | The stream takes back every buffered byte that was not consumed, none of them padding, and stands at the first |
| FunctionalLexer.Lexer.SwitchStreams | parsers/functional/src/Re2cFunctionalLexer.cpp:66-77 | The scanner starts afresh at the new stream's position |
| Tokenizer.QuotedRun | parsers/functional/src/FunctionalLexer.re2c.cpp:204-220 | Scanning a literal run by run, with the match chained, is scanning it at once |
| FunctionalTokenizer.TokenizerLexer.SwitchRoots | parsers/functional/src/FunctionalTokenizerLexer.cpp:31-41 | An empty stack, the new root with whatever it has, and the initial mode |
| FunctionalTokenizer.TokenizerLexer.SetString | parsers/functional/src/FunctionalTokenizerLexer.cpp:43-45 | Pushes the match as a string value |
| FunctionalTokenizer.TokenizerLexer.SetNumber | parsers/functional/src/FunctionalTokenizerLexer.cpp:47-60 | Pushes the match as a number, an integer saturated to 64 bits if it has no point |
| FunctionalTokenizer.TokenizerLexer.SetVariable | parsers/functional/src/FunctionalTokenizerLexer.cpp:62-66 | Pushes a call head, the root object first; the values below are as they were |
| FunctionalTokenizer.TokenizerLexer.AddParam | parsers/functional/src/FunctionalTokenizerLexer.cpp:68-77 | Mutates the object below the top, and only its value changes: the top is appended, collapsed to its name if it is a head without parameters; fails if there is no object |
| RoundTrip.TokensOfPrinted | parsers/functional/src/Re2cFunctionalLexer.cpp:210-228 | Scanning a printed tree, whatever follows it, gives the tokens of its parse tree |
| RoundTrip.PrintedIsDerived | parsers/functional/src/FunctionalTokenizerLexer.cpp:43-77 | The tokens of a printed normal-form tree are derived, and the parse tree denotes the tree |
| RoundTrip.PrintsOnce | parsers/functional/src/FunctionalLexer.re2c.cpp:67-271 | Trees that print to the same tokens are the same |
| RoundTrip.PrintAndParse | parsers/functional/src/FunctionalTokenizer.cpp:26-36 | Parsing a printed tree through buffer, scanner, automaton and actions gives it back, exactly when the stack has room; otherwise the stack is exhausted and nothing else |
| RoundTrip.ScannedTreeIsNormal | parsers/functional/src/FunctionalTokenizerLexer.cpp:43-77 | Every tree built from scanned text is in normal form |
| RoundTrip.ParsedTreeComesBack | parsers/functional/src/FunctionalTokenizerLexer.cpp:43-77 | Whatever text a tree came from, printing and parsing it again gives the same tree |
| StreamSlots.StepKeepsInvariant | io/stream/src/stream_set.cpp:40-151 | Every step of every thread keeps slots, claim tokens, index queue, holders and the uuid map in agreement |
| StreamSlots.TokenMeansArmed | io/stream/src/stream_set.cpp:139-151 | A claim token in a slot is that of the stream at home there, which is armed or still private |
| StreamSlots.AtHold | io/stream/src/stream_set.cpp:86-110 | A held stream is at its index, with an empty claim token, one holder, and its uuid registered |
| StreamSafety.MutualExclusion | io/stream/src/stream_set.cpp:86-110 | In every interleaving at most one thread holds a stream; its slot's token is 0 and its slot contains it; no two held streams share a slot |
| StreamSafety.HoldIsStable | io/stream/src/stream_set.cpp:40-151 | No step of another thread ends a hold or begins one, but for a hand-over to the thread |
| StreamSafety.OnlyTheNamedStreamIsClaimed | io/stream/src/stream_set.cpp:139-151 | A claim with any handle, however stale, succeeds exactly when the named stream is armed in that slot; otherwise nothing changes |
| StreamSafety.CheckPasses | io/stream/src/stream_set.cpp:142-147 | The uuid check after a successful claim passes, whatever happened in between |
| StreamSafety.HolderSucceeds | io/stream/src/stream_set.cpp:59-110 | A holder's release and erasure never fail |
| StreamSafety.InsertFailsOnlyWhenFull | io/stream/src/stream_set.cpp:40-57 | The claim inside an insertion never fails, its error path is never taken, and it returns false exactly when the pop found no index |
| StreamSafety.IndexesArePartitioned | io/stream/src/stream_set.cpp:28-74 | Every index is in the queue, in flight in one insertion or erasure, or that of a registered stream, and in one place only |
| StreamSafety.RegisteredWithinCapacity | io/stream/src/stream_set.cpp:28-36 | There are never more registered streams than slots |
| StreamSafety.LookupByUuidIsExact | io/stream/src/stream_set.cpp:112-117 | A uuid finds its stream if that is registered, and nothing otherwise |
| StreamSafety.UrisAgreeExactlyWhenSafe | io/stream/src/stream_set.cpp:76-84 | A step keeps the entries by uri those of the registered streams under their current uris if and only if it does not insert under a taken uri, and does not upgrade a stream whose uri has an entry unless the stream is registered, its uri has a scheme, and the new uri is not that of another stream |
| StreamSafety.UrisAgreeThroughout | io/stream/src/stream_set.cpp:119-124 | Lookups by uri are right at every moment of a run if and only if all its steps are of that kind |
| StreamSafety.TakenUriBreaksLookups | io/stream/src/stream_set.cpp:40-57 | A run that breaks them: two streams with the same uri are inserted |
| StreamSafety.UpgradeWithoutSchemeBreaksLookups | io/stream/src/stream_set.cpp:76-84 | Another one: a stream without a scheme is upgraded |
| StreamSet.StreamSet.Insert | io/stream/src/stream_set.cpp:40-57 | The memory after an insertion, whole, in terms of the steps that it takes; the index goes back if the claim fails |
| StreamSet.StreamSet.Erase | io/stream/src/stream_set.cpp:59-74 | The memory after an erasure, whole, or nothing changed if the slot is not claimed |
| StreamSet.StreamSet.Release | io/stream/src/stream_set.cpp:99-110 | The token comes back exactly if it was empty |
| StreamSet.StreamSet.Acquire | io/stream/src/stream_set.cpp:139-151 | The stream of the handle, or null, with the token taken |
| StreamSet.StreamSet.Upgrade | io/stream/src/stream_set.cpp:76-84 | The entry moves to the stream's new uri, or is lost when the upgrade throws |
| StreamSet.InsertUndisturbed | io/stream/src/stream_set.cpp:40-57 | Without interference, the machine's steps of an insertion leave the memory that the program text does |
| StreamSet.AcquireUndisturbed | io/stream/src/stream_set.cpp:139-151 | The same for a successful acquisition, after which the thread is the holder |
| StreamSet.EraseUndisturbed | io/stream/src/stream_set.cpp:59-74 | The same for an erasure by the holder |
| Startup.Boot.ResolveBuiltinDependencies | engines/startup/src/startup.cpp:217-239 | The worklist over its own growing list terminates; the result is the least list that has the configured names and all that its entries require, with the requirements that listed builtins add to others |
| Startup.ResolvedIsLeast | engines/startup/src/startup.cpp:232-237 | Nothing is listed that is neither configured nor required |
| Startup.Boot.Visit | engines/startup/src/startup.cpp:176-201 | One entry of a pass: nothing if its plugin is live; otherwise what is pending for its name loses what the entry requires and is live, and gets what it requires and is not; and the plugin is loaded exactly if nothing is pending then |
| Startup.Boot.Load | engines/startup/src/startup.cpp:163-207 | Terminates, for any closed list and from any live plugins; each plugin is loaded after what the first entry of its name requires; succeeds if and only if nothing was live and everything is then; everything is live then if and only if what the first pass leaves has no cycle; what the first pass leaves is loaded after all that it requires, so the order respects all requirements if and only if that of the first pass does; what fails to be loaded waits for something else that does; if later entries add nothing, it succeeds if and only if there is no cycle |
| Startup.Boot.Start | engines/startup/src/startup.cpp:163-239 | Both together, from the configured list: succeeds if and only if what the first pass over the resolved list leaves has no cycle; the order respects all requirements if and only if the first pass loads each plugin with all of them live; if no configured name is listed again with a new requirement, it succeeds if and only if there is no cycle |
| Startup.OrderedExactlyInTime | engines/startup/src/startup.cpp:176-201 | The order that the first `k` entries of a pass make respects all requirements if and only if each plugin that they load has, at that moment, all that any entry of its name requires |
| Startup.EndIsDecided | engines/startup/src/startup.cpp:172-204 | If the names that are left wait for each other, and those behind the first pass have been loaded after all that they require, then none is left if and only if the names behind the first pass have no cycle |
| BuiltinPlugins.LaterEntryComesTooLate | engines/startup/src/startup.cpp:176-201 | With the program's builtins, a boot succeeds although "a", listed again, and "b" require each other, and so in an order that does not respect all requirements |
| BuiltinPlugins.LaterEntryClosesCycle | engines/startup/src/startup.cpp:176-204 | With the same cycle a boot fails, although what first entries require has no cycle |
| Startup.StuckIsCyclic | engines/startup/src/startup.cpp:204-204 | Plugins that each wait for one of themselves have a cycle among them |
| Startup.OneGraph | engines/startup/src/startup.cpp:176-192 | If later entries of a name add nothing, what first entries require is all that is required |
| Startup.CompleteOrderIsAcyclic | engines/startup/src/startup.cpp:172-202 | If everything has been loaded after all that it requires, there is no cycle |
| Startup.OrderExtended | engines/startup/src/startup.cpp:198-200 | Loading a plugin all of whose requirements are live keeps the load order one in which each comes once and after its requirements |
| Startup.PrefixIsClosed | engines/startup/src/startup.cpp:198-200 | At every moment the live plugins are closed under requirements |
| Startup.Boot.Unload | engines/startup/src/startup.cpp:209-215 | After each erasure, in reverse load order, what is live is still closed under requirements; in the end nothing is |
| BuiltinPlugins.BuiltinsAreNotOnCycles | engines/startup/src/startup.cpp:29-78 | Whatever is configured, no builtin is ever on a cycle of requirements |
| BuiltinPlugins.StartBuiltins | engines/startup/src/startup.cpp:29-78 | A boot with builtins only always succeeds and loads all of them |
| Dispatcher.StepKeepsInvariant | common/events/src/dispatcher.cpp:40-148 | Every step keeps each event in its place and the counter of running workers right |
| DispatcherSafety.EventsAreInOnePlace | common/events/src/dispatcher.cpp:70-117 | In every interleaving each event is once in the queue, with one thread, finished or dropped; never with two workers |
| DispatcherSafety.NothingDisappears | common/events/src/dispatcher.cpp:70-117 | No step makes an event vanish; only its worker finishes it; it is dropped only while one of the shutdown flags is set |
| DispatcherSafety.DroppedExactlyAtAFlag | common/events/src/dispatcher.cpp:66-74 | An event is dropped exactly where a thread that has it finds a flag set; clearing the queue drops nothing |
| DispatcherSafety.DroppedAtTheQueueExactlyAfterStop | common/events/src/dispatcher.cpp:70-74 | In any run, a triggered event that has come to the queue is dropped there if and only if some stop has shut the queue down before, and gets into it otherwise |
| DispatcherSafety.ThrownIsNeverRetried | common/events/src/dispatcher.cpp:88-115 | An event whose operation has thrown is finished, stays so in every run and is never again queued or with a thread; whether it has caught the error makes no difference |
| DispatcherSafety.OperationCanThrow | common/events/src/dispatcher.cpp:78-94 | A run in which a worker has come to the operation of a triggered event, which can throw |
| DispatcherSafety.QueueRemembersStop | common/lockfree/include/zapata/lockfree/queue.h:341-344 | The queue's flag is set exactly if some stop has set it: it is never reset |
| DispatcherSafety.NoDropBeforeFirstStop | common/events/src/dispatcher.cpp:56-74 | In a run in which no stop has shut the queue down, an event is dropped only while the dispatcher is being shut down |
| DispatcherSafety.TriggerQueuesUnlessStoppedBefore | common/events/src/dispatcher.cpp:70-74 | A trigger that nothing interrupts, while no stop is under way, ends with the event at the end of the queue if and only if no earlier stop has shut it down; else it is dropped |
| DispatcherSafety.StopLeavesNoWorker | common/events/src/dispatcher.cpp:56-68 | When the stop that has set the flag returns, no worker is in the loop, across any number of restarts; and there are never more workers than the maximum |
| DispatcherSafety.StopReturnsAtOnceExactlyDuringAnother | common/events/src/dispatcher.cpp:56-57 | A stop does nothing if and only if another one is under way; and then no worker is in the loop if and only if the counter is zero |
| DispatcherSafety.SecondStopDoesNotWait | common/events/src/dispatcher.cpp:56-57 | A run in which a second stop returns with a worker in the loop |
| DispatcherSafety.RestartLosesEvents | common/events/src/dispatcher.cpp:56-68 | A run after which no stop is under way and the queue is shut down for all that will be triggered |
| DispatcherSafety.StopLeavesDead | common/events/src/dispatcher.cpp:56-68 | After a stop the queue gives nothing and no worker has anything |
| DispatcherSafety.NothingIsFinishedAfterStop | common/events/src/dispatcher.cpp:40-68 | From then on no event is finished, however often consumers are started |
| Sha1Compression.MixIsF | common/base/src/sha1.cpp:36-50 | The program's bit expressions for choice and majority are those of the standard |
| Sha1Compression.NextWord | common/base/src/sha1.cpp:30-33 | The circular array of 16 words yields the 80-word schedule |
| Sha1Compression.FiveSteps | common/base/src/sha1.cpp:179-259 | Five unrolled rounds on renamed registers are five rounds on shifted ones |
| Sha1Compression.Transform | common/base/src/sha1.cpp:171-270 | For every block and chaining value the digest is that of section 6.1.2 of FIPS 180-4 |
| Sha1.Sha1.Update | common/base/src/sha1.cpp:59-70 | Hashes all that the stream has, transforming exactly the whole blocks and buffering the rest |
| Sha1.Sha1.Finalize | common/base/src/sha1.cpp:75-108 | Returns the digest of the padded message and starts afresh |
| Sha1.LengthWords | common/base/src/sha1.cpp:92-94 | Writing the 64-bit count as two words is appending its eight bytes |
| Sha1.TailDigested | common/base/src/sha1.cpp:79-95 | The last one or two blocks complete the digest of the padded message |
| Sha1.HashPieces | common/base/src/sha1.cpp:54-108 | However a message is split into updates, the result is its digest |
| Padding.PaddedIsWhole | common/base/src/sha256.cpp:111-113 | The padding of FIPS 180-4 makes whole blocks with the fewest zeros |
| Sha2.Sha2.Update | common/base/src/sha256.cpp:84-104 | For a piece of any 32-bit length: the whole blocks of what has come so far are compressed, in order, and the rest is kept, unless the length wraps; then the piece is lost with the end of what was waiting |
| Sha2.Sha2.Finalize | common/base/src/sha512.cpp:113-126 | The compression is fed the message and the program's padding; up to 2^29 bytes that is the standard's |
| Sha2.SuffixIsRight | common/base/src/sha256.cpp:106-117 | The program's padding is the standard's if and only if the message has less than 2^29 bytes |
| Sha2.AllIsTaken | common/base/src/sha256.cpp:84-104 | What has been taken of all pieces is the whole message if and only if no length wraps |
| Sha2.HashPieces | common/base/src/sha256.cpp:84-119 | However a message is split into updates, what has been taken is padded and compressed; it is the whole message if and only if no length wraps, and so if each piece has less than 2^32 bytes by at least a block |
| Sha2.HashString | common/base/src/sha256.cpp:121-128 | A string is hashed up to its length modulo 2^32; below 2^29 bytes the standard's padded message is compressed |
| WebSocket.Write | network/websocket/src/websocket.cpp:119-162 | Writes a text frame of section 5.2 of RFC 6455, with the shortest form of its length |
| WebSocket.Read | network/websocket/src/websocket.cpp:80-117 | From any stream: reads the frame that it begins with, and nothing beyond it; if it is not whole, all there is, and the result is that of the frame with the missing bytes made up, zeros but for those of an eight-byte length |
| WebSocket.ShiftIn | network/websocket/src/websocket.cpp:95-99 | The 64-bit length is that of its eight bytes: the 127 that it starts from is shifted out |
| WebSocket.LengthComesBack | network/websocket/src/websocket.cpp:125-143 | All three forms of the length are read as they were written |
| WebSocket.FrameComesBack | network/websocket/src/websocket.cpp:80-117 | Any frame, with any key or none, decodes to its payload and opcode and leaves what follows |
| WebSocket.MaskedTwice | network/websocket/src/websocket.cpp:110-114 | Masking twice with a key gives the payload back, and masking with the zero key changes nothing |
| WebSocket.Converse | network/websocket/src/websocket.cpp:80-162 | Any number of messages written one after the other are read again in order, as text, and what follows is left |
| Base64.Encode | common/base/src/base64.cpp:172-203 | The vector loop computes the encoding, in both alphabets, padded or not |
| Base64.EncodeStream | common/base/src/base64.cpp:109-135 | The stream loop computes the same function |
| Base64.Decode | common/base/src/base64.cpp:205-235 | The vector loop decodes up to the first padding character; if there are characters from 128 on before that, the number of bytes is right |
| Base64.DecodeStream | common/base/src/base64.cpp:137-164 | The stream loop computes the same function, and takes the padding character |
| Base64.DecodesWhatIsEncoded | common/base/src/base64.cpp:237-303 | Decoding an encoding gives the bytes back, for every byte string, alphabet and padding |
| Base64.EncodedLength | common/base/src/base64.cpp:237-271 | Encodings have the length that sections 4 and 5 of RFC 4648 require |
| Base64.GroupComesBack | common/base/src/base64.cpp:217-219 | Four sextets make the three bytes that they come from |

## Left out

- FunctionalLexer.Lexer.Yyfill: requires that padding stays inside the buffer and no pointer is put before it, which only a call after the end is known could violate; the DFAs never make one.
- FunctionalTokenizer.TokenizerLexer.SwitchRoots: a root has a functor and parameters; other keys that it may have are left alone.
- FunctionalTokenizer.TokenizerLexer.SetNumber: a number with a point is represented by its text, not by a floating-point value.
- FunctionalTokenizer.TokenizerLexer.AddParam: parameters are stored by value; the original shares the nodes, which nothing changes afterwards.
- Startup.Boot.Load: takes it that each plugin object loads once its turn has come.
- Startup.Boot.Start: is the first load of a boot; a second one resolves its list again, which no longer is the configured one.
- Sha2.Sha2.Update: the compression function is a parameter.
- WebSocket.Read: bytes of an eight-byte length that are not read have arbitrary values, as the code does not set them.
- Base64.Decode: what a character from 128 on decodes to is left open, since it depends on whether the platform's characters are signed.
- Base64.DecodeStream: the same.
- Dispatcher.StepKeepsInvariant: starting and stopping do not overlap, since both change the list of threads without synchronisation; and only workers in the loop take events, although `trap` can be called from any thread.
- DispatcherSafety.NothingIsFinishedAfterStop: a thread outside the loop that has called `trap` is not counted as a worker, and may finish an event that it has taken before the stop.
- DispatcherSafety.TriggerQueuesUnlessStoppedBefore: is about a trigger that nothing interrupts; for any interleaving there are `DispatcherSafety.DroppedExactlyAtAFlag` and `DispatcherSafety.DroppedAtTheQueueExactlyAfterStop`.
- StreamSlots.StepKeepsInvariant: only holders release, erase and hand over; a stream is inserted while it is not in the set, and its handle is not used before that is done.
- The semantic value stack, error recovery after a syntax error (the error function throws), the `leave` mechanism, line counting, the scanner's marker and `readRaw`.
- The array index of the claim tokens for handles that were never given out; `stream_set::close` and destructors.
- `polling`: epoll registration, pending events, delegates and state callbacks; the handle that a stream caches for epoll keeps its first index.
- Critical sections of the map mutex are single steps; weak memory orders are not modelled.
- The lock-free queue is a linearizable FIFO that does not overflow.
- What happens to an event inside its handler; events that a handler triggers are those of another thread.
- Negative numbers of consumers.
- Configuration keys, plugin options, dynamic loading and plugin threads.
- Hexadecimal and byte rendering of digests, and reading files.
- The in-place string forms of the base64 functions, and `readsome` on streams that hold data back.
- HTTP, JSON text, MQTT, AMQP, Lua, Prolog, REST and database code: foreign calls and string assembly.
