# Verified models of Haisos

Haisos is a small operating system for agents: processes with descriptor tables, pipes, a filesystem
namespace, a shell with its arithmetic and builtins, and agents that talk to an LLM. This project models
the parts of it that carry state machines, loops or arithmetic, and proves what they promise.
`dafny verify dfyconfig.toml` checks everything.

**Pipes, stop tokens and descriptors.** `PipeBuffer` is one pipe's ring with its two ends and `StopToken` the
callback registry, each a class verified against functions on values (`ReadPass`, `WritePass`, `AddCallback`,
...). `PipeSystem` interleaves those same functions between any number of threads, pipes and tokens, one step
for every mutex taken, critical section, turn of a wait loop, wait and notification (spurious wake-ups
included). `PipeSync` and `PipeData` are what every step keeps; `PipeTheorems` says what follows in every
reachable state, and `PipeLaws` what one turn of Read and of Write does there. `Descriptors` is a process's
descriptor table and working directory, and `Holders` puts tables and references, counted as `shared_ptr` counts
them, above the pipe protocol; `PipeEnds` proves that an end is open just as long as somebody holds it.

**Shell arithmetic.** `Int64` are the wrapping operators, written on unsigned values as the source writes them,
with the laws that say which integer operation each one is. `ArithLexer` reads tokens, `ArithGrammar` has trees,
the precedence grammar and a recursive descent, `GrammarLaws` proves the descent a parser for the grammar,
`ArithEval` is the meaning of a tree, `ArithLaws` says in the integers' own terms what each operator and
assignment means, `PrecedenceLaws` how they group and `ArithTexts` what numbers, names and operators look like
and what a variable is worth, and `ArithParser` is the source's single pass over the tokens, which
evaluates while it parses, proved to do what parsing and then evaluating does. The loops of the ten levels of
binary operators differ only in their operators and are one method here, `ParseBinary`, given the level.

**The filesystem namespace.** `VirtualPath` are lexical paths, `MountPoints` the mount table, `Overlays` chains
of `ComposedFileSystem` against a table and the confinement of `SubFileSystem`. `InMemoryTree` are the
operations of an in-memory filesystem with builtins placed on it and nothing mounted on it, and
`InMemoryFileSystems` the object itself and its open files; `TreeLaws` says what each operation changes and when
it is refused. `MountableFileSystems` is what a filesystem with others mounted on it lists and finds, and
`WholeLaws` which answer comes first and of what kind.

**Text.** `Agents` is the conversation loop of an agent, with every outcome of the LLM, the tools, the console
and stop requests. `ShellQuoting` is the quoting of names against a reader of sections 2.2.1 to 2.2.4 of
POSIX.1-2024 Shell Command Language, `ReadBuiltin` the `read` builtin and `ReadLaws` what it makes of backslashes
and words, `Utf8` the decoder against RFC 3629, `UnicodeTables` display width with its tables, `HaisosTokens` the
readings of a haisosfile line, `HaisosLaws` what they mean, and `HaisosRun` the RUN directive and the order of
directives.

Where the result of a shell's `\000` is left open by POSIX, `QuotedNamesReadBack` takes both readings and says
when each gives the name back. A conversation stays well-formed with responses that are `Answerable`: the
documentation promises it for assistant responses of an agent that has a tool factory, and
`RoundKeepsIffAnswerable` says which other responses break it, an assistant's tool calls without a factory
among them. Overlay chains and mount tables differ where a later mount covers an earlier one; `ChainsAreTables`
is the exact condition. A listing served by a mount does not show the mounts inside that mount, so a mount
inside another may be found by Stat and not be listed: `ListingShowsWhatStatFinds` says where, and
`ShownUnlessInsideAnother` that only such mounts are concerned. A listing also shows what lies beneath a mount or a
builtin with its own kind, where Stat answers for the cover: `ListedKinds` is exact about that.

## Model

| member | source | states |
|---|---|---|
| PipeBuffers.PipeBuffer.ReadTurn | src/components/PipeService/Pipe.cpp:53-80 | one turn of Read on the ring: the bytes handed out, what stays buffered, and how the turn ends, on the abstract queue |
| PipeBuffers.PipeBuffer.WriteTurn | src/components/PipeService/Pipe.cpp:114-154 | one turn of Write on the ring: the bytes appended behind the newest, and how the turn ends |
| PipeBuffers.PipeBuffer.CloseReadEnd | src/components/PipeService/Pipe.cpp:166-176 | the read end goes and the buffered bytes with it |
| PipeBuffers.PipeBuffer.CloseWriteEnd | src/components/PipeService/Pipe.cpp:178-183 | only the write end goes |
| PipeBuffers.RingDrop | src/components/PipeService/Pipe.cpp:56-64 | moving the head on, wrapping, drops exactly the oldest bytes |
| PipeBuffers.RingAppend | src/components/PipeService/Pipe.cpp:131-139 | filling the cells behind the newest, wrapping, appends exactly those bytes |
| StopTokens.StopToken.Register | src/components/libheaders/StopToken.h:114-122 | registers under a new id, or not at all once a stop was requested |
| StopTokens.StopToken.Unregister | src/components/libheaders/StopToken.h:135-136 | takes just that callback out |
| StopTokens.StopToken.RequestStop | src/components/libheaders/StopToken.h:41-49 | the first request runs every registered callback once, in id order; later ones run none |
| PipeTheorems.NoLostWakeUp | src/components/PipeService/Pipe.cpp:51-80 | in every reachable state a thread parked without a notification has nothing to do, and its token is unsignalled or the RequestStop that set it is still to run this call's callback |
| PipeTheorems.StopReachesEveryCall | src/components/libheaders/StopToken.h:30-49 | after RequestStop no call with that token is parked |
| PipeTheorems.NeverBothParked | src/components/PipeService/Pipe.cpp:102-106 | a reader and a writer of one pipe are never both parked |
| PipeTheorems.LockWaitsAreShort | src/components/PipeService/Pipe.cpp:35-47 | chains of mutex waits end after two links, so there is no cycle |
| PipeTheorems.NoLockDeadlock | src/components/libheaders/StopToken.h:36-40 | from every thread under way and not parked, one that can go on is at most two owners away |
| PipeTheorems.CallbackRunsOnce | src/components/libheaders/StopToken.h:95-126 | a callback runs at most once, and exactly once if a stop is requested before or during its registered life |
| PipeTheorems.CallbackOutlivedByCall | src/components/libheaders/StopToken.h:128-137 | every callback registered or running belongs to a call that has not returned, and none runs inside its own destructor's critical section |
| PipeTheorems.FirstInFirstOut | src/components/PipeService/Pipe.cpp:31-164 | delivered bytes, then buffered bytes, are the committed bytes in order, for any number of readers and writers |
| PipeTheorems.WriteResultCountsCommitted | src/components/PipeService/Pipe.cpp:114-163 | a positive result counts exactly the prefix committed; a negative one means none was, and why |
| PipeTheorems.SmallWritesAreAtomic | src/components/PipeService/Pipe.cpp:102-106 | a write of at most min(4096, capacity) bytes is one contiguous run of the stream or nothing of it |
| PipeTheorems.ReadResultCountsDelivered | src/components/PipeService/Pipe.cpp:53-79 | a read hands out one run as long as its result; 0 means the write end is gone |
| PipeTheorems.EndOfFileIsTheEnd | src/components/PipeService/Pipe.cpp:69-74 | a turn of Read that ends in 0 comes after the last committed byte was delivered |
| PipeLaws.ReadTakesWhatThereIs | src/components/PipeService/Pipe.cpp:53-80 | in every reachable state a turn of Read takes all it asks for or all there is, stop or no stop; only an empty pipe ends the file, interrupts the read or makes it wait |
| PipeLaws.WritePutsInWhatFits | src/components/PipeService/Pipe.cpp:114-154 | a turn of Write puts in what fits as soon as there is room for all of a small write or for one byte of a large one, stop or no stop; only a pipe without that room interrupts it or makes it wait, and only one without a reader breaks it |
| PipeLaws.EmptyCallsReturnAtOnce | src/components/PipeService/Pipe.cpp:31-47 | a call of no bytes returns 0 at once, any other sets out for its token's mutex, or the pipe's without a token |
| PipeLaws.CloseClosesOneEnd | src/components/PipeService/Pipe.cpp:166-183 | closing an end closes that end only; what is buffered goes with the read end and stays without the write end |
| PipeSync.SyncReachable | src/components/PipeService/Pipe.cpp:42-81 | the synchronization invariant (who owns which mutex, what parked threads and registered callbacks mean) holds in every reachable state |
| PipeData.DataReachableIn | src/components/PipeService/Pipe.cpp:112-156 | the invariant on bytes, calls and results holds after any number of steps |
| Descriptors.NextFree | src/components/HaisosOS/ProcessFileIO.cpp:86-100 | the lowest free slot from a place on, none exactly when every slot below 1024 is taken |
| Descriptors.AddedLands | src/components/HaisosOS/ProcessFileIO.cpp:102-113 | a descriptor placed lands in the lowest free slot and no other slot changes; none placed means a full table |
| Descriptors.PipeLandsLowest | src/components/HaisosOS/ProcessFileIO.cpp:188-217 | a pipe's ends land in the two lowest free slots, the read end first, or the table is unchanged |
| Descriptors.DuppedLands | src/components/HaisosOS/ProcessFileIO.cpp:123-129 | a copy of what an open slot holds lands in the lowest free slot and no other slot changes; any other number changes nothing |
| Descriptors.Dupped2Lands | src/components/HaisosOS/ProcessFileIO.cpp:131-152 | Dup2 fails, changing nothing, exactly when the old number is not open or the new one is not among 0 to 1023; otherwise only the new slot changes, holds what the old one holds, and what it held is let go of, but nothing changes when both are one slot |
| Descriptors.ClosedFrees | src/components/HaisosOS/ProcessFileIO.cpp:154-166 | an open slot and no other is freed, and its reference let go of; any other number changes nothing |
| Descriptors.InstalledInOrder | src/components/HaisosOS/ProcessFileIO.cpp:168-186 | input, output and error fill slots 0, 1 and 2, exactly when there are all three and no slot is open |
| Descriptors.AllReleasedIs | src/components/HaisosOS/ProcessFileIO.cpp:219-226 | the table is empty and each of its references let go of once |
| Descriptors.Dupped2Balances | src/components/HaisosOS/ProcessFileIO.cpp:131-152 | Dup2 adds one reference, and lets go of exactly the one it evicts |
| Descriptors.ProcessFileIO.NextFreeSlotLocked | src/components/HaisosOS/ProcessFileIO.cpp:86-100 | the search loop finds that slot |
| Descriptors.ProcessFileIO.AddDescriptorLocked | src/components/HaisosOS/ProcessFileIO.cpp:102-113 | the table, number and released reference of placing a descriptor |
| Descriptors.ProcessFileIO.AddDescriptor | src/components/HaisosOS/ProcessFileIO.cpp:115-121 | the same, and nothing for no descriptor |
| Descriptors.ProcessFileIO.Dup | src/components/HaisosOS/ProcessFileIO.cpp:123-129 | the table and number of Dup |
| Descriptors.ProcessFileIO.Dup2 | src/components/HaisosOS/ProcessFileIO.cpp:131-152 | the table (grown if need be), number and evicted reference of Dup2 |
| Descriptors.ProcessFileIO.CloseDescriptor | src/components/HaisosOS/ProcessFileIO.cpp:154-166 | the slot is free and its reference let go of, or nothing changes |
| Descriptors.ProcessFileIO.InstallStandardStreams | src/components/HaisosOS/ProcessFileIO.cpp:168-186 | the streams are slots 0, 1 and 2 of an empty table, or nothing changes |
| Descriptors.ProcessFileIO.CreatePipe | src/components/HaisosOS/ProcessFileIO.cpp:188-217 | the table and slots of the two ends, or both ends released; nothing when the OS or its pipe service is gone |
| Descriptors.ProcessFileIO.ReleaseAllDescriptors | src/components/HaisosOS/ProcessFileIO.cpp:219-226 | the table is empty and every reference let go of |
| Descriptors.ProcessFileIO.ChangeDirectory | src/components/HaisosOS/ProcessFileIO.cpp:38-58 | the working directory is the normalized target if that is the root or a directory, else unchanged |
| Holders.ChangeBalances | src/components/HaisosOS/ProcessFileIO.cpp:102-226 | every table operation conserves references: what it takes and makes is in the table or let go of |
| Holders.MoveConserves | src/components/HaisosOS/ProcessFileIO.cpp:70-76 | no step of any thread changes how use counts and references agree |
| PipeEnds.UseCountsAreHolders | src/components/PipeService/Pipe.h:57-60 | in every reachable state a file's use count is the number of references in all tables and all threads' hands |
| PipeEnds.OpenWhileHeld | src/components/PipeService/Pipe.cpp:193-217 | a pipe's end is open exactly while some slot or thread holds it or the thread that dropped the last reference is closing it |
| PipeEnds.ReleasedForGood | src/components/HaisosOS/ProcessFileIO.cpp:102-226 | an end nobody holds can never be held again |
| PipeEnds.EndOfFileMeansNoWriter | src/components/PipeService/Pipe.cpp:69-74 | a Read of a positive count has returned 0 only when nobody holds the write end |
| PipeEnds.EndOfFileComesLast | src/components/PipeService/Pipe.cpp:53-74 | and then every committed byte has been delivered |
| PipeEnds.BrokenPipeMeansNoReader | src/components/PipeService/Pipe.cpp:114-120 | a Write has reported a broken pipe only when nobody holds the read end |
| PipeEnds.ParkedReaderHasWriter | src/components/PipeService/Pipe.cpp:69-80 | a reader left parked means that somebody holds the write end or is closing it |
| Int64.AdditionWraps | src/components/BuiltinCommands/commands/hsh/HshArithmetic.cpp:17-24 | +, - and unary - are the integer operations reduced to signed 64 bits, and ~ is -a - 1 |
| Int64.MultiplicationWraps | src/components/BuiltinCommands/commands/hsh/HshArithmetic.cpp:22 | * is the integer product reduced to signed 64 bits |
| Int64.BitwiseAt | src/components/BuiltinCommands/commands/hsh/HshArithmetic.cpp:206-208 | each bit of &, ^ and \| is the operator on the bits in its place |
| Int64.ShiftLeftWraps | src/components/BuiltinCommands/commands/hsh/HshArithmetic.cpp:27 | << multiplies by 2^(b mod 64) and wraps |
| Int64.ShiftRightFloors | src/components/BuiltinCommands/commands/hsh/HshArithmetic.cpp:28-34 | >> is the floor of the division by 2^(b mod 64), negative numbers included |
| Int64.DivisionIdentity | src/components/BuiltinCommands/commands/hsh/HshArithmetic.cpp:36-44 | quotient times divisor plus remainder is the dividend modulo 2^64, INTMAX_MIN / -1 included, and otherwise exactly |
| ArithLaws.ComputesOneValue | src/components/BuiltinCommands/commands/hsh/HshArithmetic.cpp:17-44 | the operators said in the integers' own terms (congruence modulo 2^64, bits, truncation towards zero, floor, order) relate no two operands to more than one value |
| ArithLexer.Tokenize | src/components/BuiltinCommands/commands/hsh/HshArithmetic.cpp:77-138 | the loop makes the tokens of the text, each as long as it goes |
| ArithLexer.EndIsLast | src/components/BuiltinCommands/commands/hsh/HshArithmetic.cpp:136-137 | End is the last token and stands nowhere else |
| ArithLexer.DecimalReadsBack | src/components/BuiltinCommands/commands/hsh/HshArithmetic.cpp:407-413 | a value written in decimal reads back through base-0 strtoimax as itself, whatever ends the numeral |
| ArithLexer.TokensReadBack | src/components/BuiltinCommands/commands/hsh/HshArithmetic.cpp:64-138 | any list of tokens, spelled with blanks after them, is read back as that list |
| ArithTexts.LongestNumeral | src/components/BuiltinCommands/commands/hsh/HshArithmetic.cpp:82-97 | what is read as a number is the longest C constant the text starts with: decimal, octal with a leading 0, or hexadecimal with 0x |
| ArithTexts.NumberTokenIs | src/components/BuiltinCommands/commands/hsh/HshArithmetic.cpp:64-98 | a token that starts with a digit is that numeral, its number cut to the largest intmax |
| ArithTexts.NameTokenIs | src/components/BuiltinCommands/commands/hsh/HshArithmetic.cpp:100-106 | a token that starts with a letter or _ is all the letters, digits and _ there |
| ArithTexts.OperatorTokenIs | src/components/BuiltinCommands/commands/hsh/HshArithmetic.cpp:107-135 | any other token is the longest of the 33 operators there, each as it is written, or one Invalid token |
| ArithTexts.BlanksAreSkipped | src/components/BuiltinCommands/commands/hsh/HshArithmetic.cpp:81 | blanks, tabs and newlines part tokens and are no part of any |
| ArithTexts.DigitsAre | src/components/BuiltinCommands/commands/hsh/HshArithmetic.cpp:64-67 | the sixteen digits, the letters in either case, and no other |
| ArithTexts.DigitsCount | src/components/BuiltinCommands/commands/hsh/HshArithmetic.cpp:64-67 | a digit is worth its value times the base to the number of digits behind it |
| ArithTexts.DecimalIsWritten | src/components/BuiltinCommands/commands/hsh/HshArithmetic.cpp:211 | a number is stored as a - if it is negative and then its decimal digits with no 0 in front but its own |
| GrammarLaws.NeverPastEnd | src/components/BuiltinCommands/commands/hsh/HshArithmetic.cpp:177-178 | the position never passes the End token, at whatever level and however the parse ends |
| GrammarLaws.TreeIsRead | src/components/BuiltinCommands/commands/hsh/HshArithmetic.cpp:184-399 | every tree of the precedence grammar is read back from its tokens by the descent |
| GrammarLaws.ParserForTheGrammar | src/components/BuiltinCommands/commands/hsh/HshArithmetic.cpp:145-149 | no syntax error is met exactly when some tree of the grammar yields the tokens, and that tree is then built |
| GrammarLaws.GrammarIsUnambiguous | src/components/BuiltinCommands/commands/hsh/HshArithmetic.cpp:184-399 | no two trees yield the same tokens |
| PrecedenceLaws.TighterGroupsFirst | src/components/BuiltinCommands/commands/hsh/HshArithmetic.cpp:235-351 | of two binary operators the one tighter in C groups first, and equally tight ones group to the left |
| PrecedenceLaws.UnaryGroupsFirst | src/components/BuiltinCommands/commands/hsh/HshArithmetic.cpp:353-361 | unary operators group before any binary one, and from the right |
| PrecedenceLaws.ConditionalGroupsLate | src/components/BuiltinCommands/commands/hsh/HshArithmetic.cpp:218-233 | ?: groups after every binary operator |
| PrecedenceLaws.ConditionalGroupsRight | src/components/BuiltinCommands/commands/hsh/HshArithmetic.cpp:218-233 | of two ?: the second is the first one's last operand, and one between ? and : its second |
| PrecedenceLaws.AssignmentGroupsLast | src/components/BuiltinCommands/commands/hsh/HshArithmetic.cpp:184-189 | assignments of all eleven kinds group last and to the right |
| PrecedenceLaws.BranchesMayAssign | src/components/BuiltinCommands/commands/hsh/HshArithmetic.cpp:218-233 | what is assigned may be a ?:, and an assignment may stand in either branch of one |
| ArithEval.SyntaxErrorsStand | src/components/BuiltinCommands/commands/hsh/HshArithmetic.cpp:159-161 | with a syntax error anywhere, in a branch not taken too, the evaluation fails |
| ArithEval.OnlyAssignedChange | src/components/BuiltinCommands/commands/hsh/HshArithmetic.cpp:211-212 | an evaluation sets no name it does not assign to and never a read-only one, whichever way it ends |
| ArithEval.AssignmentReadsBack | src/components/BuiltinCommands/commands/hsh/HshArithmetic.cpp:190-215 | what an assignment gives is what reading the name then gives |
| ArithLaws.BinaryMeans | src/components/BuiltinCommands/commands/hsh/HshArithmetic.cpp:235-351 | each of the eighteen binary operators computes, from its operands' values, the wrapped sum, difference, product, truncated quotient or remainder, shift, bits or truth value that is meant, or fails by zero; && and \|\| leave the right operand out exactly when the left one decides |
| ArithLaws.UnaryMeans | src/components/BuiltinCommands/commands/hsh/HshArithmetic.cpp:353-369 | unary - negates modulo 2^64, ~ is -a - 1, ! is 1 for 0 alone, + changes nothing |
| ArithLaws.LeafMeans | src/components/BuiltinCommands/commands/hsh/HshArithmetic.cpp:371-399 | a number is itself, parentheses are what they hold, and a name before an assignment operator is not read |
| ArithLaws.ConditionalMeans | src/components/BuiltinCommands/commands/hsh/HshArithmetic.cpp:218-233 | ?: is the branch the condition chooses; of the other one only a syntax error is met |
| ArithLaws.AssignmentMeans | src/components/BuiltinCommands/commands/hsh/HshArithmetic.cpp:184-216 | = sets the name to the right-hand side's value; each of the ten compound operators computes from the name's value as the right-hand side leaves it; nothing is set by an assignment that fails, and when it fails |
| ArithLaws.AssignedIsRead | src/components/BuiltinCommands/commands/hsh/HshArithmetic.cpp:190-215 | what an assignment evaluates to is what reading the name then gives |
| ArithTexts.VariableMeans | src/components/BuiltinCommands/commands/hsh/HshArithmetic.cpp:401-414 | an unset or empty variable is 0; any other is the number it writes, cut to intmax, exactly when it is white space, a sign or none, a numeral and blanks, up to its end or a NUL, and an error otherwise |
| ArithParser.SkippedTakesTheSameTokens | src/components/BuiltinCommands/commands/hsh/HshArithmetic.cpp:159-175 | a branch not taken takes the tokens it would take if evaluated without an error, and its value is that of its tree alone |
| ArithParser.SkippedReadsNothing | src/components/BuiltinCommands/commands/hsh/HshArithmetic.cpp:159-175 | it does the same from any two variable stores, a syntax error included, and sets nothing |
| ArithParser.ArithmeticParser.WithEvaluation | src/components/BuiltinCommands/commands/hsh/HshArithmetic.cpp:162-175 | parses with evaluation on or off and puts the flag back, on errors too |
| ArithParser.ArithmeticParser.ParseAssign | src/components/BuiltinCommands/commands/hsh/HshArithmetic.cpp:184-216 | does what parsing to a tree and then evaluating it does |
| ArithParser.ArithmeticParser.ParseConditional | src/components/BuiltinCommands/commands/hsh/HshArithmetic.cpp:218-233 | does what parsing to a tree and then evaluating it does |
| ArithParser.ArithmeticParser.ParseBinary | src/components/BuiltinCommands/commands/hsh/HshArithmetic.cpp:235-351 | does what parsing to a tree and then evaluating it does, at each of the ten binary levels |
| ArithParser.ArithmeticParser.ParseUnary | src/components/BuiltinCommands/commands/hsh/HshArithmetic.cpp:353-361 | does what parsing to a tree and then evaluating it does |
| ArithParser.ArithmeticParser.ParsePrimary | src/components/BuiltinCommands/commands/hsh/HshArithmetic.cpp:371-399 | does what parsing to a tree and then evaluating it does |
| ArithParser.ArithmeticParser.ReadVariable | src/components/BuiltinCommands/commands/hsh/HshArithmetic.cpp:401-414 | the variable's number, an error when its value is none, and 0 without a look when not evaluating |
| ArithParser.EvaluateArithmetic | src/components/BuiltinCommands/commands/hsh/HshArithmetic.cpp:436-438 | value, error and final variables are those of the text's tree evaluated from left to right |
| ArithParser.MeaningIsByTheGrammar | src/components/BuiltinCommands/commands/hsh/HshArithmetic.cpp:145-149 | a text the grammar reads means what its one tree evaluates to; any other text fails |
| ArithParser.WrittenExpressionMeansItself | src/components/BuiltinCommands/commands/hsh/HshArithmetic.cpp:436-438 | a tree of the grammar, written out with blanks, evaluates as the tree |
| VirtualPath.AppendVirtualPathSegments | src/components/Filesystem/VirtualPath.h:26-50 | the loop walks the pieces of the path onto the segments, and tells exactly when some first pieces climb above their start |
| VirtualPath.NormalizeVirtualPath | src/components/Filesystem/VirtualPath.h:67-82 | the rendered segments the path resolves to |
| VirtualPath.EachPieceLeads | src/components/Filesystem/VirtualPath.h:26-82 | from a normalized directory ".." leads to its parent, a name to that name in it, "." and nothing to itself; an absolute path leaves the directory aside |
| VirtualPath.ClimbingIsNoticed | src/components/Filesystem/VirtualPath.h:21-50 | a climb is reported exactly when some first pieces of the path hold more ".." than names and the segments it started with |
| VirtualPath.NormalizeIsIdempotent | src/components/Filesystem/VirtualPath.h:61-82 | normalizing again, from anywhere, changes nothing |
| VirtualPath.RenderInjective | src/components/Filesystem/VirtualPath.h:75-81 | different segments have different normalized paths |
| VirtualPath.SplitJoins | src/components/Filesystem/VirtualPath.h:26-50 | splitting a + "/" + b is splitting b on top of a |
| VirtualPath.WorkingDirectoryComposes | src/components/HaisosOS/ProcessFileIO.cpp:34-58 | `cd a` then relative `cd b` lands where `cd a/b` does, for non-empty a |
| VirtualPath.RelativeIs | src/components/Filesystem/VirtualPath.h:88-97 | RelativeToBase gives the rest of the path exactly when the base is the path or above it |
| VirtualPath.ParentIs | src/components/Filesystem/VirtualPath.h:99-109 | parent and last segment are all segments but the last, and the last |
| MountPoints.AtOrUnderIs | src/components/Filesystem/MountPoints.cpp:10-19 | the text comparison holds exactly when the mount point's segments start the path's |
| MountPoints.MountPoints.Mount | src/components/Filesystem/MountPoints.cpp:23-42 | the table with the filesystem at the normalized path, replacing what was there |
| MountPoints.MountPoints.Unmount | src/components/Filesystem/MountPoints.cpp:44-51 | the table without exactly that path |
| MountPoints.MountPoints.Resolve | src/components/Filesystem/MountPoints.cpp:58-71 | the mount on the longest mounted ancestor of the path, with the rest of the path |
| MountPoints.RouteSplitsPath | src/components/Filesystem/MountPoints.cpp:58-71 | mount point joined with inner path gives back the path |
| MountPoints.InnermostIsLongest | src/components/Filesystem/MountPoints.cpp:39-71 | the mount a path is routed to is the one on its longest mounted ancestor, whatever other mounts there are |
| Overlays.ChainIs | src/components/Filesystem/ComposedFileSystem.cpp:14-59 | a chain of overlays sends a path to the last mount made at or above it |
| Overlays.ChainsAreTables | src/components/Filesystem/ComposedFileSystem.cpp:14-59 | a chain and one table with the same mounts in the same order route every path alike exactly when no mount point is covered by a later one above it |
| Overlays.CoveredChainDiffers | src/components/Filesystem/MountPoints.cpp:39-41 | at a covered mount point the chain goes to the covering mount and the table to the mount itself |
| Overlays.SubPathsAreConfined | src/components/Filesystem/SubFileSystem.cpp:18-24 | every path is resolved at or under the base, and RelativeToBase undoes it |
| Overlays.SubPathsCompose | src/components/Filesystem/SubFileSystem.cpp:18-24 | a sub-path of a sub-path is a sub-path |
| MountPoints.MountPoints.ChildSegments | src/components/Filesystem/MountPoints.cpp:73-90 | the next segments from a directory towards the mounts below it, each once |
| MountPoints.MountPoints.AnyBelow | src/components/Filesystem/MountPoints.cpp:92-101 | whether a mount lies below a directory, which is what the latest time is there for |
| MountableFileSystems.ListingShowsWhatStatFinds | src/components/Filesystem/MountableFileSystem.cpp:141-216 | given that of the filesystems beneath, a name is listed just when Stat finds it, except at mount points inside another mount that has nothing there |
| MountableFileSystems.WholeAgreesUnlessHidden | src/components/Filesystem/MountableFileSystem.cpp:141-216 | so a filesystem with mounts is again one whose listings and Stat agree exactly when it hides no mount point |
| MountableFileSystems.InMemoryAgrees | src/components/Filesystem/InMemoryFileSystem.cpp:220-266 | an in-memory filesystem is one whose listings and Stat agree |
| MountableFileSystems.ShownUnlessLeftOut | src/components/Filesystem/MountableFileSystem.cpp:144-157 | every listing on the way down to a mount shows the next segment exactly when no mounted filesystem on that way leaves it out |
| MountableFileSystems.EveryMountIsShown | src/components/Filesystem/MountableFileSystem.cpp:144-157 | whatever the filesystems hold, exactly when a builtin stands wherever a mount serves the way |
| MountableFileSystems.ShownUnlessInsideAnother | src/components/Filesystem/MountableFileSystem.cpp:149-151 | without builtins, exactly when no mount lies inside another |
| MountableFileSystems.MountableFileSystem.ReadDirectory | src/components/Filesystem/MountableFileSystem.cpp:141-179 | the entries beneath, the mounts below, the builtins, no name added twice, and the dots first |
| MountableFileSystems.MountableFileSystem.PutDotEntriesFirst | src/components/Filesystem/MountableFileSystem.cpp:165-179 | the dots first and once, or nothing for what lists nothing and is no directory |
| MountableFileSystems.MountableFileSystem.StatIsDirectory | src/components/Filesystem/MountableFileSystem.cpp:181-216 | builtins first, then the mount on the way, then what is beneath, then the way to a mount |
| MountableFileSystems.MountableFileSystem.AddBuiltinCommand | src/components/Filesystem/MountableFileSystem.cpp:218-225 | the builtins with one more at a normalized path, or none changed: at the root, without a name, where one is, or on a filesystem that holds none |
| WholeLaws.StatIs | src/components/Filesystem/MountableFileSystem.cpp:181-216 | Stat finds a builtin first, as a file, then what the innermost mount answers, then what is underneath, then a directory for what only leads to a mount |
| WholeLaws.ListedKinds | src/components/Filesystem/MountableFileSystem.cpp:141-216 | an entry of a listing has the kind Stat finds for its path, unless a builtin or a mount covers what is listed: then Stat finds a file or a directory, whatever the entry says |
| WholeLaws.DotsComeFirst | src/components/Filesystem/MountableFileSystem.cpp:165-179 | "." and ".." stand first, once, as directories, and the other entries as they stood |
| InMemoryTree.OperationKeepsTree | src/components/Filesystem/InMemoryFileSystem.cpp:97-218 | every operation keeps the root, keeps every node and builtin in a directory, and puts no node at a builtin's path |
| InMemoryTree.EveryRunIsATree | src/components/Filesystem/InMemoryFileSystem.cpp:97-218 | so does every sequence of operations |
| InMemoryTree.AncestorsExist | src/components/Filesystem/MountableFileSystem.cpp:114-126 | every directory above a node or a builtin exists |
| InMemoryTree.NothingUnderBuiltins | src/components/Filesystem/MountableFileSystem.cpp:102-112 | nothing lies under a builtin or a file |
| InMemoryTree.BuiltinsPin | src/components/Filesystem/MountableFileSystem.cpp:114-139 | while a builtin is placed, no removal takes it or a directory above it |
| InMemoryTree.OverwrittenIs | src/components/Filesystem/InMemoryFileSystem.cpp:146-170 | a write puts its bytes where it says, zeros in a gap, and leaves all other bytes; a write of none past the end grows the file |
| InMemoryTree.WriteReadsBack | src/components/Filesystem/InMemoryFileSystem.cpp:128-170 | what is written reads back from there, an appending write adds to the end, and no other file changes |
| TreeLaws.OpeningIs | src/components/Filesystem/InMemoryFileSystem.cpp:97-126 | an open is refused exactly for a builtin asked for writing, a directory, and what is missing without create or a parent directory, and then changes nothing; a file keeps its bytes unless truncated, a new one is empty, and nothing else changes |
| TreeLaws.CreationIs | src/components/Filesystem/InMemoryFileSystem.cpp:172-185 | a directory is made exactly where nothing is and the parent is a directory, and nothing else changes |
| TreeLaws.RemovalIs | src/components/Filesystem/InMemoryFileSystem.cpp:187-203 | a directory goes exactly when it is not the root and neither a node nor a builtin is in it, and nothing else with it |
| TreeLaws.FileRemovalIs | src/components/Filesystem/InMemoryFileSystem.cpp:205-218 | only a file goes by RemoveFile, and nothing else with it |
| TreeLaws.PlacingIs | src/components/BuiltinCommands/BuiltinConfigurator.cpp:27-66 | a builtin is placed exactly where nothing is in a directory, under some name, and taken away exactly when it is there |
| TreeLaws.PlacingIsUndone | src/components/Filesystem/MountableFileSystem.cpp:218-234 | taking a builtin away again leaves the tree as it was |
| TreeLaws.CreatingIsUndone | src/components/Filesystem/InMemoryFileSystem.cpp:97-218 | removing what was just made leaves the tree as it was |
| TreeLaws.ReadingIs | src/components/Filesystem/InMemoryFileSystem.cpp:128-144 | a read gives the file's bytes from the position on, all that were asked for unless the file ends, and moves the position by them |
| TreeLaws.ReadsFollowOn | src/components/Filesystem/InMemoryFileSystem.cpp:128-144 | two reads in a row give what one of both counts gives |
| TreeLaws.WritingIs | src/components/Filesystem/InMemoryFileSystem.cpp:146-170 | a write fails, changing nothing, exactly when the file is gone or would end past 2^64 - 1; otherwise its bytes stand at the position or the end, zeros fill a gap, every other byte stays, and the position is behind them |
| InMemoryFileSystems.InMemoryFileSystem.OpenFile | src/components/Filesystem/InMemoryFileSystem.cpp:97-126 | the tree and the file of an open, builtins first |
| InMemoryFileSystems.InMemoryFileSystem.CreateDirectory | src/components/Filesystem/InMemoryFileSystem.cpp:172-185 | the tree and result of creating a directory |
| InMemoryFileSystems.InMemoryFileSystem.RemoveDirectory | src/components/Filesystem/InMemoryFileSystem.cpp:187-203 | the tree and result of removing one: only an empty one that no builtin pins |
| InMemoryFileSystems.InMemoryFileSystem.RemoveFile | src/components/Filesystem/InMemoryFileSystem.cpp:205-218 | the tree and result of removing a file |
| InMemoryFileSystems.InMemoryFileSystem.PlaceBuiltin | src/components/BuiltinCommands/BuiltinConfigurator.cpp:27-66 | a builtin goes only into an existing directory, at a path where nothing is |
| InMemoryFileSystems.InMemoryFileSystem.ReadDirectory | src/components/Filesystem/MountableFileSystem.cpp:141-179 | a listing is ".", "..", then exactly the children, builtins included, once each; empty for what is no directory |
| InMemoryFileSystems.InMemoryFileDescriptor.Read | src/components/Filesystem/InMemoryFileSystem.cpp:41-46 | reads whatever node is at the path by then, from the descriptor's position |
| InMemoryFileSystems.InMemoryFileDescriptor.Write | src/components/Filesystem/InMemoryFileSystem.cpp:48-53 | writes it, at the end when appending, and moves the position |
| Agents.WellFormedIs | src/components/Agent/Agent.cpp:364-366 | a history counts as well-formed exactly when every assistant message is followed by one result for each of its calls, in order, with its name and id, and no result stands anywhere else |
| Agents.RoundKeepsIffAnswerable | src/components/Agent/Agent.cpp:560-583 | a round leaves a well-formed conversation so exactly when its response is answerable |
| Agents.Agent.ExecuteToolCalls | src/components/Agent/Agent.cpp:302-404 | one result for each tool call, in order and with its id, unless an exception leaves the loop; each result holds what its tool gave or why none was run, the stop flag being looked at for each call that may run one |
| Agents.NothingRunsOnceStopped | src/components/Agent/Agent.cpp:364-371 | once the stop flag stays on, no further tool runs |
| Agents.ToolResultReaches | src/components/Agent/Agent.cpp:377-390 | what a tool gives reaches the LLM whole, between two marks, as the error or success it was; the tool is the one named, run with the call's arguments, and one that throws or is not there gives an error |
| Agents.RunsExactlyWhen | src/components/Agent/Agent.cpp:337-371 | a call runs its tool exactly when it names one, its arguments are an object or null, and no stop was requested |
| Agents.CallIsRead | src/components/Agent/Agent.cpp:310-344 | name and arguments are where the call has them or under "function" when that is an object, arguments in a string are parsed, and what is missing or of another type is empty |
| Agents.NoObjectNamesNothing | src/components/Agent/Agent.cpp:22-42 | what is no JSON object names no tool and runs none |
| Agents.Agent.TakeResponse | src/components/Agent/Agent.cpp:560-587 | the response and then the results of its tool calls go into the history, which stays a conversation even when an exception cuts it short |
| Agents.Agent.ProcessCommand | src/components/Agent/Agent.cpp:495-589 | at most 20 LLM calls, each on a well-formed conversation and another only after one that asked for tools; without an exception the command is failed exactly when an error response was among them or the cap cut it short |
| Agents.Agent.AnswerUnansweredToolCalls | src/components/Agent/Agent.cpp:621-652 | each call left open by a failed command gets an error that says why, and the conversation is well-formed, nothing in it changed |
| Agents.Agent.OnCommandFailed | src/components/Agent/Agent.cpp:591-619 | a failed command leaves a well-formed conversation, the console failing too |
| Agents.Agent.HandleCommand | src/components/Agent/Agent.cpp:453-459 | a command goes in whole and, failed or not, ends with a well-formed conversation |
| Agents.Agent.RunThread | src/components/Agent/Agent.cpp:417-465 | the system prompts and then every command that is not empty go in whole and in order, only the first when the agent is not interactive; whatever fails, every LLM call and the end of every command see a well-formed conversation |
| ShellQuoting.ShellEscapeQuoted | src/components/BuiltinCommands/BuiltinCommand.cpp:388-431 | the form chosen for the name, and the text of the general form's loop |
| ShellQuoting.QuotedForms | src/components/BuiltinCommands/BuiltinCommand.cpp:388-402 | a name a shell reads as it stands is written bare unless quotes are asked for; others stand between single quotes, between double ones when they hold a single quote and nothing those do not protect, or take the general form |
| ShellQuoting.GeneralFormIs | src/components/BuiltinCommands/BuiltinCommand.cpp:403-430 | in the general form bytes stand for themselves and a quote is taken out of the quotes and escaped |
| ShellQuoting.RunOfControlsIs | src/components/BuiltinCommands/BuiltinCommand.cpp:407-420 | a run of control bytes is taken out into one $'...', the quotes opening again only when more follows |
| ShellQuoting.EscapesAre | src/components/BuiltinCommands/BuiltinCommand.cpp:367-384 | control bytes 7 to 13 are letters, the others three octal digits |
| ShellQuoting.QuotedNamesReadBack | src/components/BuiltinCommands/BuiltinCommand.cpp:388-431 | what is written is read by a POSIX shell as one word, the name; where the shell drops \000, exactly when the name holds no NUL |
| ReadBuiltin.ReadLine | src/components/BuiltinCommands/commands/hsh/HshBuiltinRead.cpp:80-114 | takes exactly the bytes up to and including the first newline not escaped by a backslash |
| ReadLaws.BackslashesProtect | src/components/BuiltinCommands/commands/hsh/HshBuiltinRead.cpp:94-113 | a byte stays, and may split the line, by whether an odd number of backslashes stands right before it: an escaped byte never splits, an escaped newline and the escaping backslash are dropped |
| ReadLaws.EscapedLineReadsBack | src/components/BuiltinCommands/commands/hsh/HshBuiltinRead.cpp:94-168 | a line with a backslash before every byte is one value, whatever IFS is |
| ReadBuiltin.SplitLine | src/components/BuiltinCommands/commands/hsh/HshBuiltinRead.cpp:127-168 | the values are the fields and the last value of the line's tiling |
| ReadBuiltin.TilingOfTiles | src/components/BuiltinCommands/commands/hsh/HshBuiltinRead.cpp:17-32 | the line is leading white space, fields without IFS bytes each followed by one delimiter event, the last value, trailing white space |
| ReadBuiltin.TilingIsUnique | src/components/BuiltinCommands/commands/hsh/HshBuiltinRead.cpp:17-32 | there is only one such tiling |
| ReadLaws.WordsAreRead | src/components/BuiltinCommands/commands/hsh/HshBuiltinRead.cpp:116-168 | words with a delimiter between each two, IFS characters with at most one that is no blank, are read into as many names word by word, empty ones too where no blanks merge |
| Utf8.DecodeUtf8 | src/components/Unicode/Unicode.cpp:15-68 | Ok with the scalar value whose encoding starts the data and its length, Incomplete of length 0 when the data is a proper prefix of an encoding, Invalid of length 1 when neither holds of any |
| Utf8.EncodingsArePrefixFree | src/components/Unicode/Unicode.cpp:21-24 | no encoding starts another, so the three answers exclude one another |
| Utf8.EncodingIsLaidOut | src/components/Unicode/Unicode.cpp:21-48 | an encoding is the shortest form, and the bits after its marks are the code point's |
| UnicodeTables.InRanges | src/components/Unicode/UnicodeTables.cpp:122-134 | true exactly when some range of a sorted table holds the code point |
| UnicodeTables.TablesAreSorted | src/components/Unicode/UnicodeTables.cpp:5-120 | both tables are in order and without overlaps |
| UnicodeTables.PrintableIs | src/components/Unicode/Unicode.cpp:70-107 | not printable are control codes, the two separators, surrogates, what is no character and what lies past U+10FFFF, and nothing else |
| UnicodeTables.DisplayWidth | src/components/Unicode/Unicode.cpp:109-117 | -1 for what is not printable, 0 for what lies in a zero-width range, else 2 for what lies in a wide one, else 1 |
| HaisosTokens.StripComment | src/haisos/HaisosFileParser.cpp:31-45 | the line up to its comment, quoted tokens skipped |
| HaisosTokens.Substitute | src/haisos/HaisosFileParser.cpp:52-76 | the text with its references replaced, and the first unknown name |
| HaisosTokens.SplitTokens | src/haisos/HaisosFileParser.cpp:109-141 | the tokens, or which quoting error was met and where |
| HaisosLaws.StrippedIsUpToComment | src/haisos/HaisosFileParser.cpp:27-45 | what is left is all of the line up to the first # that starts a token outside quotes |
| HaisosLaws.EveryTextIsWritten | src/haisos/HaisosFileParser.cpp:48-76 | every text is literal pieces and closed references in turn |
| HaisosLaws.SubstitutionReplaces | src/haisos/HaisosFileParser.cpp:48-76 | such a text becomes the pieces with the references' values between them; the first unknown name is told, none when all are known |
| HaisosLaws.SplitsAsWords | src/haisos/HaisosFileParser.cpp:101-141 | a text has given tokens exactly when it is those tokens, bare or in quotes, with blanks between them |
| HaisosLaws.SplitFailsAtBrokenQuotes | src/haisos/HaisosFileParser.cpp:101-141 | a text has no tokens exactly when it is words, blanks and then a quote that is never closed or has text right after it; that text is told, and which of the two |
| HaisosLaws.ClassesAre | src/haisos/HaisosFileParser.cpp:10-25 | which characters part tokens, quote them, and are trimmed |
| HaisosLaws.TrimTakesBothEnds | src/haisos/HaisosFileParser.cpp:10-17 | trimming takes the white space off both ends and nothing else |
| HaisosTokens.CanBeQuoted | src/haisos/HaisosFileParser.cpp:101-108 | a token can be written in quotes exactly when it does not hold both kinds |
| HaisosTokens.QuotedTokensReadBack | src/haisos/HaisosFileParser.cpp:10-141 | tokens written in quotes, with blanks between them and any comment after, are read back as they are |
| HaisosRun.ParseRun | src/haisos/HaisosFileParser.cpp:444-479 | the entry of a RUN line or why there is none; its program is an absolute path |
| HaisosRun.RunIs | src/haisos/HaisosFileParser.cpp:444-479 | an unknown name, broken quotes, no program and a program that is not absolute fail in this order; otherwise the first token -i is the option and the next the program |
| HaisosRun.KeyAndRest | src/haisos/HaisosFileParser.cpp:264-266 | a line is its word, one blank, and the rest with its ends trimmed |
| HaisosRun.RunReadsBack | src/haisos/HaisosFileParser.cpp:259-266 | program and arguments written as a RUN line, -i or not and any comment after, are read back as that entry |
| HaisosRun.CheckOrder | src/haisos/HaisosFileParser.cpp:268-283 | the first directive with one before it that forbids it, or none when there is no such pair |

## Left out

- The wait loops of Read and Write as code: `PipeBuffer` verifies one turn, `PipeSystem` goes round, parks and wakes.
- Logging, file times, device numbers, block and link counts, the count of open pipes and wrap-around of the callback ids.
- StopTokenScope: a call's token is given with it.
- Making a pipe is modelled as taking the next of the pipes the protocol starts with, which nobody holds before; threads and tokens likewise exist from the start.
- Holders.Move: a thread may keep a reference it is done with; the theorems hold whether and whenever it drops it.
- ArithLexer.StrToIMax is a specification of the C library's function; where a runtime reads nothing of "0x" and reports no progress, the source's own fallback gives the same value and length.
- The expression text inside arithmetic error messages.
- ReadBuiltin.ReadLine: a read interrupted by a stop request ends the shell, and what it leaves of the input is not modelled; a read error is the end of the input, as in the source.
- Options and prompt of `read`, the assignment of its values, and every other builtin.
- MountPoints.MountPoints.AnyBelow: does not give the latest mount time, because times are not modelled; only whether there is one.
- Opening, creating and removing through mounts: each is passed on along the route `MountPoints.Resolve` gives, once the filesystem's own builtins have had their say; `InMemoryTree` has no mounts.
- MountableFileSystems.Whole: filesystems underneath and mounted are what they answer, and do not change during a listing.
- MountPoints.SortLongestFirst: stands for std::sort by its contract; any order of equally long paths is allowed.
- Placing a builtin on an in-memory filesystem directly, without the configurator's checks.
- Windows paths, host filesystems, HTTP, consoles and process start and end.
- What is written to an agent's console and message buffer, child agents and the finished hook.
- ShellQuoting.Read: the escapes \c and \x of section 2.2.4, which are never written, are not read.
- The rest of a haisosfile: the other directives, file contents, and the wording of errors.
- The white space classes of Unicode.
