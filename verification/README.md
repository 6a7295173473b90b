# Roxal, modelled and proved in Dafny

Roxal is a language front end, a bytecode format and a runtime. This project models eleven of its
mechanisms and proves what they promise. Everything is checked by the Dafny verifier alone
(`dafny verify dfyconfig.toml`).

**Printing and parsing expressions** (`Expr*.dfy`). The expression printer and the recursive-descent
reader of the visitor chain, on tokens. `Reparse` says for *every* tree what its printed text is read
as, or that it is rejected; from that follows exactly which trees come back unchanged (`Canonical`).
The header's promise that parsing a printed tree gives the tree (`compiler/AstPrinter.h:20`) is false
of the code for a chained equality, a chained comparison and a few more shapes. Concrete trees show
it, and the iff theorem says when it holds. One print and one read settle any tree: what has been
read once is read the same for ever.

**String interpolation** (`Interp*.dfy`). The scanner that splits a string into literal runs and
placeholders, with the byte offsets and every error it reports; the placeholder texts it can close, as
a grammar; and the printer of such strings. The scanner closes a placeholder exactly after the texts
of the grammar. A list of parts comes back exactly when it is tidy: a literal `}}` is printed bare and
read as `}`, so such runs do not come back. Placeholders are given by their source text.

**Embedded runs** (`Embedded*.dfy`). The ownership protocol of `EmbeddedRuntime`: one driver,
submitters, finalizers, cancellers, exit requests and shutdown, interleaved at every lock region and
atomic. An invariant over all reachable states gives the promises of its header, and how a run ended
is traced to the steps that reported it. The classes in
`EmbeddedRuntime.dfy` carry out the same regions in place. In the model, the driver is the one latched
thread; the check for an active run and the claim are one step; what a slice reports and whether hooks
throw is arbitrary; a thread that waits holds no lease on the runtime until it is woken; shutdown
begins only when no `driveFor` call and no leased call is in flight.

**C structs** (`Ffi*.dfy`). Static and accumulated alignments, marshalling and unmarshalling of structs
nested in structs and arrays. The writers and readers of `FfiMarshaller.dfy` and `FfiReader.dfy` keep
buffer, offset and alignment as the code does; they are proved equal to `PutObject` and `GetObject`,
about which the round trip and the layout are proved. The static alignment does not look into a
struct member without an annotation (`compiler/FFI.cpp:1142`), so a struct around such a member can be
given too little. `LayoutIffHonest` says exactly which types are laid out as in C, and
`HiddenStructHasAnotherSize` shows types that are not. 64-bit integers are written and never read.
Multi-byte numbers are stored with the least significant byte first.

**File operations** (`File*.dfy`). A file tree and a disk on which every system call may fail. `seen`
has every state the disk goes through, so atomicity and "no data is lost" are statements about all of
them. Existing targets, refusals and their codes are those of the code. On a `reliable` disk calls
fail only for what the tree forbids; there success and each refusal come exactly when they should.

**Loading on import** (`Lazy*.dfy`). Any number of threads load modules whose scripts import others;
each region under the registry lock is a step, and a module's mutex is held across steps. A script may
import any of its possible imports, in any order and number, and may throw.

**Type dependencies** (`Type*.dfy`). The search for all types a remote actor needs, through a heap of
types and functions that may be cyclic. `RootRefs`, `TypeRefs`, `FunctionRefs` and `InfoRefs` list the
references an object has, in the order the code follows them; `TypeReferences.dfy` says which they are.

**Pruning** (`TreePruning.dfy`). Removal of damaged declarations from a parse tree.

**Calls** (`CallBinding*.dfy`, `CallSpecCode.dfy`). How arguments find parameters, and the bytes of a
call's shape.

**Compute messages** (`WireBytes.dfy`, `ComputeWire.dfy`). Numbers, strings, frames, output events,
value lists and remote calls, written at one end and read at the other.

**Asynchronous file operations** (`Async*.dfy`). Clients queue operations, one worker runs them in
batches, and shutdown drains or abandons the rest. A client's call is two steps where the code takes
two locks. Submissions after shutdown has begun are not part of the model.

Where the code and a comment differ, the model follows the code:

- An absent or nil element of an array of structs is written as a new instance of the element type,
  with that type's initial values; the comment at `compiler/FFI.cpp:1382` says zero-filled, and the one
  at `compiler/FFI.cpp:1366` that out-parameters rely on it. `AbsentStructsAreZeroIff` says when
  the bytes are zeros and when the whole write is refused instead; `AbsentElementIsFive` and
  `AbsentElementIsRefused` show types for which they are not. Absent scalars are zeros
  (`AbsentScalarsAreZero`).
- In a call, a leading positional argument takes a place a named one has already taken, with or without
  a variadic parameter. `AllBoundIff` says when no argument is lost; `NamedArgumentIsOverwritten` and
  `NamedArgumentIsOverwrittenInOrder` show calls.
- After a load that threw, a load whose factory returns nothing hands out the earlier, half-loaded
  instance, although the header says that a load returns the loaded module. `LoadedIffNotNulled` says
  exactly which results are loaded.
- When two client threads share a file, the single worker can come to wait for an operation queued
  behind the one it is running.

## Model

| member | source | states |
|---|---|---|
| ExprVisitors.VisitLeftLevel | compiler/ASTGenerator.cpp:2350-2378 | a left-associative level folds its links to the left |
| ExprVisitors.VisitEquality | compiler/ASTGenerator.cpp:2489-2526 | every link is given the first operand again: only the last link survives |
| ExprVisitors.LeftLevelIsFold | compiler/ASTGenerator.cpp:2561-2606 | the reader of a level is the grammar's repetition followed by the left fold; both fail together |
| ExprVisitors.EqualityLevelKeepsEnds | compiler/ASTGenerator.cpp:2489-2526 | on the equality level the reader keeps the first operand and the last link |
| ExprPrecedence.ThreeOperandsAreGrouped | compiler/Roxal.g4:449-503 | of any three operands and two operators the tighter operator, by the rules of the grammar, takes the operands next to it, and otherwise the left one; two comparisons are rejected, two equalities lose the middle operand |
| ExprPrecedence.ProductIsTighterThanSum | compiler/ASTGenerator.cpp:2561-2610 | a + b * c is a + (b * c) |
| ExprPrecedence.PrefixIsOperand | compiler/ASTGenerator.cpp:2662-2760 | a prefix operator takes the operand next to it before any operator between operands |
| ExprPrecedence.FoldIsOpposite | compiler/ASTGenerator.cpp:2662-2760 | folding a sign or a `not` into a constant gives the opposite value; only the least 64-bit number is refused |
| ExprPrecedence.KeywordNamesArgument | compiler/ASTGenerator.cpp:2975-2985 | an argument may be named `for` or `when` |
| ExprRoundTrip.ReadUnary | compiler/ASTGenerator.cpp:2662-2760 | a printed unary is read back with its sign or `not` folded into a literal operand, and as a unary otherwise |
| ExprRoundTrip.ReadNum | compiler/AstPrinter.cpp:780-799 | a printed number is read back at the width a reader gives it, the least 64-bit one included |
| ExprRoundTrip.ReadArgument | compiler/ASTGenerator.cpp:2975-2993 | a printed argument is read back, named or positional; a positional one that begins `name =` is taken as named |
| ExprRoundTrip.ReadAssignOnto | compiler/ASTGenerator.cpp:2295-2347 | an assignment whose target was printed without parentheses is regrouped to the right |
| ExprRoundTrip.PrintedTextIsRead | compiler/AstPrinter.cpp:848-1080 | for every tree: the printed tokens are read as the tree Reparse gives, all of them, or are rejected when it gives none |
| ExprRoundTrip.FixedIffCanonical | compiler/ASTGenerator.cpp:2489-2553 | what a printed tree is read as is the tree itself exactly for canonical trees |
| ExprRoundTrip.RoundTripIffCanonical | compiler/AstPrinter.h:20 | parse(print(tree)) is tree exactly when the tree is canonical |
| ExprRoundTrip.ReparseShrinks | compiler/ASTGenerator.cpp:2295-2760 | no printed tree is read as a larger one |
| ExprRoundTrip.ReparseSettles | compiler/AstPrinter.h:20 | whatever is read back is canonical |
| ExprRoundTrip.SecondRoundTripIsExact | compiler/AstPrinter.h:20 | a tree that came from a printed text is printed and read back exactly |
| ExprRoundTrip.LexName | compiler/AstPrinter.cpp:99-142 | a printed name is read as that name exactly when it is a printer keyword or no reserved word |
| ExprRoundTrip.LeftNestedEqualityIsLost | compiler/ASTGenerator.cpp:2497-2504 | `(a == b) != c` is printed bare and comes back as `a != c` |
| ExprRoundTrip.LeftNestedComparisonIsRejected | compiler/ASTGenerator.cpp:2534-2553 | `(a < b) < c` is printed bare and rejected |
| ExprRoundTrip.LeftNestedAssignmentRegroups | compiler/AstPrinter.cpp:854-860 | `(a = b) = c` comes back as `a = (b = c)` |
| ExprRoundTrip.BareAssertIsRejected | compiler/AstPrinter.cpp:99-142 | a variable named assert is printed without backticks and rejected |
| ExprRoundTrip.LeastInt64Survives | compiler/ASTGenerator.cpp:2666-2751 | -2^63 survives although its digits alone are out of range |
| InterpScanner.SkipQuoted | compiler/ASTGenerator.cpp:3687-3701 | the loop over a nested string literal finds its closing quote, or none on the line |
| InterpScanner.CloseHole | compiler/ASTGenerator.cpp:3674-3729 | the loop over a placeholder stops where FindClose says: at the closing brace, at the end, or at the first error with its offset |
| InterpScanner.ReadHole | compiler/ASTGenerator.cpp:3673-3740 | a placeholder yields its segment after the run before it, or one of the errors |
| InterpScanner.ScanInterpolation | compiler/ASTGenerator.cpp:3610-3745 | the loop terminates on every input and yields the segments, their offsets, or the first error |
| InterpScanner.HolesAreWhereTheySay | compiler/ASTGenerator.cpp:3735-3740 | every placeholder segment lies in the content at its offset, between braces |
| InterpScanner.InsideHole | compiler/ASTGenerator.cpp:3680-3729 | which characters open, close or end a placeholder, and which error each other end is |
| InterpHoles.BalancedIsClosed | compiler/ASTGenerator.cpp:3680-3729 | the scanner closes a placeholder after any text of the grammar: brackets of any kind balanced, quoted text skipped, no colon at the top level, no comment, one line |
| InterpHoles.TokensOf | compiler/ASTGenerator.cpp:3680-3729 | whatever the scanner closes is a text of the grammar |
| InterpHoles.HoleClosesIffInGrammar | compiler/ASTGenerator.cpp:3680-3733 | a text before a closing brace is taken as one placeholder exactly when it is in the grammar |
| InterpRoundTrip.PrintText | compiler/AstPrinter.cpp:967-977 | the loop over a literal run appends its escaped text |
| InterpRoundTrip.PrintContent | compiler/AstPrinter.cpp:963-986 | the loop over the parts prints runs escaped and placeholders in braces, spaced before a brace |
| InterpRoundTrip.BuildInterpolation | compiler/ASTGenerator.cpp:4002-4056 | the loops over the segments build the parts or a plain string, or report a bad escape |
| InterpRoundTrip.CollapseKeepsIff | compiler/ASTGenerator.cpp:3658-3663 | reading doubled closing braces as one changes a text exactly when it has some |
| InterpRoundTrip.TextScanned | compiler/ASTGenerator.cpp:3630-3671 | a printed run is gathered with its braces bare and its other escapes in place |
| InterpRoundTrip.RawRoundTrip | compiler/ASTGenerator.cpp:3546-3554 | unescaping the gathered run gives the text |
| InterpRoundTrip.PrintedIsWritten | compiler/AstPrinter.cpp:967-977 | a printed run stays on one line and inside its quotes, and opens no placeholder |
| InterpRoundTrip.EscapesStandFor | compiler/ASTGenerator.cpp:3546-3554 | what each escape stands for |
| InterpRoundTrip.PrintedPartsAreRead | compiler/AstPrinter.cpp:961-991 | for every list of parts with usable placeholders: what is read back, runs merged, empty ones gone, doubled closing braces single |
| InterpRoundTrip.PartsComeBackIff | compiler/AstPrinter.h:20 | parts come back as they were exactly when they are tidy and their placeholders usable |
| InterpRoundTrip.SecondReadIsExactIff | compiler/ASTGenerator.cpp:4002-4056 | what was built from any content comes back from its printed form exactly when none of its runs still has doubled closing braces |
| InterpRoundTrip.ClosingBracesAreHalved | compiler/ASTGenerator.cpp:3658-3663 | a run of four closing braces is read as two, and printed and read again as one |
| InterpRoundTrip.BuiltPartsAreGood | compiler/ASTGenerator.cpp:4002-4056 | built parts have usable placeholders that begin with no brace, no empty run and no run after another |
| EmbeddedRuntimeObjects.RunControl.ExchangeClaim | compiler/EmbeddedRuntime.cpp:351-363 | the claim is taken by the first caller only |
| EmbeddedRuntimeObjects.EmbeddedRuntime.Submit | compiler/EmbeddedRuntime.cpp:66-110 | the submit region in place; the program leaves the caller only on acceptance |
| EmbeddedRuntimeObjects.EmbeddedRuntime.ClaimPendingRun | compiler/EmbeddedRuntime.cpp:112-137 | the first claimer becomes the driver; only it moves the pending record |
| EmbeddedRuntimeObjects.EmbeddedRuntime.BeginSlice | compiler/EmbeddedRuntime.cpp:161-175 | the driver enters a slice of its own active run only |
| EmbeddedRuntimeObjects.EmbeddedRuntime.EndSlice | compiler/EmbeddedRuntime.cpp:179-183 | the slice flag falls, nothing else |
| EmbeddedRuntimeObjects.EmbeddedRuntime.HandOver | compiler/EmbeddedRuntime.cpp:198-202 | the record moves from the active to the finalizing slot |
| EmbeddedRuntimeObjects.EmbeddedRuntime.CancelBeforeStart | compiler/EmbeddedRuntime.cpp:227-253 | only a pending run is cancelled and its record handed out |
| EmbeddedRuntimeObjects.EmbeddedRuntime.RequestExit | compiler/EmbeddedRuntime.cpp:255-312 | the exit code goes to the active run; a pending one is to be withdrawn |
| EmbeddedRuntimeObjects.EmbeddedRuntime.TakeForFinalizing | compiler/EmbeddedRuntime.cpp:367-374 | the winner empties the finalizing slot of its own record |
| EmbeddedRuntimeObjects.EmbeddedRuntime.CancelPendingForShutdown | compiler/EmbeddedRuntime.cpp:443-475 | all three slots are emptied and their runs cancelled |
| EmbeddedState.ShutdownInOrder | compiler/EmbeddedRuntime.cpp:443-475 | emptying the slots one after the other is the shutdown region |
| EmbeddedInvariant.StepInv | compiler/EmbeddedRuntime.cpp:66-475 | every lock region and atomic step of every thread keeps the invariant |
| EmbeddedInvariant.ReachableInv | compiler/EmbeddedRuntime.cpp:66-475 | every reachable state satisfies it |
| EmbeddedTheorems.RunsOnlyAdvance | compiler/EmbeddedRuntime.h:47-57 | over any continuation of any run ranks never fall, terminal states stay, and failure is settled once pending |
| EmbeddedTheorems.NoRecordIsOverwritten | compiler/EmbeddedRuntime.cpp:134-201 | at most one slot is occupied in every reachable state, so no move overwrites a record |
| EmbeddedTheorems.SubmitDecides | compiler/EmbeddedRuntime.cpp:66-110 | a submission is accepted exactly when nothing is live, a refused one changes nothing, and which refusal it gets |
| EmbeddedTheorems.RecordsAreConserved | compiler/EmbeddedRuntime.cpp:66-402 | an accepted record is in a slot, or held by the one call that will release it, or released, and that once |
| EmbeddedTheorems.PendingIsHandedOver | compiler/EmbeddedRuntime.cpp:185-225 | a run seen as FinalizationPending has its record in the finalizing slot or claimed, its driver out of the slice and its failure final |
| EmbeddedTheorems.WinnerFindsTheRecord | compiler/EmbeddedRuntime.cpp:365-374 | the call that won the claim finds the record |
| EmbeddedTheorems.WinnerFinishes | compiler/EmbeddedRuntime.cpp:351-402 | a winner left alone publishes Failed if its run has failed or a hook throws, and Completed otherwise |
| EmbeddedTheorems.LosersAreReleased | compiler/EmbeddedRuntime.cpp:351-402 | a losing call can wake now, or after the steps its winner still has |
| EmbeddedTheorems.ShutdownSettlesEverything | compiler/EmbeddedRuntime.cpp:443-475 | after shutdown every accepted run is terminal and its record released |
| EmbeddedTheorems.HooksMatchOutcome | compiler/EmbeddedRuntime.cpp:376-402 | hooks run at most once, never for a cancelled run, once for a finished one |
| EmbeddedOutcome.FinishedAsReported | compiler/EmbeddedRuntime.cpp:376-398 | in every execution a finished run is Failed exactly when the slice that ended it, or a hook of its finalization, reported failure, and Completed when neither did |
| EmbeddedOutcome.FailureIsAsReported | compiler/EmbeddedRuntime.cpp:204-215 | from the moment a run can be finalized its control says how its execution ended |
| EmbeddedTheorems.SliceDecides | compiler/EmbeddedRuntime.cpp:185-225 | what a host sees after a slice: a pause exactly when it paused, a returned body, and no end before the record has changed hands |
| EmbeddedTheorems.CancelDecides | compiler/EmbeddedRuntime.cpp:227-253 | a run is withdrawn exactly while no driver has claimed it; otherwise the status says where it is and nothing changes |
| EmbeddedTheorems.ExitRequestDecides | compiler/EmbeddedRuntime.cpp:255-275 | a running run is left the exit code, a queued one is to be withdrawn, any other is left alone |
| EmbeddedTheorems.WithdrawDecides | compiler/EmbeddedRuntime.cpp:281-289 | a run to be withdrawn is cancelled, or if the driver has come first, the request is tried again |
| EmbeddedTheorems.RetryDecides | compiler/EmbeddedRuntime.cpp:290-297 | and then the running run is left the code |
| EmbeddedTheorems.WaitersWakeIff | compiler/EmbeddedRuntime.cpp:513-520 | a waiting call can wake exactly when its run is not queued, running or being finalized |
| EmbeddedTheorems.DriverIsLatched | compiler/EmbeddedRuntime.cpp:112-137 | the first thread that claims is the driver, and no other takes runs |
| FfiLayout.ComputeStructAlign | compiler/FFI.cpp:1167-1173 | the loop over the members gives the strictest static alignment |
| FfiLayout.PadIsFormula | compiler/FFI.cpp:1281 | the code's padding formula is the distance to the first multiple of the alignment that is not below the offset |
| FfiLayout.StaticAlignIffSeen | compiler/FFI.cpp:1124-1173 | the static alignment is the C one exactly when it looks into one of the strictest members |
| FfiLayout.HiddenAlignment | compiler/FFI.cpp:1142 | a struct member without annotation hides an alignment of 8 |
| FfiMarshaller.Writer.Append | compiler/FFI.cpp:1280-1287 | padding and data are appended; offset and alignment follow |
| FfiMarshaller.Writer.WriteScalar | compiler/FFI.cpp:1289-1300 | a scalar by its C type, or refused |
| FfiMarshaller.Writer.WriteScalars | compiler/FFI.cpp:1397-1402 | the loop over an array, filled up with zeros |
| FfiMarshaller.Writer.WriteField | compiler/FFI.cpp:1266-1475 | a member of any kind, or refused |
| FfiMarshaller.Writer.WriteStruct | compiler/FFI.cpp:1201-1232 | a struct between its leading and trailing padding |
| FfiMarshaller.Writer.WriteFields | compiler/FFI.cpp:1214-1226 | the loop over the members |
| FfiMarshaller.Writer.WriteStructs | compiler/FFI.cpp:1371-1395 | the loop over an array of structs |
| FfiMarshaller.ObjectToCStruct | compiler/FFI.cpp:1636-1679 | the bytes of an instance, or refused |
| FfiReader.Reader.ReadScalar | compiler/FFI.cpp:1482-1569 | a scalar at the next aligned offset, if the buffer reaches and there is a reader |
| FfiReader.Reader.ReadScalars | compiler/FFI.cpp:1602-1613 | the loop over an array |
| FfiReader.Reader.ReadField | compiler/FFI.cpp:1477-1634 | a member of any kind |
| FfiReader.Reader.ReadStruct | compiler/FFI.cpp:1234-1262 | a struct between its paddings, if the buffer reaches |
| FfiReader.Reader.ReadFields | compiler/FFI.cpp:1250-1254 | the loop over the members |
| FfiReader.Reader.ReadStructs | compiler/FFI.cpp:1584-1600 | the loop over an array of structs |
| FfiReader.ObjectFromCStruct | compiler/FFI.cpp:1681-1710 | an instance from its bytes, or refused |
| FfiMarshal.LeRoundTrip | compiler/FFI.cpp:1280-1300 | the bytes of a number give it back |
| FfiFits.SizeIsTheNames | compiler/FFI.cpp:1289-1300 | each C type takes as many bytes as its name tells |
| FfiFits.ScalarIsWrittenIff | compiler/FFI.cpp:1289-1300 | which kinds of value each C type takes, annotated or not |
| FfiFits.StoredIsRepresented | compiler/FFI.cpp:1280-1300 | the last bytes written are the number the value stands for, reduced to as many bytes |
| FfiFits.ReadIsWrittenBack | compiler/FFI.cpp:1556-1569 | any number read gives a value that is written as that number again; any but zero is true |
| FfiRoundTrip.FieldAppends | compiler/FFI.cpp:1266-1475 | writing a member only appends, keeps buffer and offset in step, and ends where the type alone says |
| FfiRoundTrip.ScalarComesBackReduced | compiler/FFI.cpp:1289-1300 | a stored scalar is read as the value reduced to the member's width |
| FfiRoundTrip.ReduceKeepsWhatFits | compiler/FFI.cpp:1556-1569 | reduction leaves exactly the values that fit |
| FfiRoundTrip.StructsReadBack | compiler/FFI.cpp:1371-1395 | arrays of structs come back element by element, absent ones as initial instances |
| FfiRoundTrip.ObjectReadsBack | compiler/FFI.cpp:1636-1710 | an instance written and read, from those bytes or any longer buffer, has every member reduced to width and every array filled |
| FfiFits.UnchangedIffFits | compiler/FFI.cpp:1636-1710 | an instance whose members all fit is written; without 64-bit integers an instance comes back as it was exactly when its members all fit |
| FfiRoundTrip.SizeIsTheTypes | compiler/FFI.cpp:1636-1679 | all instances of a type take the same number of bytes |
| FfiRoundTrip.ReaderSucceedsIff | compiler/FFI.cpp:1681-1710 | any buffer is read as an instance of any type exactly when it is at least as long as the type and no 64-bit integer is anywhere inside |
| FfiRoundTrip.WrittenIsReadIff | compiler/FFI.cpp:1556-1569 | what was written of an instance can be read back exactly when its type has no 64-bit integer inside |
| FfiRoundTrip.Int64HasNoReader | compiler/FFI.cpp:1292-1293 | an instance with one 64-bit member is written, and its bytes are refused by the reader |
| FfiZeroFill.WrittenIff | compiler/FFI.cpp:1266-1475 | whether a value can be written for a member depends on the two alone: its numbers convert, its lists are not too long, and what they leave out can be written as initial values |
| FfiZeroFill.ZeroedIff | compiler/FFI.cpp:1266-1475 | a written value is all zeros, padding included, exactly when every number stored for it is zero |
| FfiZeroFill.AbsentScalarsAreZero | compiler/FFI.cpp:1397-1402 | the scalars a list does not give are always written, as zeros |
| FfiZeroFill.AbsentStructsAreZeroIff | compiler/FFI.cpp:1377-1386 | the structs a list does not give are written exactly when the type's initial values can be, and are zeros exactly when these are all stored as zero |
| FfiZeroFill.ObjectIsZeroIff | compiler/FFI.cpp:1636-1679 | an instance has bytes exactly when its values can be written, and they are all zeros exactly when these are all stored as zero |
| FfiZeroFill.AbsentElementIsFive | compiler/FFI.cpp:1380-1386 | with a 32-bit member that is 5 at first, an empty list for an array of one struct is written as 5, 0, 0, 0 |
| FfiZeroFill.AbsentElementIsRefused | compiler/FFI.cpp:1380-1386 | with a struct member that is nil at first, an empty list for an array of one struct is refused |
| FfiOffsets.FieldLaidOut | compiler/FFI.cpp:1266-1475 | a member whose struct types are honest starts at the lowest aligned offset after its predecessor and takes its C size; the accumulated alignment is the C one |
| FfiOffsets.StructLaidOut | compiler/FFI.cpp:1201-1232 | an honest struct is placed and sized as in C, from any offset |
| FfiOffsets.StructsLaidOut | compiler/FFI.cpp:1371-1395 | array elements lie back to back |
| FfiOffsets.ObjectHasCSize | compiler/FFI.cpp:1636-1679 | an instance takes as many bytes as sizeof says |
| FfiOffsets.MemberIsAtItsOffset | compiler/FFI.cpp:1636-1679 | each member's reduced value is found in the bytes at the member's C offset |
| FfiOffsets.LayoutIffHonest | compiler/FFI.cpp:1124-1232 | a struct type and all inside it are laid out as in C from every offset exactly when each has a strictest member that the static alignment looks into |
| FfiOffsets.HiddenStructHasAnotherSize | compiler/FFI.cpp:1124-1173 | behind k bytes, an array of one struct that hides a scalar of n > k bytes is written as 2n + k bytes where C has 2n: 17 for 16 with one byte and a double |
| FfiOffsets.HiddenIsWritten | compiler/FFI.cpp:1371-1395 | such an instance is written, not refused |
| FileTree.InsideIffProperPrefix | compiler/FileOps.cpp:139-147 | the test on the path texts holds exactly when one path's components are a proper prefix of the other's |
| FileTree.MovedWellFormed | compiler/FileOps.cpp:149-166 | renaming a directory leaves a well-formed tree |
| FileTree.DirMoved | compiler/FileOps.cpp:149-166 | all below it moves along unchanged and nothing else changes |
| FileOps.Disk.WriteAll | compiler/FileOps.cpp:219-231 | all data is written in pieces, or a part of it; only that file changes on the way |
| FileOps.Disk.CopyContents | compiler/FileOps.cpp:261-276 | the read and write loop copies a file to its end, or fails |
| FileOps.Disk.WriteFileAtomically | compiler/FileOps.cpp:599-633 | at every moment the target is wholly old or wholly new; a failure leaves the old and, if it can be removed, no temporary; success changes the target alone and keeps its mode if that was set; a disk that refuses nothing possible gives success, or EISDIR for a directory |
| FileOps.Disk.CopyFileDirect | compiler/FileOps.cpp:279-291 | a file is copied to where nothing was; only the target changes |
| FileOps.Disk.CopyFileViaTemp | compiler/FileOps.cpp:295-317 | the same all-or-nothing promise for a copy |
| FileOps.Disk.RemoveTree | compiler/FileOps.cpp:339-358 | a tree is gone, or less of it is left and nothing new; nothing outside changes; gone if the disk refuses nothing possible |
| FileOps.Disk.CopyTreeContents | compiler/FileOps.cpp:369-388 | all entries are copied below the target; nothing outside it changes |
| FileOps.Disk.CopyTree | compiler/FileOps.cpp:392-402 | a complete copy or, if clean-up succeeds, the tree as it was; an existing target is never touched |
| FileOps.Disk.MoveByCopy | compiler/FileOps.cpp:407-425 | in every state the source is intact or the copy complete; success moves |
| FileOps.Disk.RawRename | compiler/FileOps.cpp:149-166 | one atomic state change, or none |
| FileOps.Disk.Rename | compiler/FileOps.cpp:519-556 | no state of a move loses the data or touches anything else; without `replace` an existing target is safe; each refusal has its code, changes nothing and, on a disk that refuses nothing possible, comes exactly when it should, success otherwise |
| FileOps.Disk.Copy | compiler/FileOps.cpp:558-579 | a complete copy, or nothing changed once cleaned up; a failure leaves an existing target as it was, and in every state on the way only the target, what is below it and the temporary differ; refusals and success as for a move, `recurse` included |
| LazyModuleRegistryObject.LazyModuleRegistry.FirstLook | compiler/LazyModuleRegistry.cpp:26-34 | the look without the mutex |
| LazyModuleRegistryObject.LazyModuleRegistry.TryLock | compiler/LazyModuleRegistry.cpp:36-49 | the module's mutex is got exactly when it is free |
| LazyModuleRegistryObject.LazyModuleRegistry.SecondLook | compiler/LazyModuleRegistry.cpp:51-59 | the double check under the mutex |
| LazyModuleRegistryObject.LazyModuleRegistry.StoreInstance | compiler/LazyModuleRegistry.cpp:100-110 | what the factory made is stored before the script runs |
| LazyModuleRegistryObject.LazyModuleRegistry.MarkLoaded | compiler/LazyModuleRegistry.cpp:135-140 | the module becomes loaded |
| LazyModuleRegistryObject.LazyModuleRegistry.FetchResult | compiler/LazyModuleRegistry.cpp:66-71 | the result is fetched and the mutex given back |
| LazyModuleRegistryObject.LazyModuleRegistry.Unwind | compiler/LazyModuleRegistry.cpp:49-64 | an exception gives the mutex back |
| LazyRegistry.StepKeeps | compiler/LazyModuleRegistry.cpp:22-140 | every step of any thread keeps locks, stacks, entries and results consistent |
| LazyRegistryTheorems.LoadedIsFinal | compiler/LazyModuleRegistry.cpp:135-140 | a loaded module keeps its instance for ever |
| LazyRegistryTheorems.CallersShareTheInstance | compiler/LazyModuleRegistry.h:37-40 | two results for a module, one of them of a call that saw no factory return nothing, are the same instance exactly when the other call saw none either |
| LazyRegistryTheorems.LoadedIffNotNulled | compiler/LazyModuleRegistry.cpp:22-72 | in every reachable state an instance once returned is the one its module is loaded with exactly when the call did not see the factory return nothing |
| LazyRegistryTheorems.FetchedIsLoadedIff | compiler/LazyModuleRegistry.cpp:66-71 | when a call fetches its result the module is loaded exactly when its factory did not return nothing |
| LazyRegistryTheorems.CreatedOnce | compiler/LazyModuleRegistry.h:37-40 | a module no load of which failed is created at most once, and every result is that instance, loaded |
| LazyRegistryTheorems.ResultsAreExplained | compiler/LazyModuleRegistry.cpp:22-72 | nothing is returned for a module that is not registered, and otherwise only when the factory returned nothing; a call throws only for a module a load of which has failed |
| LazyRegistryTheorems.HalfLoadedIsReturned | compiler/LazyModuleRegistry.cpp:66-71 | a run in which a load that threw is followed by one whose factory returns nothing, and an instance that is not loaded is returned |
| LazyRegistryTheorems.RunnableIff | compiler/LazyModuleRegistry.cpp:22-72 | a thread can go on with its call exactly when it does not wait for a held mutex |
| LazyRegistryTheorems.SomeoneGoesOn | compiler/LazyModuleRegistry.cpp:22-72 | with acyclic imports, following who holds what ends at a thread that can go on |
| LazyRegistryTheorems.CycleIsEntered | compiler/LazyModuleRegistry.cpp:46-49 | a cycle of imports leads a single thread to wait for itself |
| LazyRegistryTheorems.DeadlockFreeIffAcyclic | compiler/LazyModuleRegistry.cpp:46-64 | no reachable state is deadlocked exactly when registered modules do not import in a cycle |
| TypeDependencies.FindOwningExport | compiler/ComputeConnection.cpp:272-299 | the loops find the first export of a type in a module that is not builtin |
| TypeDependencies.ExportedIff | compiler/ComputeConnection.cpp:272-299 | there is one exactly when such a module exports the type |
| TypeDependencies.Collector.CollectType | compiler/ComputeConnection.cpp:379-416 | a type is recorded once with its export, and its references searched, or a reachable trouble is found |
| TypeDependencies.Collector.CollectFunction | compiler/ComputeConnection.cpp:350-377 | a function is visited once and its references searched |
| TypeDependencies.Collector.CollectAll | compiler/ComputeConnection.cpp:306-416 | references are followed in order; what is new is reachable, exported, and has its own references seen |
| TypeDependencies.SearchIsComplete | compiler/ComputeConnection.cpp:262-454 | a search that succeeds has seen all that is reachable and nothing else |
| TypeReferences.InfoRefsIff | compiler/ComputeConnection.cpp:306-348 | a type expression refers to exactly what the names in it, at any depth, stand for in the module |
| TypeReferences.TypeRefsIff | compiler/ComputeConnection.cpp:397-416 | a type refers to its supertype, the types and owners of its properties, and the owners and functions of its methods |
| TypeReferences.FunctionRefsIff | compiler/ComputeConnection.cpp:350-377 | a function refers to the types its signature names, its owner, the functions and types among its constants and the functions of its defaults |
| TypeReferences.RootRefsIff | compiler/ComputeConnection.cpp:418-454 | the search starts from the actor's supertype, the types of its properties, the functions of its methods and what their modules export |
| TypeReferences.ModuleExportsIff | compiler/ComputeConnection.cpp:418-454 | a module that is not builtin exports exactly the types in its export list |
| TypeDependencies.CollectRemoteTypeDependencies | compiler/ComputeConnection.cpp:262-454 | on any graph: it fails exactly when something reachable is not exported or not resolved; otherwise each reachable type is returned once, never the actor type |
| TreePruning.PruneDeclarationList | compiler/ASTGenerator.cpp:405-429 | the loop that erases children while it walks them |
| TreePruning.SubtreeClean | compiler/ASTGenerator.cpp:431-447 | the verdict on a subtree, with the suites pruned that came before it |
| TreePruning.CleanIsIntact | compiler/ASTGenerator.cpp:405-447 | the verdict is whether the pruned tree has no error leaf and no failed rule; only error leaves and declarations in lists have gone |
| TreePruning.CleanIsGreatest | compiler/ASTGenerator.cpp:405-447 | any intact pruning of the tree is a pruning of what is left |
| TreePruning.PrunerIsBest | compiler/ASTGenerator.cpp:393-401 | the tree can be made intact exactly when the pruner says so, and then as little as possible goes |
| TreePruning.IntactIsLeft | compiler/ASTGenerator.cpp:393-401 | an intact tree is unchanged |
| TreePruning.PruningTwice | compiler/ASTGenerator.cpp:405-447 | pruning again changes nothing, clean or not |
| TreePruning.DamagedChild | compiler/ASTGenerator.cpp:405-429 | a damaged declaration or import goes, a stray error leaf goes, and any other damaged child spoils the list |
| CallBinding.CheckRequired | compiler/Chunk.cpp:647-664 | the loop over the parameters reports one without value and default, or accepts |
| CallBinding.FirstLackingIsReported | compiler/Chunk.cpp:647-664 | a parameter is reported exactly when it lacks a value and none before it does; the call is accepted exactly when none does |
| CallBindingTheorems.NamedRefusals | compiler/Chunk.cpp:711-816 | a call with named arguments is accepted exactly when its names are known and, without a variadic parameter, neither too many nor late positional arguments are there; which refusal comes first |
| CallBindingTheorems.MissingIff | compiler/Chunk.cpp:647-664 | the first parameter that lacks a value refuses a call that is accepted otherwise |
| CallBindingTheorems.NamedGoToTheirs | compiler/Chunk.cpp:711-816 | a named argument goes to the first parameter of its name, and positional ones keep their order |
| CallBindingTheorems.CollectsIff | compiler/Chunk.cpp:818-824 | the variadic parameter collects exactly when some positional argument has no parameter of its own |
| CallBindingTheorems.InOrderGoToTheirs | compiler/Chunk.cpp:684-703 | with positional arguments only each parameter has the one in its place or none, and the rest is collected |
| CallBinding.FindParam | compiler/Chunk.cpp:720-733 | the first parameter before a variadic one with the same fifteen bits of name |
| CallBinding.BindInOrder | compiler/Chunk.cpp:667-710 | positional arguments in order, as far as eight bits keep their index; the rest not supplied or collected |
| CallBinding.BindNamed | compiler/Chunk.cpp:735-752 | each parameter has the last argument that names it; an unknown name is refused |
| CallBinding.FindGap | compiler/Chunk.cpp:755-761 | the first regular parameter that nobody is marked as naming |
| CallBinding.BindPositional | compiler/Chunk.cpp:763-816 | where leading and late positional arguments go, or which refusal comes first |
| CallBinding.ParamPositions | compiler/Chunk.cpp:641-831 | the positions for a call, or the refusal; one with positional arguments only is accepted exactly when they are not more than the parameters or the last is variadic |
| CallBindingTheorems.AcceptedIsBinding | compiler/Chunk.h:275-282 | one entry per parameter; arguments appear once; only a variadic last parameter collects |
| CallBindingTheorems.NamedReachesIff | compiler/Chunk.cpp:735-816 | a named argument is bound exactly when no leading argument fills its parameter and no later one names it |
| CallBindingTheorems.AllBoundIff | compiler/Chunk.cpp:711-816 | every argument of an accepted call is bound exactly when each named one stands alone |
| CallBindingTheorems.NamesApart | compiler/Chunk.cpp:720-733 | names that differ in fifteen bits never stand for one parameter, while indices fit eight bits |
| CallBindingTheorems.InOrderIsExactIff | compiler/Chunk.cpp:684-686 | each positional argument fills the parameter in its place exactly when no more than 128 do |
| CallBindingTheorems.NamedArgumentIsOverwritten | compiler/Chunk.cpp:780-790 | an accepted call that loses its named argument |
| CallBindingTheorems.NamedArgumentIsOverwrittenInOrder | compiler/Chunk.cpp:796-800 | the same without a variadic parameter |
| CallSpecCode.EncodeSpec | compiler/Chunk.cpp:592-621 | the loop writes the bytes of a call's shape, its count cut to seven bits; only a call with positional arguments alone is refused above 127 |
| CallSpecCode.DecodeSpec | compiler/Chunk.cpp:551-573 | the loop reads a call's shape and moves past it |
| CallSpecCode.SpecComesBackIff | compiler/Chunk.cpp:551-621 | decoding takes exactly the encoded bytes and gives the shape back, exactly for at most 127 arguments |
| CallSpecCode.ShapesInBytes | compiler/Chunk.cpp:592-621 | the bytes of two calls, one with a named argument |
| CallSpecCode.StoredBindsTheSame | compiler/Chunk.cpp:641-831 | the shape that comes back gives the same binding or the same refusal for every callee |
| WireBytes.WriteU32 | compiler/ComputeProtocol.h:59-64 | four bytes, most significant first |
| WireBytes.ReadU64 | compiler/ComputeProtocol.h:110-117 | the loop over eight bytes, if they are there |
| WireBytes.NumberReadIff | compiler/ComputeProtocol.h:59-117 | a number is read exactly where its bytes lie |
| WireBytes.WrittenAsDigits | compiler/ComputeProtocol.h:59-82 | a number is written as its digits to the base 256, the most significant one first |
| WireBytes.StringReadIff | compiler/ComputeProtocol.h:84-126 | a string is read exactly where its length and bytes lie |
| ComputeWire.SourceReadIff | compiler/ComputeProtocol.h:137-176 | the same for a source location |
| ComputeWire.EventReadIff | compiler/ComputeProtocol.h:128-179 | an output event is read exactly where the encoding of that valid event lies, and takes those bytes |
| ComputeWire.EventsInRange | compiler/ComputeProtocol.h:144-179 | the kinds, severities, presentations and channel lengths that are taken: three, seven, two, and 1 to 128 bytes |
| ComputeWire.FrameReadIff | compiler/ComputeServer.cpp:127-140 | a frame is read exactly where its encoding lies |
| ComputeWire.ReadFrames | compiler/ComputeServer.cpp:127-140 | a stream is read as a sequence of frames exactly when it is the encoding of that sequence |
| ComputeWire.SerializeValues | compiler/ComputeConnection.cpp:704-715 | the loop writes a value list |
| ComputeWire.DeserializeValues | compiler/ComputeServer.cpp:174-189 | the loop reads a value list |
| ComputeWire.ValuesComeBack | compiler/ComputeConnection.cpp:704-733 | the values come back in order |
| ComputeWire.CallComesBack | compiler/ComputeServer.cpp:760-776 | the server reads the id, actor, method and argument bytes the client wrote, and a shape that binds the same arguments |
| AsyncIOManagerObject.AsyncIOManager.TrackFuture | compiler/AsyncIOManager.cpp:158-175 | the first half of a submission, with any futures there are to wait for |
| AsyncIOManagerObject.AsyncIOManager.PushOp | compiler/AsyncIOManager.cpp:177-181 | the second half, under the other lock |
| AsyncIOManagerObject.AsyncIOManager.TakePending | compiler/AsyncIOManager.cpp:186-226 | resolved futures are forgotten; the others get an operation that waits for them |
| AsyncIOManagerObject.AsyncIOManager.SpliceBatch | compiler/AsyncIOManager.cpp:274-288 | everything queued becomes the batch |
| AsyncIOManagerObject.AsyncIOManager.RunNext | compiler/AsyncIOManager.cpp:301-383 | one operation is given up past the deadline, or runs once its futures are there |
| AsyncIOManagerObject.AsyncIOManager.AbandonRest | compiler/AsyncIOManager.cpp:352-374 | everything still queued is resolved as given up, in order |
| AsyncQueue.StepKeepsOrdered | compiler/AsyncIOManager.cpp:158-374 | every step keeps resolved, batch and queue together the sequence of what was queued |
| AsyncQueue.EachResolvedOnce | compiler/AsyncIOManager.cpp:260-374 | over every run no future is resolved twice, futures are resolved in queue order, and none is left at the end |
| AsyncQueueTheorems.GetPendingKeepsWaits | compiler/AsyncIOManager.cpp:186-226 | while no two clients share a file, what a new operation waits for is already queued |
| AsyncQueueTheorems.HeadIsReady | compiler/AsyncIOManager.cpp:376-383 | then everything the next operation waits for is resolved |
| AsyncQueueTheorems.PendingIsComplete | compiler/AsyncIOManager.cpp:158-226 | whoever asks gets an operation that waits for everything outstanding on the file and nothing resolved or on another; none only if nothing is outstanding |
| AsyncQueueTheorems.NeverBlocksIffExclusive | compiler/AsyncIOManager.cpp:171-235 | the worker never waits for work behind it exactly when no two clients share a file |
| AsyncQueueTheorems.StopDrains | compiler/AsyncIOManager.h:101-107 | after a stop every run has a bounded number of steps, and until everything queued is resolved some step of the worker is enabled, before the deadline as well as after it |
| AsyncQueueTheorems.WorkerAdvances | compiler/AsyncIOManager.cpp:274-374 | every step of the worker lowers a measure, and after a stop there are no other steps |
| AsyncQueueTheorems.FilesHoldWrites | compiler/AsyncIOManager.cpp:470-524 | at every moment of every run from the start a file holds its first contents and then the data of the writes executed on it up to its close, in queue order |

## Left out

- RoundTripIffCanonical: expressions of names, numbers, booleans, nil, unary and binary operators, accessors, calls, indices and assignments; the `at` clause, ranges, lists, dictionaries, vectors, matrices, strings, reals, suffixed literals, lambdas and builtin type names are not part of this model, nor are newlines in argument lists.
- LexName: names are taken as identifier-shaped words; a backticked name with other characters is not modelled.
- PartsComeBackIff: placeholders are source texts, so that their expressions survive is the other round trip's matter; the quotes around the content, single or triple, and the suffix are not modelled.
- BuildInterpolation: numeric escapes (`\x`, `\u`, `\U`, octal, `\c`) are interpreted by a foreign library; the model counts them as malformed.
- RawRoundTrip: characters stand for both bytes and code points; the special ones are all below 128.
- ReachableInv: the two steps of looking for an active run and claiming one are merged, as only the driver makes the second; a second claimer is refused in the class.
- ShutdownSettlesEverything: shutdown is taken as a step that begins when no driver call and no leased call is in flight, and ends when the driver is away; the wait in between is the stop coordinator's.
- HooksMatchOutcome: what hooks and slices do is arbitrary; the VM, the collector and the dataflow engine are not part of this model.
- ObjectReadsBack: only members for which a reader exists (ReaderSucceedsIff); pointers, strings and foreign pointers, with the context that keeps them alive, are left out, and so are enumeration members. A nested instance has exactly the declared type.
- WriteScalar: reals are bit patterns, so rounding and the conversions between integers and reals, which the code performs, are not modelled: the model refuses an integer for a real member and a real for an integer one.
- ObjectHasCSize: for the outermost struct alone honesty of the types inside is sufficient, since a size can be right where an offset is not; the exact condition for the layout of a type and all inside it is LayoutIffHonest.
- MemberIsAtItsOffset: under the same condition.
- ComputeStructAlign: 64-bit doubles align to 8; the 32-bit alignment rules of particular platforms are not part of this model.
- ExitRequestDecides: the statuses that exit requests and finalization return to a host are not modelled, only what they do.
- WriteFileAtomically: the writing that is not atomic, error texts and errno values beyond the named codes are left out; the name of the temporary is any sibling name.
- RemoveTree: other processes, symbolic links and entries that vanish during a walk are left out.
- Copy: whether two paths name the same entry is equality of paths; modes of copies and modification times are not modelled.
- CreatedOnce: clearing the registry at shutdown and registering factories during loads are left out.
- CollectRemoteTypeDependencies: type expressions are finite trees; weak references that have died are edges that are not followed.
- PrunerIsBest: the parser that produced the tree is not modelled.
- DecodeSpec: the code reads past the end of truncated bytes; the model stops there. It also joins two name bytes in one expression whose operand order the language leaves open; the model takes the high byte first.
- NamesApart: with more than 128 parameters an index no longer fits eight bits; the model keeps the wrap-around, the lemma excludes it.
- AcceptedIsBinding: for at most 128 arguments, as are NamedReachesIff and AllBoundIff; the shape of a call in bytecode has at most 127, and the model keeps the wrap-around of further indices (InOrderIsExactIff).
- CallComesBack: values are their serialised bytes; lengths of 2^32 and more, which the code would truncate, are excluded.
- ReadFrames: the socket is a finite byte stream; the handshake and the reply tables are left out.
- FilesHoldWrites: a write that fails on an open file, reads and seeks are not modelled; flushes and path tasks change no file here.
- EachResolvedOnce: starting again after a stop is not modelled; a future is resolved by execution even when the operation throws.
- NeverBlocksIffExclusive: clients pass only futures of queued operations, which is what the code's two callers do with the future they were just given (`compiler/ModuleFileIO.cpp:226`, `:370`).
- StopDrains: the deadline is not a clock: once stopped, giving up may happen at any turn.
- The file executors' diagnostics, the garbage collector's root tracing and the compute server's threads and sockets.
- The builtin module scripts, search paths and native registration that a load performs between its two registry updates.
