# Verification of the native profiler's rewriting core

A Dafny model of the parts of the .NET tracer's native profiler that decide what a rewritten method does, with
proofs of what they promise. `dafny verify dfyconfig.toml` checks everything.

**The IL rewriter** (`Bytes`, `OpCodes`, `OpcodeTable`, `ILCode`, `ILFormat`, `Relaxation`, `ILReimport`, `ILEditing`,
`ExceptionTable`, `MaxStack`, `ILRewriterModel`, `BodyExample`). A method body is decoded into a circular doubly linked list of
nodes whose branches and exception clauses point at nodes; nodes are spliced in; the list is laid out and encoded in
rounds until every short branch reaches. The class `ILRewriter` keeps the ring, the offset table and the output
buffer and is proved against lists as values, on which both round trips, the leastness of branch relaxation, the
survival of clause anchors and the bound on the declared stack depth are proved. Formats follow sections II.25.4 and
III.1.2 of ECMA-335.

**CallTarget rewriting** (`ILRewriterWrapperModel`, `ShortForms`, all `CallTarget...` modules, `ILMachine`,
`StraightLine`, `MachineWidening`). The rewriter callback is modelled node by node and edit by edit. `ILMachine` is a
machine for instruction lists with exception clauses in which ordinary instructions and the callbacks are an
arbitrary oracle; against it the rewritten method is proved to mean what its documentation says, from the imported
bytes to the exported ones, and the new clause table to be well nested (sections I.12.4.2.5 and I.12.4.2.7 of
ECMA-335).

**Signatures** (`SignatureTrees`, `SignatureGrammar`, `SignatureParser`, `SignatureNames`, `SignaturePrinter`,
`SignaturePrinterLaws`, `SignaturePrinterStack`, `ElementTable`, `PrintersAgree`, `SignatureExample`,
`LocalSignature`). Blobs of section II.23.2 of ECMA-335 as trees; the
recursive-descent parser over a cursor reads exactly them; the recursive name printer agrees with it; the iterative
printer with its stack of outstanding generic arguments refines a recursive one; extending a local signature is exact.
Element types and the classes behind them are tables of their own, and where the two printers agree is exact.

**ReJIT state** (`RejitState`, `RejitSafety`, `RejitDelivery`, `RejitLog`, `RejitHandlerModel`, `CorProfilerModel`). The
profiler's maps, sets and request queue as a state machine with one atomic step per callback; invariants and delivery
over all runs; the whole state, and every answer, as a function of the events before (`RejitLog`); and the classes that
update the state in place, each method proved to be the step it stands for.

**Text** (`Utf`, `UtfLaws`, `UtfForm`, `CanonicalOrder`). UTF-8, UTF-16 and UTF-32 with replacement of invalid units
(sections 3 and 4 of RFC 3629, section 2 of RFC 2781): every round trip with its exact condition. The canonical
ordering loop (section 3.11 of the Unicode Standard) for any combining-class function.

Some expectations turned out to hold only under a condition, which is proved exact:

- clause lengths stay non-negative under insertion only for non-empty handlers (`StaysOrderedIff`);
- the new clause table is well nested only if no try region ends at the end of the body or overhangs at an inserted
  store (`NewTableWellNestedIff`); at run time such a try region matters exactly in runs in which its clause takes
  the exception of the body, which it then handles twice, or one of the EndMethod region (`RethrownIff`,
  `EndCaughtIff`, `CaughtAgain`);
- the value of the body reaches EndMethod only if control falls through to the return: a return that is branched to,
  or reached from a switch, gets behind the store (`ResultKeptIff`); when EndMethod throws, the value is lost
  (`BranchedReturnIsLost`, and `ResultIsLost` for a whole method);
- handler and module map agree on metadata only if no module the handler has is loaded again without targets
  (`AlwaysWithinModulesIff`), and only methods enqueued since are rewritten only if such a load repeats all targets
  (`AlwaysKnownEnqueuedIff`);
- the iterative printer is the recursive one only without arrays of generic instances (`PrinterRefinesIff`), and its
  stack is empty exactly at type boundaries only if no position is an array (`EmptyAtBoundariesIff`);
- without nested types, the iterative printer gives the names of the recursive one only for built-in types other than
  characters and native integers, named types, and arrays of these (`PrintersAgreeIff`);
- a batch can be taken for the end marker only at 2^32 - 1 methods, modulo 2^32 (`ImitatesEndIff`);
- the check for an extended local signature stays inside the signature only if that is as long as the compressed
  token (`ComparesInsideIff`); a constant is loaded by the shortest instruction only if it is not -1
  (`LoadInt32ShortestIff`).

Where the documentation of the callback (`cor_profiler.cpp:3084-3131`) and the code differ, the model follows the
code: EndMethod gets the exception before the state, not after it. The comment of `ParseType` lists a grammar; its
switch has no default case, so bytes outside that grammar are types of one byte in the model as in the code.

## Model

| member | source | states |
|---|---|---|
| Relaxation.RelaxIsLeast | src/Datadog.Trace.ClrProfiler.Native/il_rewriter.cpp:540-604 | every valid encoding of the same list that keeps the initially long branches is also a widening of the exported one: a branch left long is long in all of them |
| Relaxation.RelaxIsSmallest | src/Datadog.Trace.ClrProfiler.Native/il_rewriter.cpp:540-604 | hence the exported body is the smallest valid one, and the only one of that size |
| Relaxation.Relax | src/Datadog.Trace.ClrProfiler.Native/il_rewriter.cpp:465-605 | the fixed point of `goto again`: it widens the list and every remaining short branch reaches; total because the number of short branches falls |
| Relaxation.RoundProgress | src/Datadog.Trace.ClrProfiler.Native/il_rewriter.cpp:565-604 | a round changes nothing if and only if every short branch reaches, and otherwise leaves strictly fewer short branches |
| Relaxation.DistancesGrow | src/Datadog.Trace.ClrProfiler.Native/il_rewriter.cpp:561-590 | distances between positions only grow under widening |
| Relaxation.OutOfRangeStays | src/Datadog.Trace.ClrProfiler.Native/il_rewriter.cpp:561-590 | a short branch that does not reach does not reach in any widening that keeps it short |
| ILReimport.DisplacementsLand | src/Datadog.Trace.ClrProfiler.Native/il_rewriter.cpp:545-596 | for every list whose switches have their arguments and whose body is below 2^31 bytes: on exit every displacement, of branches and switch arguments alike, read back as the runtime reads it and added to its base, is the offset of its target |
| ILReimport.SwitchBaseInside | src/Datadog.Trace.ClrProfiler.Native/il_rewriter.cpp:545-556 | the base the arguments of a switch count from lies behind them and inside the body |
| ILFormat.ImportExportRoundTrip | src/Datadog.Trace.ClrProfiler.Native/il_rewriter.cpp:212-348 | for every accepted byte string below 2^31, exporting the untouched list gives those bytes, with no branch widened, and its switches have exactly their arguments |
| ILReimport.ExportImportRoundTrip | src/Datadog.Trace.ClrProfiler.Native/il_rewriter.cpp:456-605 | importing the export of any storable list, edited or not, gives the same instructions and target positions up to short-to-long opcodes |
| ILReimport.ImportIsUnique | src/Datadog.Trace.ClrProfiler.Native/il_rewriter.cpp:335-345 | an import has only one result |
| ILReimport.BodyReadsBack | src/Datadog.Trace.ClrProfiler.Native/il_rewriter.cpp:225-328 | the reading loop inverts the encoding, switch groups included, from every position on |
| ILFormat.ReadOpcode | src/Datadog.Trace.ClrProfiler.Native/il_rewriter.cpp:228-248 | a read opcode is importable and its lead bytes are the ones consumed; prefixes other than 0xFE are refused |
| OpCodes.FlagsOf | src/Datadog.Trace.ClrProfiler.Native/il_rewriter.cpp:31-77 | operand sizes and branch flags of the opcode table; `OpcodeTable.TableAgrees` says which |
| OpCodes.LongForm | src/Datadog.Trace.ClrProfiler.Native/il_rewriter.cpp:571-588 | the long form of a short branch is a long branch, so the two error exits are unreachable |
| OpCodes.LongFormKeepsPushes | src/Datadog.Trace.ClrProfiler.Native/il_rewriter.cpp:31-107 | widening keeps the stack pushes and adds three bytes |
| OpcodeTable.TableAgrees | src/Datadog.Trace.ClrProfiler.Native/lib/coreclr/src/inc/opcode.def:37-334 | for every opcode: the operand size is that of its kind in the table of ECMA-335, short, long and switch kinds are exactly the branch and switch flags, and the pushes are those of its row |
| OpcodeTable.PushesAreMost | src/Datadog.Trace.ClrProfiler.Native/il_rewriter.cpp:79-107 | the stack pushes of the rewriter are the push column, one for calls, and none for the two internal opcodes |
| OpcodeTable.LongFormNamed | src/Datadog.Trace.ClrProfiler.Native/il_rewriter.cpp:571-588 | a short branch and the long form it is widened to have the same name up to the suffix |
| OpcodeTable.BasicNames | src/Datadog.Trace.ClrProfiler.Native/lib/coreclr/src/inc/opcode.def:37-334 | opcode numbers used by name are those of the instructions so named |
| OpcodeTable.VariableNames | src/Datadog.Trace.ClrProfiler.Native/lib/coreclr/src/inc/opcode.def:37-334 | the same for the forms with an index or a constant |
| OpcodeTable.TwoByteNames | src/Datadog.Trace.ClrProfiler.Native/lib/coreclr/src/inc/opcode.def:37-334 | the same for prefixes and two-byte opcodes |
| ILReimport.ReachesIff | src/Datadog.Trace.ClrProfiler.Native/il_rewriter.cpp:561-570 | a short branch counts as reaching exactly if some signed byte is its displacement |
| BodyExample.Encodes | src/Datadog.Trace.ClrProfiler.Native/il_rewriter.cpp:471-604 | a body with branches, a switch and a two-byte opcode, byte by byte |
| BodyExample.ReadsBack | src/Datadog.Trace.ClrProfiler.Native/il_rewriter.cpp:212-348 | and read back from these bytes |
| ILRewriterModel.ILRewriter.constructor | src/Datadog.Trace.ClrProfiler.Native/il_rewriter.cpp:109-125 | a new rewriter is a valid empty ring |
| ILRewriterModel.ILRewriter.NewILInstr | src/Datadog.Trace.ClrProfiler.Native/il_rewriter.cpp:402-406 | a fresh node outside the ring, counted |
| ILRewriterModel.ILRewriter.InsertBefore | src/Datadog.Trace.ClrProfiler.Native/il_rewriter.cpp:424-433 | splices a node in before another: the ring stays well formed, every branch and clause anchor still names its node, the depth estimate counts the new node |
| ILRewriterModel.ILRewriter.InsertAfter | src/Datadog.Trace.ClrProfiler.Native/il_rewriter.cpp:435-444 | the same, after another node |
| ILRewriterModel.ILRewriter.AdjustState | src/Datadog.Trace.ClrProfiler.Native/il_rewriter.cpp:446-449 | adds the pushes of the new node |
| ILRewriterModel.ILRewriter.GetInstrFromOffset | src/Datadog.Trace.ClrProfiler.Native/il_rewriter.cpp:408-422 | the node that starts at an offset or the sentinel at the end; failure exactly when none does |
| ILRewriterModel.ILRewriter.ImportIL | src/Datadog.Trace.ClrProfiler.Native/il_rewriter.cpp:212-348 | succeeds with the decoded list and a table of all instruction starts, or fails and no list is a decoding of the bytes |
| ILRewriterModel.ILRewriter.ReadNodes | src/Datadog.Trace.ClrProfiler.Native/il_rewriter.cpp:225-333 | the reading loop: succeeds exactly when the bytes are a sequence of whole instructions, with their nodes |
| ILRewriterModel.ILRewriter.ResolveTargets | src/Datadog.Trace.ClrProfiler.Native/il_rewriter.cpp:335-345 | the resolving loop: every branch gets the node that starts at its offset, or some branch has none |
| ILRewriterModel.ILRewriter.ImportEH | src/Datadog.Trace.ClrProfiler.Native/il_rewriter.cpp:350-400 | anchors every clause at the nodes of its end points; an invalid operation exactly when there are clauses already, and fails otherwise exactly when an end point starts no node |
| ILRewriterModel.ILRewriter.Import | src/Datadog.Trace.ClrProfiler.Native/il_rewriter.cpp:190-210 | code and clauses: success with both decoded, failure exactly when one cannot be |
| ILRewriterModel.ILRewriter.LayOut | src/Datadog.Trace.ClrProfiler.Native/il_rewriter.cpp:471-533 | the layout pass: every node gets its offset, every write lies inside `instrCount * 10` bytes, the index check never fires |
| ILRewriterModel.ILRewriter.ResolveNode | src/Datadog.Trace.ClrProfiler.Native/il_rewriter.cpp:541-601 | one node of the resolving pass: a displacement is patched in place or a short branch is widened, `switchBase` is kept, no error exit is taken |
| ILRewriterModel.ILRewriter.ResolveBranches | src/Datadog.Trace.ClrProfiler.Native/il_rewriter.cpp:535-604 | the resolving pass: asks for another round exactly when some short branch does not reach |
| ILRewriterModel.ILRewriter.Round | src/Datadog.Trace.ClrProfiler.Native/il_rewriter.cpp:465-605 | one round widens exactly the branches that do not reach, or leaves the encoding in the buffer |
| ILRewriterModel.ILRewriter.Export | src/Datadog.Trace.ClrProfiler.Native/il_rewriter.cpp:456-688 | the list relaxed and encoded, with the depth estimate and the exported clauses; the only failure is a body of 64 bytes or more under a tiny header |
| ILRewriterModel.ILRewriter.SetEHClause | src/Datadog.Trace.ClrProfiler.Native/il_rewriter.cpp:177-188 | replaces the clauses |
| ILRewriterModel.ILRewriter.ReturnToLeave | src/Datadog.Trace.ClrProfiler.Native/cor_profiler.cpp:3514-3515 | turns a return node into a leave to another node, everything else kept |
| ILRewriterModel.ExportUntouched | src/Datadog.Trace.ClrProfiler.Native/il_rewriter.cpp:190-688 | import and export without edits: same code, same clauses, and a declared depth not below the header |
| ExceptionTable.ClauseRoundTrip | src/Datadog.Trace.ClrProfiler.Native/il_rewriter.cpp:376-396 | without edits, importing and exporting a clause returns its offsets and lengths |
| ExceptionTable.ExportedRanges | src/Datadog.Trace.ClrProfiler.Native/il_rewriter.cpp:664-680 | exported ranges are exactly the bytes of the try nodes up to the end anchor and of the handler nodes including the end anchor, lengths not negative |
| ExceptionTable.AnchorsSurvive | src/Datadog.Trace.ClrProfiler.Native/il_rewriter.cpp:424-444 | after any insertions a node lies in a region exactly when it did before |
| ExceptionTable.StaysOrderedIff | src/Datadog.Trace.ClrProfiler.Native/il_rewriter.cpp:385-386 | lengths stay non-negative under every sequence of insertions if and only if the handler is not empty |
| MaxStack.DeclaredDepthSuffices | src/Datadog.Trace.ClrProfiler.Native/il_rewriter.cpp:446-449 | after import and insertions the exported depth covers, at every instruction reachable from a root, the depth before it and everything its row of the opcode table lets it push |
| CallTargetDepth.BeginTabled | src/Datadog.Trace.ClrProfiler.Native/cor_profiler.cpp:3196-3351 | every instruction of the begin region pops and pushes what its row of the opcode table says |
| CallTargetDepth.EndTabled | src/Datadog.Trace.ClrProfiler.Native/cor_profiler.cpp:3382-3498 | the same for the end region |
| CallTargetDepth.DeclaredDepthCovers | src/Datadog.Trace.ClrProfiler.Native/il_rewriter.cpp:446-449 | the depth the callback declares covers the old depth and, on top of it, what is on the stack at every point of the begin and end regions, however many arguments there are |
| MaxStack.DepthPaid | src/Datadog.Trace.ClrProfiler.Native/il_rewriter.cpp:79-107 | along a path the depth is paid for by the distinct nodes on it, each counted once |
| ILRewriterWrapperModel.ILRewriterWrapper.SetILPosition | src/Datadog.Trace.ClrProfiler.Native/il_rewriter_wrapper.cpp:13-16 | sets the cursor |
| ILRewriterWrapperModel.ILRewriterWrapper.LoadInt32 | src/Datadog.Trace.ClrProfiler.Native/il_rewriter_wrapper.cpp:41-66 | emits the size-classed load of the constant before the cursor |
| ShortForms.LoadInt32Loads | src/Datadog.Trace.ClrProfiler.Native/il_rewriter_wrapper.cpp:41-66 | the emitted instruction loads the constant, for every 32-bit value |
| ShortForms.LoadInt32ShortestIff | src/Datadog.Trace.ClrProfiler.Native/il_rewriter_wrapper.cpp:41-66 | no instruction that loads the same constant is shorter, if and only if the constant is not -1 |
| ShortForms.LocalsNamed | src/Datadog.Trace.ClrProfiler.Native/il_rewriter_wrapper.cpp:212-283 | stores, loads and address loads name the local they were asked for |
| ShortForms.LocalsShortest | src/Datadog.Trace.ClrProfiler.Native/il_rewriter_wrapper.cpp:212-283 | no instruction that uses the same local the same way is shorter |
| ILRewriterWrapperModel.ILRewriterWrapper.LoadArgument | src/Datadog.Trace.ClrProfiler.Native/il_rewriter_wrapper.cpp:68-96 | emits the encoding for a 16-bit argument index before the cursor |
| ILRewriterWrapperModel.ILRewriterWrapper.CreateArray | src/Datadog.Trace.ClrProfiler.Native/il_rewriter_wrapper.cpp:130-139 | emits size and newarr |
| ILRewriterWrapperModel.ILRewriterWrapper.CallMember | src/Datadog.Trace.ClrProfiler.Native/il_rewriter_wrapper.cpp:141-148 | emits call or callvirt with the member token |
| ILRewriterWrapperModel.ILRewriterWrapper.BeginLoadValueIntoArray | src/Datadog.Trace.ClrProfiler.Native/il_rewriter_wrapper.cpp:157-164 | emits dup and the index |
| ILRewriterWrapperModel.ILRewriterWrapper.StLocal | src/Datadog.Trace.ClrProfiler.Native/il_rewriter_wrapper.cpp:212-238 | emits the store for a local index in its size class |
| ILRewriterWrapperModel.ILRewriterWrapper.LoadLocal | src/Datadog.Trace.ClrProfiler.Native/il_rewriter_wrapper.cpp:240-266 | emits the load for a local index in its size class |
| ILRewriterWrapperModel.ILRewriterWrapper.LoadLocalAddress | src/Datadog.Trace.ClrProfiler.Native/il_rewriter_wrapper.cpp:268-283 | emits the address load |
| ILRewriterWrapperModel.ILRewriterWrapper.CreateInstr | src/Datadog.Trace.ClrProfiler.Native/il_rewriter_wrapper.cpp:317-322 | emits a bare opcode |
| CallTargetEmission.InitializeLocals | src/Datadog.Trace.ClrProfiler.Native/calltarget_tokens.cpp:814-835 | emits the initialisation of result, return and exception locals |
| CallTargetEmission.LoadInstance | src/Datadog.Trace.ClrProfiler.Native/cor_profiler.cpp:3213-3256 | emits the instance, or null; refuses exactly static methods of structs and generic structs without a spec |
| CallTargetEmission.RefusedIff | src/Datadog.Trace.ClrProfiler.Native/cor_profiler.cpp:3213-3301 | which methods are left alone: static methods of structs, generic structs without a spec, by-reference parameters, and from nine parameters on values whose type has no token |
| CallTargetEmission.LoadArguments | src/Datadog.Trace.ClrProfiler.Native/cor_profiler.cpp:3258-3301 | emits the arguments directly below nine, else into an object array; refuses exactly by-reference arguments and boxed ones without a token |
| CallTargetEmission.EmitBegin | src/Datadog.Trace.ClrProfiler.Native/cor_profiler.cpp:3196-3351 | emits everything in front of the body, and the nodes kept of it |
| CallTargetEmission.EmitEnd | src/Datadog.Trace.ClrProfiler.Native/cor_profiler.cpp:3382-3498 | emits everything behind the body, and the nodes kept of it |
| CallTargetRewriter.InsertPrologue | src/Datadog.Trace.ClrProfiler.Native/cor_profiler.cpp:3196-3367 | the prologue is in place and its two leaves target the first node of the body |
| CallTargetRewriter.InsertEpilogue | src/Datadog.Trace.ClrProfiler.Native/cor_profiler.cpp:3373-3498 | the epilogue is in place behind the body, ends with the only return kept, and its two leaves target the endfinally |
| CallTargetReturns.ReturnsToLeaves | src/Datadog.Trace.ClrProfiler.Native/cor_profiler.cpp:3500-3522 | the loop over the ring, which grows while it runs: every return but the last becomes a leave, with a store in front in methods with a result, everything else kept |
| CallTargetRewriter.BodyRewritten | src/Datadog.Trace.ClrProfiler.Native/cor_profiler.cpp:3196-3522 | the finished ring, read as a list, is the rewriting of the old list |
| CallTargetCallback.RewriteList | src/Datadog.Trace.ClrProfiler.Native/cor_profiler.cpp:3192-3557 | succeeds exactly for instrumentable methods; then the list is the rewriting, and the clauses are the old ones, moved, followed by the four new ones |
| CallTargetCallback.ClausesRewritten | src/Datadog.Trace.ClrProfiler.Native/cor_profiler.cpp:3524-3557 | the anchors of the new table are the nodes at the positions of the table as a value |
| CallTargetCallback.Callback | src/Datadog.Trace.ClrProfiler.Native/cor_profiler.cpp:3132-3578 | from bytes to bytes: exports exactly for importable bodies of instrumentable methods in an AppDomain with the managed profiler whose local signature can be extended, and what it exports is the relaxed encoding of a rewriting with its clauses, and the extended signature; undefined exactly when the step on the signature fails and the method is not skipped |
| CallTargetCallback.InjectedLocalsTyped | src/Datadog.Trace.ClrProfiler.Native/calltarget_tokens.cpp:793-836 | every local the injected instructions use has its type in the extended signature |
| CallTargetEncoding.RewrittenExportable | src/Datadog.Trace.ClrProfiler.Native/cor_profiler.cpp:3564-3565 | a rewriting of an exportable list is exportable |
| CallTargetTheorem.CallTargetPreservesMeaning | src/Datadog.Trace.ClrProfiler.Native/cor_profiler.cpp:3196-3557 | for every body that ends, branches to returns included, and all outcomes of the callbacks, the rewritten method runs the begin region, the body once, and the end region once, then rethrows the exception of the body or returns the result local |
| CallTargetTheorem.ResultKeptIff | src/Datadog.Trace.ClrProfiler.Native/cor_profiler.cpp:3507-3516 | in every run that ends in a return, the result local holds the value of the body when EndMethod starts if and only if control fell through to the return, or the local held the value already |
| CallTargetTheorem.ResultNeverLost | src/Datadog.Trace.ClrProfiler.Native/cor_profiler.cpp:3507-3516 | without branches to returns every run that returns a result fell through to it |
| CallTargetTheorem.DivergenceKept | src/Datadog.Trace.ClrProfiler.Native/cor_profiler.cpp:3362-3367 | a body that never ends makes the rewritten method never end |
| CallTargetTheorem.BodyRuns | src/Datadog.Trace.ClrProfiler.Native/cor_profiler.cpp:3362-3522 | any number of steps of the body are steps of the rewriting, until the body ends and the finally handler is entered with its result or exception stored |
| CallTargetContract.CallbackContract | src/Datadog.Trace.ClrProfiler.Native/cor_profiler.cpp:3084-3578 | EndMethod is called exactly once after the body, or not at all if loading the instance for it fails; an exception of the body goes on; otherwise the method returns the value of GetReturnValue, or what the result local held if EndMethod or GetReturnValue threw or EndMethod was not called |
| CallTargetContract.BeginMethodOnce | src/Datadog.Trace.ClrProfiler.Native/cor_profiler.cpp:3213-3360 | BeginMethod is called exactly once if everything in front of it ran through, else not at all; its answer is the state local; EndMethod is not called there |
| CallTargetContract.EndMethodOnce | src/Datadog.Trace.ClrProfiler.Native/cor_profiler.cpp:3382-3483 | EndMethod is called exactly once if the instance could be loaded, with instance, result, exception and state, else not at all; what the result local holds afterwards in both cases |
| CallTargetContract.EndArgsAfterBody | src/Datadog.Trace.ClrProfiler.Native/cor_profiler.cpp:3438-3445 | EndMethod gets the value of the body, or the default if it was lost or there is none, its exception or null, and the state of BeginMethod |
| CallTargetContract.NoExceptionBeforeBody | src/Datadog.Trace.ClrProfiler.Native/calltarget_tokens.cpp:829-830 | however the begin region ends, the exception local is null when the body starts |
| CallTargetArguments.FastArgsRun | src/Datadog.Trace.ClrProfiler.Native/cor_profiler.cpp:3260-3273 | on the fast path parameter i is pushed as value i: argument i of a static method, argument i + 1 of an instance method |
| CallTargetArguments.ArrayArgsRun | src/Datadog.Trace.ClrProfiler.Native/cor_profiler.cpp:3274-3301 | from nine parameters on, the array holds parameter i at index i, boxed where the signature asks for it, for every i |
| CallTargetArguments.InstanceRuns | src/Datadog.Trace.ClrProfiler.Native/cor_profiler.cpp:3213-3256 | what both callbacks get as instance: null for a static method, argument 0 of a class, the struct behind argument 0 of a struct |
| CallTargetArguments.BeginMethodArguments | src/Datadog.Trace.ClrProfiler.Native/cor_profiler.cpp:3213-3351 | the call of BeginMethod is made with the instance and all parameters of the method, below nine one by one, else in an array |
| CallTargetArguments.EndMethodArguments | src/Datadog.Trace.ClrProfiler.Native/cor_profiler.cpp:3392-3445 | the call of EndMethod is made with the instance, the result if there is one, the exception and the state |
| CallTargetArguments.InitStores | src/Datadog.Trace.ClrProfiler.Native/calltarget_tokens.cpp:814-830 | the result local starts with the answer of GetDefaultValue, CallTargetReturn with that of GetDefault, the exception with null |
| CallTargetBody.StepKept | src/Datadog.Trace.ClrProfiler.Native/cor_profiler.cpp:3500-3557 | every step of the body that is not a return is the same step of the rewriting: branches, switches, leaves, nested handlers, rethrow and endfinally |
| CallTargetBody.RegionsKept | src/Datadog.Trace.ClrProfiler.Native/cor_profiler.cpp:3546-3549 | an original clause covers a node exactly when it did before |
| CallTargetBody.AddedCatch | src/Datadog.Trace.ClrProfiler.Native/cor_profiler.cpp:3524-3541 | the three added catch clauses are for class Exception, and so catch everything |
| CallTargetMeaning.FailureLogged | src/Datadog.Trace.ClrProfiler.Native/cor_profiler.cpp:3349-3351 | an exception of the begin or end region is handed to LogException |
| CallTargetMeaning.EndCaughtIff | src/Datadog.Trace.ClrProfiler.Native/cor_profiler.cpp:3546-3549 | an exception of the EndMethod region is logged if and only if no original clause whose try region ended at the end of the body takes it first |
| CallTargetMeaning.RethrownIff | src/Datadog.Trace.ClrProfiler.Native/cor_profiler.cpp:3382-3390 | the stored exception of the body gets past the original clauses if and only if none of those takes it |
| CallTargetMeaning.CaughtAgain | src/Datadog.Trace.ClrProfiler.Native/cor_profiler.cpp:3546-3549 | an original clause that takes it handles the exception of the body a second time, and the run goes on in its handler |
| CallTargetContract.BranchedReturnIsLost | src/Datadog.Trace.ClrProfiler.Native/cor_profiler.cpp:3500-3522 | when EndMethod throws or is not called: the method returns the value of the body if and only if control fell through to the return or the result local held the value already; else it returns what the local held |
| CallTargetLostReturn.ResultIsLost | src/Datadog.Trace.ClrProfiler.Native/cor_profiler.cpp:3500-3522 | a complete method, run from its start: the body returns a constant, the rewritten method the default value |
| CallTargetEndToEnd.ExportedMethodMeans | src/Datadog.Trace.ClrProfiler.Native/cor_profiler.cpp:3132-3578 | the bytes the callback exports, decoded, run as above, whatever short branches had to be widened |
| CallTargetEndToEnd.ExportedMethodContract | src/Datadog.Trace.ClrProfiler.Native/cor_profiler.cpp:3084-3578 | and so meet the contract: calls of EndMethod, the exception, the returned value |
| MachineWidening.RelaxedRunsTheSame | src/Datadog.Trace.ClrProfiler.Native/il_rewriter.cpp:565-604 | widening branches does not change what a program does |
| CallTargetClauses.NewTableWellNestedIff | src/Datadog.Trace.ClrProfiler.Native/cor_profiler.cpp:3524-3557 | from a well-nested table the new table is well nested if and only if no try region ended at the end of the body and none was the last part of a handler in front of an inserted store |
| CallTargetClauses.CoversOnlyItsOwn | src/Datadog.Trace.ClrProfiler.Native/cor_profiler.cpp:3543-3557 | original clauses cover afterwards only their old instructions and stores put in front of returns |
| CallTargetClauses.AddedNest | src/Datadog.Trace.ClrProfiler.Native/cor_profiler.cpp:3353-3360 | the four added clauses are nested, inner ones first |
| CallTargetClauses.OriginalNests | src/Datadog.Trace.ClrProfiler.Native/cor_profiler.cpp:3543-3557 | every original clause is nested in or apart from each added one |
| CallTargetClauses.FlagsNamed | src/Datadog.Trace.ClrProfiler.Native/cor_profiler.cpp:3353-3360 | flags and classes of the added clauses, by the numbers of ECMA-335 |
| SignatureTrees.ReadNumIff | src/Datadog.Trace.ClrProfiler.Native/clr_helpers.cpp:1431-1479 | a byte string starts with a compressed integer exactly when it starts with one of its spellings, up to 0x1FFFFFFF |
| SignatureTrees.ReadTypeIff | src/Datadog.Trace.ClrProfiler.Native/clr_helpers.cpp:1502-1610 | a byte string starts with a type exactly when one is read, and then with its encoding |
| SignatureTrees.ReadTypeComplete | src/Datadog.Trace.ClrProfiler.Native/clr_helpers.cpp:1502-1610 | a well-formed type is read back from its encoding, whatever follows |
| SignatureTrees.OneTypeAtMost | src/Datadog.Trace.ClrProfiler.Native/clr_helpers.cpp:1502-1610 | the grammar is unambiguous and prefix-free |
| SignatureParser.Cursor.ParseByte | src/Datadog.Trace.ClrProfiler.Native/clr_helpers.cpp:1419-1429 | takes a byte unless at the end |
| SignatureParser.Cursor.ParseNumber | src/Datadog.Trace.ClrProfiler.Native/clr_helpers.cpp:1431-1479 | succeeds exactly on a compressed integer and consumes its spelling |
| SignatureParser.Cursor.ParseTypeDefOrRefEncoded | src/Datadog.Trace.ClrProfiler.Native/clr_helpers.cpp:1481-1492 | splits the integer into table and index |
| SignatureParser.Cursor.ParseType | src/Datadog.Trace.ClrProfiler.Native/clr_helpers.cpp:1502-1610 | succeeds exactly when the rest starts with a type, consumes exactly that, moves forward within the end, and terminates with the remaining length as measure |
| SignatureParser.Cursor.ParseParam | src/Datadog.Trace.ClrProfiler.Native/clr_helpers.cpp:1612-1628 | the same for a parameter |
| SignatureParser.Cursor.ParseRetType | src/Datadog.Trace.ClrProfiler.Native/clr_helpers.cpp:1630-1650 | the same for a return type |
| SignatureParser.FunctionMethodSignature.TryParse | src/Datadog.Trace.ClrProfiler.Native/clr_helpers.cpp:1652-1704 | succeeds exactly when the bytes start with a method signature; counts and spans are that of the signature |
| SignatureParser.SuccessTiles | src/Datadog.Trace.ClrProfiler.Native/clr_helpers.cpp:1652-1704 | a success yields as many argument spans as declared which, with header, return span and at most one sentinel, follow one another and make up the consumed bytes |
| SignatureParser.OneSentinel | src/Datadog.Trace.ClrProfiler.Native/clr_helpers.cpp:1678-1689 | no two arguments have a sentinel in front |
| SignatureGrammar.ReadSigSound | src/Datadog.Trace.ClrProfiler.Native/clr_helpers.cpp:1652-1704 | what is read is a well-formed signature and the bytes taken are its encoding |
| SignatureGrammar.ReadSigComplete | src/Datadog.Trace.ClrProfiler.Native/clr_helpers.cpp:1652-1704 | a well-formed signature is read back from its encoding, whatever follows |
| SignatureNames.UncompressData | src/Datadog.Trace.ClrProfiler.Native/lib/coreclr/src/inc/cor.h:2003-2014 | the integer at the cursor, and the cursor moved past it |
| SignatureNames.SigTypeTokName | src/Datadog.Trace.ClrProfiler.Native/clr_helpers.cpp:1270-1404 | the name of the type tree, with the cursor moved past exactly its encoding |
| ElementTable.SimpleNamed | src/Datadog.Trace.ClrProfiler.Native/clr_helpers.cpp:1280-1345 | the recursive printer names each built-in type by the class behind its element type |
| ElementTable.TextIff | src/Datadog.Trace.ClrProfiler.Native/clr_helpers.cpp:512-612 | the iterative printer does so exactly for all but characters and native integers |
| ElementTable.SimpleIff | src/Datadog.Trace.ClrProfiler.Native/clr_helpers.cpp:1502-1610 | the one-byte types of the parser are exactly the built-in ones |
| ElementTable.StructuresNamed | src/Datadog.Trace.ClrProfiler.Native/lib/coreclr/src/inc/corhdr.h:869-907 | element bytes used by name are those of the elements so named |
| ElementTable.PrefixesNamed | src/Datadog.Trace.ClrProfiler.Native/lib/coreclr/src/inc/corhdr.h:886-917 | the same for modifiers, refused elements and the sentinel |
| PrintersAgree.NamesAgreeIff | src/Datadog.Trace.ClrProfiler.Native/clr_helpers.cpp:487-1404 | without nested types, the two printers give a type the same name if and only if it is a built-in type other than a character or native integer, a named type, or an array of such |
| PrintersAgree.PrintersAgreeIff | src/Datadog.Trace.ClrProfiler.Native/clr_helpers.cpp:487-1404 | on a whole signature the iterative printer gives the recursive names if and only if every type in it is such |
| PrintersAgree.DecimalReads | src/Datadog.Trace.ClrProfiler.Native/clr_helpers.cpp:1372-1392 | the printed index of a type variable reads as the index, without leading zeros |
| PrintersAgree.ExampleNames | src/Datadog.Trace.ClrProfiler.Native/clr_helpers.cpp:1346-1404 | a reference to a generic instance with an array and a type variable, as both printers spell it |
| PrintersAgree.ExampleBytes | src/Datadog.Trace.ClrProfiler.Native/clr_helpers.cpp:1502-1628 | and its bytes |
| PrintersAgree.IntegersSpelled | src/Datadog.Trace.ClrProfiler.Native/clr_helpers.cpp:1431-1479 | the compressed integers ECMA-335 gives as examples |
| SignatureExample.GenericSpelled | src/Datadog.Trace.ClrProfiler.Native/clr_helpers.cpp:1652-1704 | a generic static method, byte by byte |
| SignatureExample.VarargSpelled | src/Datadog.Trace.ClrProfiler.Native/clr_helpers.cpp:1652-1704 | an instance method with a sentinel, byte by byte |
| SignatureExample.GenericPrinted | src/Datadog.Trace.ClrProfiler.Native/clr_helpers.cpp:487-790 | a generic method as the iterative printer gives it |
| SignatureNames.ParseThenPrint | src/Datadog.Trace.ClrProfiler.Native/clr_helpers.cpp:1270-1610 | parser and name printer consume the same number of bytes on every supported type, whatever follows |
| SignaturePrinter.TryParseSignatureTypes | src/Datadog.Trace.ClrProfiler.Native/clr_helpers.cpp:487-790 | the loop with its index, stack and accumulators, in place, computes the run of the machine |
| SignaturePrinter.Finish | src/Datadog.Trace.ClrProfiler.Native/clr_helpers.cpp:732-776 | what a finished type does to stack, name and results |
| SignaturePrinter.CloseGenerics | src/Datadog.Trace.ClrProfiler.Native/clr_helpers.cpp:750-761 | the unwinding loop pops exactly the levels without outstanding arguments |
| SignaturePrinter.SkipArrays | src/Datadog.Trace.ClrProfiler.Native/clr_helpers.cpp:647-657 | the array loop |
| SignaturePrinter.PrintsType | src/Datadog.Trace.ClrProfiler.Native/clr_helpers.cpp:487-790 | from the first byte of a type the loop gets to where its name has been delivered, for any nesting of generics |
| SignaturePrinterLaws.PrintsSignature | src/Datadog.Trace.ClrProfiler.Native/clr_helpers.cpp:487-790 | on a signature the printer succeeds with one name per position |
| SignaturePrinterLaws.PrinterRefinesIff | src/Datadog.Trace.ClrProfiler.Native/clr_helpers.cpp:487-790 | the names are those of the recursive printer, position by position, if and only if no type has an array of generic instances |
| SignaturePrinterStack.StackEmptyIff | src/Datadog.Trace.ClrProfiler.Native/clr_helpers.cpp:504-776 | at every iteration the stack is empty exactly where a type starts, or right behind its leading array elements; empty with no brackets pending exactly at type boundaries |
| SignaturePrinterStack.EmptyAtBoundariesIff | src/Datadog.Trace.ClrProfiler.Native/clr_helpers.cpp:504-776 | over a whole signature the stack is empty exactly at type boundaries if and only if no position is an array |
| LocalSignature.ModifyLocalSig | src/Datadog.Trace.ClrProfiler.Native/calltarget_tokens.cpp:501-685 | for every readable signature: refuses exactly an already extended one; leaves the signature exactly when it is shorter than the compressed token, and the buffer exactly when the result does not fit; else gives the extended signature and the four indices |
| LocalSignature.EndsWithState | src/Datadog.Trace.ClrProfiler.Native/calltarget_tokens.cpp:524-538 | the comparison finds exactly signatures that end with the state local, and leaves the signature exactly when that is shorter than the token |
| LocalSignature.ComparesInsideIff | src/Datadog.Trace.ClrProfiler.Native/calltarget_tokens.cpp:526-534 | the wrapped difference of sizes stays inside the signature if and only if it is at least as long as the compressed token |
| LocalSignature.ShortSignatureReadOutside | src/Datadog.Trace.ClrProfiler.Native/calltarget_tokens.cpp:526-534 | a signature of three bytes and a token of four: the byte looked at is 4 GB away |
| LocalSignature.SizeExact | src/Datadog.Trace.ClrProfiler.Native/calltarget_tokens.cpp:588-610 | the size computed beforehand is the size written, also when the count takes more bytes |
| LocalSignature.ExtensionExact | src/Datadog.Trace.ClrProfiler.Native/calltarget_tokens.cpp:612-683 | under any grammar of locals, the new signature decodes to the old locals followed by return type, Exception, CallTargetReturn and CallTargetState, at the returned indices |
| LocalSignature.ExtensionsSpelled | src/Datadog.Trace.ClrProfiler.Native/calltarget_tokens.cpp:612-683 | two extended signatures, byte by byte |
| LocalSignature.TypesAreLocals | src/Datadog.Trace.ClrProfiler.Native/calltarget_tokens.cpp:630-658 | the type grammar of the parser is such a grammar and reads the added locals |
| LocalSignature.OwnOutputRefused | src/Datadog.Trace.ClrProfiler.Native/calltarget_tokens.cpp:524-538 | run on its own output, the extension is refused |
| RejitSafety.StepKeeps | src/Datadog.Trace.ClrProfiler.Native/cor_profiler.cpp:397-977 | every callback, loads of a loaded module included, keeps the invariant |
| RejitSafety.RunKeeps | src/Datadog.Trace.ClrProfiler.Native/cor_profiler.cpp:397-977 | so it holds in every run |
| RejitSafety.LoadKeepsMetadataIff | src/Datadog.Trace.ClrProfiler.Native/cor_profiler.cpp:574-584 | a load keeps handler and module map in step if and only if it is not one without targets of a module the handler has |
| RejitSafety.AlwaysWithinModulesIff | src/Datadog.Trace.ClrProfiler.Native/cor_profiler.cpp:397-977 | handler and module map are in step throughout a run if and only if it has no such load |
| RejitSafety.HandlerAlwaysWithinModules | src/Datadog.Trace.ClrProfiler.Native/cor_profiler.cpp:574-584 | then each module in the handler is in the module map with that same metadata |
| RejitSafety.ReloadKeepsOldMetadata | src/Datadog.Trace.ClrProfiler.Native/cor_profiler.cpp:574-584 | a run with such a load: the metadata of the first load stays in the handler |
| RejitSafety.LoadKeepsKnowledgeIff | src/Datadog.Trace.ClrProfiler.Native/cor_profiler.cpp:574-584 | after a load the handler knows only methods enqueued since if and only if every method it knew there is a target again |
| RejitSafety.AlwaysKnownEnqueuedIff | src/Datadog.Trace.ClrProfiler.Native/cor_profiler.cpp:397-977 | the handler knows only enqueued methods throughout a run if and only if every load is like that |
| RejitSafety.OnlyEnqueuedRewritten | src/Datadog.Trace.ClrProfiler.Native/cor_profiler.cpp:2866-2893 | then the rewrite callback only runs for methods enqueued since the last load of their module, with its metadata |
| RejitSafety.RewrittenIffKnown | src/Datadog.Trace.ClrProfiler.Native/cor_profiler.cpp:2866-2893 | in every run the rewrite callback runs exactly for methods the handler knows, once function control is there |
| RejitSafety.EnqueuedIsRewritten | src/Datadog.Trace.ClrProfiler.Native/rejit_handler.cpp:257-315 | in every run it does run for enqueued methods |
| RejitSafety.KnownUntilEnd | src/Datadog.Trace.ClrProfiler.Native/cor_profiler.cpp:703-746 | in every run the handler knows an enqueued method until its module is unloaded or the profiler shuts down |
| RejitSafety.EnqueuedNeverInlined | src/Datadog.Trace.ClrProfiler.Native/cor_profiler.cpp:942-977 | in every run an enqueued method is not allowed to inline from then on while the profiler is attached |
| RejitSafety.EnqueuedUntilUnload | src/Datadog.Trace.ClrProfiler.Native/cor_profiler.cpp:703-723 | in every run it stays enqueued until its module is unloaded, the profiler shuts down, or the module is loaded again without it |
| RejitSafety.HookAtMostOnce | src/Datadog.Trace.ClrProfiler.Native/cor_profiler.cpp:818-897 | in every run each AppDomain gets the startup hook at most once |
| RejitLog.RunMatches | src/Datadog.Trace.ClrProfiler.Native/cor_profiler.cpp:397-977 | in every run the whole state is a function of the events before: attachment, module map, hooked AppDomains, methods and their data, AppDomains with the managed profiler, pushed batches, enqueued methods |
| RejitLog.LoadedIff | src/Datadog.Trace.ClrProfiler.Native/cor_profiler.cpp:397-726 | which modules are loaded, and in which AppDomain |
| RejitLog.HookIff | src/Datadog.Trace.ClrProfiler.Native/cor_profiler.cpp:772-897 | a compilation gets the hook for its AppDomain exactly when it is the first there that may, loads of the loader included |
| RejitLog.InlineIff | src/Datadog.Trace.ClrProfiler.Native/cor_profiler.cpp:942-977 | inlining is refused exactly for methods that are targets of a load of their module or have been asked about, and whose module has not been unloaded since |
| RejitLog.RewriteIff | src/Datadog.Trace.ClrProfiler.Native/cor_profiler.cpp:2866-2893 | the rewrite callback runs exactly for targets of a load of their module, which is still there, with function control |
| RejitLog.RewrittenAsTargeted | src/Datadog.Trace.ClrProfiler.Native/cor_profiler.cpp:3056-3064 | the data for the rewriting is that of the last target that named the method |
| RejitLog.ControlKept | src/Datadog.Trace.ClrProfiler.Native/rejit_handler.cpp:257-263 | and the function control is the one just handed over |
| RejitLog.ManagedIff | src/Datadog.Trace.ClrProfiler.Native/cor_profiler.cpp:355-369 | an AppDomain counts as having the managed profiler from its load until any module there is unloaded |
| RejitLog.EnqueuedIff | src/Datadog.Trace.ClrProfiler.Native/cor_profiler.cpp:3048-3074 | a method is enqueued exactly while it is a target of the load its module stands from |
| RejitLog.RequestsAreTheBatches | src/Datadog.Trace.ClrProfiler.Native/rejit_handler.cpp:150-254 | after shutdown one request has been made for every load with targets, in order, with exactly its targets, each in its module |
| RejitLog.RequestedIff | src/Datadog.Trace.ClrProfiler.Native/rejit_handler.cpp:150-254 | so exactly the methods that were ever targets have been requested |
| RejitLog.EnqueuedIsRequested | src/Datadog.Trace.ClrProfiler.Native/rejit_handler.cpp:150-254 | and every method that was enqueued at some time |
| RejitDelivery.ImitatesEndIff | src/Datadog.Trace.ClrProfiler.Native/rejit_handler.cpp:229-241 | a batch is taken for the end marker exactly when its size is -1 as a 32-bit integer |
| RejitDelivery.DrainsAllIff | src/Datadog.Trace.ClrProfiler.Native/rejit_handler.cpp:150-182 | draining a queue in front of the marker requests everything if and only if nothing in it looks like one |
| RejitDelivery.DeliveredInOrder | src/Datadog.Trace.ClrProfiler.Native/rejit_handler.cpp:162-180 | in every run what has been requested is a prefix of what was pushed: each batch once, in order |
| RejitDelivery.AllDeliveredAtShutdown | src/Datadog.Trace.ClrProfiler.Native/rejit_handler.cpp:243-254 | after shutdown everything that was pushed has been requested |
| RejitHandlerModel.RejitHandlerModule.GetOrAddMethod | src/Datadog.Trace.ClrProfiler.Native/rejit_handler.cpp:110-123 | the entry of a method, created if new |
| RejitHandlerModel.RejitHandlerModule.ContainsMethod | src/Datadog.Trace.ClrProfiler.Native/rejit_handler.cpp:139-143 | whether there is an entry |
| RejitHandlerModel.UniqueBlockingQueue.Push | src/Datadog.Trace.ClrProfiler.Native/util.h:125-132 | appends at the back |
| RejitHandlerModel.UniqueBlockingQueue.Pop | src/Datadog.Trace.ClrProfiler.Native/util.h:114-124 | takes from the front |
| RejitHandlerModel.RejitHandler.GetOrAddModule | src/Datadog.Trace.ClrProfiler.Native/rejit_handler.cpp:194-207 | the entry of a module, created if new |
| RejitHandlerModel.RejitHandler.RemoveModule | src/Datadog.Trace.ClrProfiler.Native/rejit_handler.cpp:223-227 | removes it |
| RejitHandlerModel.RejitHandler.EnqueueForRejit | src/Datadog.Trace.ClrProfiler.Native/rejit_handler.cpp:229-241 | pushes one batch, its length cast to 32 bits |
| RejitHandlerModel.RejitHandler.EnqueueThreadLoop | src/Datadog.Trace.ClrProfiler.Native/rejit_handler.cpp:150-182 | the worker loop requests everything up to the first end marker and stops |
| RejitHandlerModel.RejitHandler.Shutdown | src/Datadog.Trace.ClrProfiler.Native/rejit_handler.cpp:243-254 | pushes the marker, waits for the worker, forgets the modules |
| RejitHandlerModel.RejitHandler.NotifyReJITParameters | src/Datadog.Trace.ClrProfiler.Native/rejit_handler.cpp:257-315 | stores metadata and function control, and runs the rewrite callback exactly when everything is there |
| RejitHandlerModel.RejitHandler.RequestRejit | src/Datadog.Trace.ClrProfiler.Native/cor_profiler.cpp:3048-3074 | enters the targets of a module and enqueues them as one batch |
| CorProfilerModel.CorProfiler.ModuleLoadFinished | src/Datadog.Trace.ClrProfiler.Native/cor_profiler.cpp:397-584 | the in-place update is the step of the state machine |
| CorProfilerModel.CorProfiler.ModuleUnloadStarted | src/Datadog.Trace.ClrProfiler.Native/cor_profiler.cpp:669-726 | the same |
| CorProfilerModel.CorProfiler.JITCompilationStarted | src/Datadog.Trace.ClrProfiler.Native/cor_profiler.cpp:772-897 | the same, with the AppDomain that gets the hook |
| CorProfilerModel.CorProfiler.JITInlining | src/Datadog.Trace.ClrProfiler.Native/cor_profiler.cpp:942-977 | the same, with the answer given |
| CorProfilerModel.CorProfiler.GetReJITParameters | src/Datadog.Trace.ClrProfiler.Native/cor_profiler.cpp:2866-2893 | the same, with the metadata of the rewrite callback |
| CorProfilerModel.CorProfiler.Shutdown | src/Datadog.Trace.ClrProfiler.Native/cor_profiler.cpp:728-746 | the same, with what the worker still requests |
| CorProfilerModel.CorProfiler.ProfilerDetachSucceeded | src/Datadog.Trace.ClrProfiler.Native/cor_profiler.cpp:748-770 | the same |
| CorProfilerModel.CorProfiler.ManagedAssemblyLoaded | src/Datadog.Trace.ClrProfiler.Native/cor_profiler.cpp:355-369 | the same |
| UtfLaws.Utf16Utf8RoundTripIff | src/Datadog.Trace.ClrProfiler.Native/miniutf.cpp:276-290 | to_utf16(to_utf8(w)) == w if and only if utf16_check(w) |
| UtfLaws.Utf8Utf32RoundTripIff | src/Datadog.Trace.ClrProfiler.Native/miniutf.cpp:268-298 | to_utf8(to_utf32(s)) == s if and only if utf8_check(s) |
| UtfLaws.Utf8Utf16RoundTripIff | src/Datadog.Trace.ClrProfiler.Native/miniutf.cpp:276-290 | to_utf8(to_utf16(s)) == s if and only if utf8_check(s) and s encodes no surrogates |
| UtfLaws.Utf32Utf8RoundTripIff | src/Datadog.Trace.ClrProfiler.Native/miniutf.cpp:268-298 | to_utf32(to_utf8(s)) == s if and only if utf32_check(s) |
| UtfLaws.PointsUtf16RoundTripIff | src/Datadog.Trace.ClrProfiler.Native/miniutf.cpp:63-77 | code points encoded as UTF-16 decode to themselves if and only if all are in range and none is a surrogate |
| UtfLaws.Points16InRange | src/Datadog.Trace.ClrProfiler.Native/miniutf.cpp:165-182 | what UTF-16 decodes to is in range and free of surrogates, whatever the input |
| UtfForm.Decode8Iff | src/Datadog.Trace.ClrProfiler.Native/miniutf.cpp:96-150 | decoding succeeds exactly on the byte sequences of RFC 3629, encoded surrogates included, and takes all of one |
| UtfForm.Encode8KeepsOrder | src/Datadog.Trace.ClrProfiler.Native/miniutf.cpp:35-61 | code points in order are encoded in order |
| UtfForm.PairSpelled | src/Datadog.Trace.ClrProfiler.Native/miniutf.cpp:63-77 | a point beyond 16 bits is the surrogate pair of RFC 2781 |
| UtfForm.Examples8 | src/Datadog.Trace.ClrProfiler.Native/miniutf.cpp:35-61 | the examples of RFC 3629 |
| UtfForm.Examples16 | src/Datadog.Trace.ClrProfiler.Native/miniutf.cpp:63-77 | an example of RFC 2781, and what stands for a point that is none |
| UtfLaws.Decode8OfEncode | src/Datadog.Trace.ClrProfiler.Native/miniutf.cpp:35-150 | decoding inverts encoding, whatever follows |
| UtfLaws.Encode8OfDecode | src/Datadog.Trace.ClrProfiler.Native/miniutf.cpp:35-150 | a decoded code point encodes to the bytes it came from |
| Utf.Decode8 | src/Datadog.Trace.ClrProfiler.Native/miniutf.cpp:96-150 | never looks past the terminator; a success advances within the string |
| Utf.Decode16 | src/Datadog.Trace.ClrProfiler.Native/miniutf.cpp:165-182 | the same for UTF-16 |
| Utf.DecodeNext8 | src/Datadog.Trace.ClrProfiler.Native/miniutf.cpp:203-217 | every step advances, by one unit on invalid input, and flags the replacement |
| Utf.DecodeNext16 | src/Datadog.Trace.ClrProfiler.Native/miniutf.cpp:219-233 | the same for UTF-16 |
| Utf.Utf8Check | src/Datadog.Trace.ClrProfiler.Native/miniutf.cpp:240-254 | the checking loop decides validity |
| Utf.Utf16Check | src/Datadog.Trace.ClrProfiler.Native/miniutf.cpp:255-258 | the same for UTF-16 |
| Utf.Utf32Check | src/Datadog.Trace.ClrProfiler.Native/miniutf.cpp:259-262 | the same for UTF-32 |
| Utf.ToUtf32 | src/Datadog.Trace.ClrProfiler.Native/miniutf.cpp:268-274 | the conversion loop yields the decoded points |
| Utf.ToUtf16 | src/Datadog.Trace.ClrProfiler.Native/miniutf.cpp:276-282 | the conversion loop yields their encodings |
| Utf.ToUtf8 | src/Datadog.Trace.ClrProfiler.Native/miniutf.cpp:284-290 | the conversion loop yields their encodings |
| Utf.ToUtf8From32 | src/Datadog.Trace.ClrProfiler.Native/miniutf.cpp:292-298 | the conversion loop yields the UTF-8 form of each point |
| CanonicalOrder.OrderCanonically | src/Datadog.Trace.ClrProfiler.Native/miniutf.cpp:387-411 | the in-place loop gives every maximal run sorted, for any class function |
| CanonicalOrder.RunsSorted | src/Datadog.Trace.ClrProfiler.Native/miniutf.cpp:404-408 | every maximal run is replaced by its stable sort |
| CanonicalOrder.SortingIsStable | src/Datadog.Trace.ClrProfiler.Native/miniutf.cpp:406-407 | stable: the elements of each class keep their order |
| CanonicalOrder.StableSortIsUnique | src/Datadog.Trace.ClrProfiler.Native/miniutf.cpp:406-407 | sorted and stable leave only one result, so the library sort can be no other |
| CanonicalOrder.ReorderedPermutes | src/Datadog.Trace.ClrProfiler.Native/miniutf.cpp:387-411 | the result is a permutation |
| CanonicalOrder.StartersStay | src/Datadog.Trace.ClrProfiler.Native/miniutf.cpp:392-396 | code points of class 0 stay in place |
| CanonicalOrder.NeighboursOrdered | src/Datadog.Trace.ClrProfiler.Native/miniutf.cpp:387-411 | neighbours that both have a class are ordered by it |
| CanonicalOrder.ReorderingIdempotent | src/Datadog.Trace.ClrProfiler.Native/miniutf.cpp:387-411 | reapplying the loop changes nothing |

## Left out

- The call-site mode of the profiler (`ProcessReplacementCalls`, `ProcessInsertionCalls`), the generated startup method and the IIS flags: fixed instruction sequences around metadata lookups, which add little once the list and its export are proved.
- Metadata calls: tokens are opaque numbers and name lookups are functions given as parameters. Creating a token or a signature is taken to succeed.
- 32-bit wrap-around of offsets and counters, allocation failures, header bit fields and the local signature token field: bodies are below 2^31 bytes. Displacements, lengths of regions and switch bases are taken modulo 2^32 as in the code.
- The importer's flag that skips resolving when the body has no branch: resolving a body without branches changes nothing.
- CallTargetTheorem.CallTargetPreservesMeaning: assumes that LogException returns, that clauses for class Exception catch every exception, that calls take and give as many values as their signatures say, and that the body is valid: no jmp or tail. prefix, returns outside protected regions, its own locals only. In bodies with try regions that end at the end of the body it speaks of the runs in which their clauses take neither the exception of the body nor one of the EndMethod region; `RethrownIff` and `EndCaughtIff` say that the other runs do leave the path.
- The machine handles exceptions in one pass: filters are predicates that are evaluated when their clause is met, not before inner finally handlers run. Threads, stack overflow and aborts are not modelled.
- CallTargetCallback.Callback: takes as parameters whether the managed profiler is loaded in the AppDomain, and what the metadata interface returns for the local signature. When the callback ignores that the step on the signature failed, the model stops with an undefined result: the first injected instruction, on which three clauses are then anchored, was never set.
- CallTargetArguments.ArrayArgsRun: assumes that newarr, box, stelem.ref and ldobj do what ECMA-335 says of them, or throw, and that they change no argument.
- LocalSignature.ModifyLocalSig: requires a signature whose count can be read, as the metadata interface returns it; what happens after an access outside the signature or the buffer is not modelled.
- SignatureParser.Cursor.ParseType: the code looks at the byte behind the end before it checks for the end; the model has an arbitrary readable byte there. `GetTypeFlags` and the matching of integration targets against parsed signatures are not part of this model.
- SignatureNames.SigTypeTokName: stated for trees of the supported grammar, which is what the parser has accepted; the code returns an empty name and does not advance on other bytes.
- SignaturePrinter.TryParseSignatureTypes: the loop is modelled on all bytes, a read behind the end as a byte that is no array element or an integer that cannot be decompressed; what is proved about its names leaves out BYREF and END bytes and counts or variable indices of more than one byte. Names and arities of types, with enclosing types, are lookups.
- The method handlers of a module are values in its map: that two callers share one object is not captured.
- Callbacks are atomic steps in CallTarget mode. The locks and the race between detaching and a running callback are not modelled. Shutting down and waiting for the worker is one step.
- RejitDelivery.DeliveredInOrder: assumes no batch has a size that is -1 as a 32-bit integer; requests the runtime answers with an error count as delivered, as the worker does not retry.
- The library's stable sort is its specification (`StableSorted`), which `StableSortIsUnique` shows to be the only one.
- Lower-casing, decomposition and composition in `miniutf.cpp`: decided by the contents of data tables.
- Reading integrations, environment variables, logging, statistics and everything managed: I/O and plumbing.
