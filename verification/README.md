# Proofs about the Prajna compiler's middle end and its runtime library

Prajna lowers its structured IR to blocks of loads, stores and jumps by a chain of passes in
`prajna/transform`, over a graph of values that know their users, and its runtime library in
`builtin_packages` is written in the language itself. This project models those passes and the containers
and counted pointers of the library, and proves what they promise. `dafny verify dfyconfig.toml` checks all
of it.

**Flattening** (`StructuredIr`, `Flatten`, `FlatMachine`, `FlattenCorrect`, `FlattenShape`,
`FlattenTheorem`, `Cfg`, `CfgCorrect`, `FunctionTheorem`). A body of nested Block, If, While, For, Break,
Continue and Return has a structured meaning; what its straight-line instructions mean, over any state, is a
parameter. The list of labels and jumps that the in-place pass makes has the meaning of a machine with a
program counter, and the cut list that of a machine over blocks. A simulation through the whole recursion,
with Break and Continue patched through the uses of their loop, shows that each stops exactly when the one
before it does and with the same outcome.

**The use-def graph** (`UseDef`, `IrBlock`). Operands and use lists as mutable fields of values; every edit
keeps each use listed exactly once, and the replace-all-uses loops leave the old value without uses.

**Lowering to pointers** (`PointerIr`, `PointerConvert`, `PointerConvertRuns`, `PointerAddress`,
`PointerConstants`, `PointerLoads`, `PointerLoadRuns`, `PointerHoist`, `PointerEdit`, `PointerPlaced`,
`PointerInFront`, `PointerLowering`, `PointerModes`, `PointerSteady`, `PointerFresh`, `PointerTheorem`). A function is a table of nodes, which
name each other as operands, and lists of them in blocks. Nodes that stand for places (local variables,
fields, array elements, indexed pointers, dereferences) become pointer computations one conversion at a
time, each with a dereference inserted before every user, operand by operand; at the end dereferences become
loads and stores, and what still allocates in a later block moves to the first. Every conversion is exact for a meaning in
which a dereference is looked through by the nodes that extend its place. That meaning and the one in which
a node stands for the place it computed when it ran agree as long as no run goes through a stale place. An
analysis of the code alone (`Steadfast`), of the places that are still what they were when they were
computed, rules stale ones out; a program that takes each field, index or address in the block of its
dereference with nothing written in between passes it. The code re-reads the pointer, and
`StalePointerChanges` is a program it takes on which that shows. A run whose
declarations make fresh variables is compared with one whose slots are allocated once by an order of being
less defined, in which operations are monotone. Nodes are numbered in the order they stand in the function,
so that operands come before their users; a converted node keeps its name.

**Call graph, inlining, cloning** (`CallGraph`, `InlineIr`, `Inline`, `InlineCalls`, `InlineAtOnce`,
`InlineBindings`, `InlineCorrect`, `InlineTheorem`, `InlineModes`, `InlineSafe`, `InlineSorted`, `Cloner`).
The sort is a depth-first search over any call graph. The pass inlines one call after the other, each with
the body its callee has by then; which calls it leaves is decided by the call graph, and a module in an order
that the sort may leave (`InlineCallSurvives`) shows that it can leave one. `InlineSorted` puts the functions
of a module in the order of the sort and follows both passes through. Inlining puts the argument in place of the parameter, so
it is exactly call by name; by name and by value agree where no argument that reads a cell is passed to a
parameter that is read after memory may have changed (`SafeModule`), which is what a callee that writes the
variable it was passed breaks. Fuel bounds loops and calls of functions that are not
inlined, so that a call and its copy need the same fuel. The cloner is a memoised copy of a cyclic graph.

**Reference counting** (`RefCountIr`, `RefCountPass`, `RefCountEdit`, `RefCountLayout`, `RefCountCorrect`,
`RefCountPlaces`, `RefCountTheorem`, `RefCountTypes`). The five insertion passes as in-place edits of nested blocks, and an
account of every cell's count over every run. The passes conserve counts for bodies in which no counted
variable of an enclosing block is live across a nested Return, Break or Continue; for any other body
`CountsAccounted` and `NestedReturnLeaks` say exactly what a run leaves counted too many. Loop conditions
declare no counted variable, and an assignment's source is not its target; `SelfAssignment` says when a
variable assigned to itself is freed.

**The runtime library** (`Ptr`, `PtrIdeal`, `List`, `Sorting`, `HashDict`, `HashSet`, `Heap`, `Tensor`, `DynamicArray`,
`I64`). Both operands of `&&` and `||` are evaluated, so a guard such as `j >= 0 && this[j] > key` reads in
front of the array; such a read gives any value and the answer must not depend on it. A returned counted
value is copied and the local finalized, as the compiler inserts it, and the methods of `Ptr` are proved to
have their net effect in spite of that.

Where the code and its documentation or names differ the model follows the code: `HashDict` takes the
truncated remainder of the cast of its key, so a negative key that is not a multiple of the number of
buckets has no bucket (`IndexInTable`); `ToUndef` and `FromUndef` do not copy the size; `FreeNodes` leaves
one node; `CeilPowerOf2` of zero is one, and above 2^62 it does not end; the check of a function's branches
treats an empty list as not terminated, although it looks at its last value.

## Model

| member | source | states |
|---|---|---|
| FlattenTheorem.FlattenPreservesMeaning | prajna/transform/flattern_block.hpp:17-210 | for every well-scoped body and start state, the label and jump list stops exactly when the structured body does and with the same outcome, so one runs forever exactly when the other does |
| FlattenTheorem.FlatForVisitsRange | prajna/transform/flattern_block.hpp:126-204 | a flattened `for` whose body has no Break of its own and that runs to its end has given its index exactly the indices of [first, last), once each and in order, for all i64 bounds, whatever the body does to the index or continues |
| FlattenTheorem.FlatForVisits | prajna/transform/flattern_block.hpp:126-204 | however a flattened `for` stops, it has given its index the first indices of [first, last), once each and in order, and all of them unless its body broke or returned |
| FlattenTheorem.NoBreak | prajna/transform/flattern_block.hpp:126-204 | a body in which no Break of a loop stands never ends in one, so that such a loop runs its whole range or returns |
| FlattenTheorem.ForVisits | prajna/transform/flattern_block.hpp:126-204 | a `for` that is left early has visited the first indices of its range only; one that ends has visited them all, in order |
| I64.PreDecrementWrapsBack | prajna/transform/flattern_block.hpp:140-155 | the counter that starts at first - 1 and is incremented before the test is first again, even at the least i64 |
| FlattenCorrect.SimBody | prajna/transform/flattern_block.hpp:17-210 | placed anywhere in a list with unique labels, the code of a body shows each outcome of the body at the right place: its end, the target its Break or Continue was patched to, or a return |
| FlattenCorrect.SimOne | prajna/transform/flattern_block.hpp:17-210 | the same of one instruction |
| FlattenCorrect.SimIf | prajna/transform/flattern_block.hpp:36-67 | the code of an `if` runs the branch its condition picks and goes on after the merge label |
| FlattenCorrect.SimWhile | prajna/transform/flattern_block.hpp:68-125 | the code of a `while` enters by its condition label and shows every outcome of the loop, Break and Continue by the patched jumps |
| FlattenCorrect.SimFor | prajna/transform/flattern_block.hpp:126-204 | from the condition label with the counter one below i, the code of a `for` shows the outcome of the iterations from i on |
| FlattenShape.FlattenShaped | prajna/transform/flattern_block.hpp:17-210 | in every list flattening makes, labels are unique and fresh, every jump goes to a label of the list, and the value before each label is a branch |
| Flatten.FlattenLeavesOnly | prajna/transform/flattern_block.hpp:99-118 | after flattening a body, a Break or Continue is left only for the loops around it |
| Flatten.FlattenAppend | prajna/transform/flattern_block.hpp:17-34 | flattening a list is flattening its parts in order with consecutive labels |
| Flatten.FlatternBlockImpl | prajna/transform/flattern_block.hpp:17-210 | the in-place edit of the list, iterator by iterator, leaves exactly the flattened list |
| Flatten.PatchUses | prajna/transform/flattern_block.hpp:99-118 | the uses of a loop become jumps: each Break to the label after it, each Continue to its condition label, and nothing else changes |
| Flatten.FlatternNested | prajna/transform/flattern_block.hpp:20-35 | a nested block is flattened and its values take its place |
| Flatten.FlatternIf | prajna/transform/flattern_block.hpp:36-67 | an `if` becomes the branch, both labelled sides and the merge label |
| Flatten.FlatternWhile | prajna/transform/flattern_block.hpp:68-125 | a `while` becomes its entry jump, condition and body, with its Breaks and Continues patched |
| Flatten.FlatternFor | prajna/transform/flattern_block.hpp:126-204 | a `for` becomes its counter code and body, with its Breaks and Continues patched; one marked for the GPU stays |
| Flatten.GpuForKept | prajna/transform/flattern_block.hpp:126-134 | a `for` marked for the GPU stays one value with its loop, index and bounds, and its body is flattened |
| FlatMachine.RunDeterministic | prajna/transform/flattern_block.hpp:17-210 | two runs of a list that both stop, stop in the same configuration |
| CfgCorrect.BlocksPreserveRuns | prajna/transform/flattern_block.hpp:212-254 | cut into blocks, retargeted and truncated, the list returns exactly what it returned, so one runs forever exactly when the other does: no fall-through is lost |
| CfgCorrect.StepAgrees | prajna/transform/flattern_block.hpp:212-232 | one step of the flat list is matched by at most one step of the blocks |
| CfgCorrect.CutAt | prajna/transform/flattern_block.hpp:212-232 | each value that is not a label lies in the block of the last label before it, at its distance from it, retargeted |
| CfgCorrect.BlockOfLabel | prajna/transform/flattern_block.hpp:217-225 | a label's users are pointed at the block that follows it |
| CfgCorrect.TruncateKeeps | prajna/transform/transform.h:328-340 | truncation keeps every value up to and including the first terminator |
| Cfg.Function.SplitBlock | prajna/transform/flattern_block.hpp:212-232 | the pass over the list, moving values into the last block and redirecting the uses of each label, gives exactly the cut and retargeted blocks |
| Cfg.Function.RemoveValuesAfterReturn | prajna/transform/transform.h:328-340 | every block is cut after its first Return, jump or branch |
| FunctionTheorem.FunctionPreserved | prajna/transform/transform.h:739-741 | a body that passes the check of its branches, flattened, cut and truncated, returns exactly the values of the structured body in the same states, and every block is well formed |
| FunctionTheorem.FinalBlocksWellFormed | prajna/transform/flattern_block.hpp:236-254 | every block has exactly one terminator, at its end, and its targets are blocks of the function |
| FunctionTheorem.AllBranchIsTerminated | prajna/lowering/statement_lowering_visitor.hpp:390-416 | the check in place, inserting after each `if` it accepts, gives the answer and the body of its specification |
| FunctionTheorem.CheckedIff | prajna/lowering/statement_lowering_visitor.hpp:390-416 | the check accepts exactly the bodies whose last value is a Return of the function's type, a block it accepts, or an `if` both of whose sides it accepts; an empty list is refused |
| FunctionTheorem.CheckedCompleted | prajna/lowering/statement_lowering_visitor.hpp:390-416 | after each If that stands last in an accepted body the check adds the declaration and a Return of what it declares, and nothing else |
| FunctionTheorem.LoopRefused | prajna/lowering/statement_lowering_visitor.hpp:390-416 | a `while` in the last place is refused even if it always returns |
| FunctionTheorem.CheckedSame | prajna/lowering/statement_lowering_visitor.hpp:401-404 | a body that is accepted never runs off its end, so the returns the check appends are never reached and no run changes |
| FunctionTheorem.CheckedEndsInReturn | prajna/lowering/statement_lowering_visitor.hpp:390-416 | the flattened body of a function that passed ends in a return |
| FunctionTheorem.FlatternBlock | prajna/transform/flattern_block.hpp:236-254 | the pass on one function leaves exactly the cut blocks of its flattened body |
| UseDef.Value.SetOperand | prajna/ir/value.hpp:554-568 | the graph changes in that operand only, and every use list still holds each use exactly once |
| UseDef.Value.OperandResize | prajna/ir/value.hpp:545 | the operands are kept or filled with empty ones, and the use lists stay consistent exactly if every operand dropped is empty |
| UseDef.Value.Finalize | prajna/ir/value.hpp:570-582 | a value nothing uses leaves the use lists of all its operands and no other use is touched |
| UseDef.Value.ReplaceAllUses | prajna/transform/transform_to_ssa_pass.hpp:68-80 | over a copy of the use list, every operand that was the value becomes the other one and the value is left without uses |
| UseDef.Value.ReplaceByDereferences | prajna/transform/transform_to_ssa_pass.hpp:68-85 | every use by another value gets a dereference of its own, whose one use it is; these are new, as many as the uses, and nothing else is new; the old value ends without uses |
| UseDef.DereferenceUse | prajna/transform/transform_to_ssa_pass.hpp:69-80 | one use gets a new dereference and nothing else changes |
| UseDef.SetOperandLinked | prajna/ir/value.hpp:554-568 | setting one operand keeps the link between operands and use lists |
| UseDef.SetInLists | prajna/ir/value.hpp:554-568 | the use leaves the list of the old value, which keeps its order, and joins that of the new one at its end; no other list changes |
| UseDef.FinalizeLinked | prajna/ir/value.hpp:570-582 | dropping a value keeps the link between operands and use lists |
| IrBlock.Block.ReplaceInBlock | prajna/transform/utility.hpp:27-34 | the new value takes the place of the old one in the block |
| CallGraph.Module.TopologicalSortFunction | prajna/transform/transform.h:558-571 | on every call graph the order is a permutation of the functions in which every referenced function that does not lead back to its user stands before it |
| CallGraph.Module.TopologicalSortFunctionVisit | prajna/transform/transform.h:531-556 | the search ends, keeps what is listed, lists f, and keeps the order |
| CallGraph.SortedAcyclic | prajna/transform/transform.h:531-571 | without recursion every referenced function stands before its user |
| RefCountTheorem.CountsConserved | prajna/transform/reference_count.hpp:195-201 | on every run of a body that leaves no block from under a counted variable that is left with it, nothing freed is touched after the five passes, each cell's count is the number of live variables and pending results that hold it, and at the end it is the count at entry plus any returned reference |
| RefCountTheorem.CountsAccounted | prajna/transform/reference_count.hpp:56-96 | on every run of any body nothing freed is touched; what a run that ends leaves counted too many is exactly what the variables held from under which its loops were broken or continued, and it is conserved exactly if that is nothing |
| RefCountTheorem.LocalCountsBalance | prajna/transform/reference_count.hpp:195-201 | a function with no counted variables around it leaves the counts it found, plus those of its result |
| RefCountTheorem.BodyKeeps | prajna/transform/reference_count.hpp:35-201 | a block keeps the account of live variables, pending results and lost cells on every run, whatever way it is left |
| RefCountTheorem.OneKeeps | prajna/transform/reference_count.hpp:35-191 | so does one value with the calls inserted around it |
| RefCountTheorem.LoopKeeps | prajna/transform/reference_count.hpp:79-85 | so does a loop whose condition declares no counted variable |
| RefCountTheorem.SelfAssignment | prajna/transform/reference_count.hpp:124-126 | what the passes make of assigning a variable to itself touches freed memory exactly if some cell has no other holder, because the target is finalized before the source is copied |
| RefCountTheorem.NestedReturnLeaks | prajna/transform/reference_count.hpp:56-96 | a run left by any nested Return ends with the cells of the variables live around that Return still counted, so counts are conserved exactly if those of the enclosing blocks hold nothing and its loops lost nothing |
| RefCountTheorem.NestedReturnExample | prajna/transform/reference_count.hpp:56-96 | a variable and a nested Return under it: its cells stay counted |
| RefCountTheorem.NestedBreakExample | prajna/transform/reference_count.hpp:56-96 | a loop with a variable and a nested Break under it: each entry leaves the variable's cells counted |
| RefCountLayout.InsertedRuns | prajna/transform/reference_count.hpp:195-201 | the five passes one after the other leave the code that puts all calls of a value around it |
| RefCountEdit.InsertReferenceCount | prajna/transform/reference_count.hpp:195-201 | the five in-place passes in their order leave the list of the specification, in which every inserted call stands where `RefCountPlaces.Inserted` says |
| RefCountPlaces.InsertedCalls | prajna/transform/reference_count.hpp:35-201 | around each value up to the first terminator stand exactly: the initialization after a declared variable; the finalization of the target and then the copy of the source before a write; the finalization of a call result after its user, the last called first, or at once; at the terminator the copy of a returned variable and then the finalizations of the variables in order |
| RefCountPlaces.FinalizedLocals | prajna/transform/reference_count.hpp:56-96 | the same of the last pass alone |
| RefCountEdit.InsertAround | prajna/transform/reference_count.hpp:35-54 | a pass over a list and the blocks in it inserts exactly its calls around each value |
| RefCountEdit.InsertFinalizeLocalVariableForBlock | prajna/transform/reference_count.hpp:56-96 | right before a block's first terminator, or at its end, stands one finalization for each variable that the block declares before it, in the order of the declarations, and so it is in the blocks inside; nothing else changes |
| RefCountTypes.FinalizeReversesCopy | prajna/lowering/statement_lowering_visitor.hpp:111-168 | for types that copy what they finalize, finalizing calls the same fields as copying in exactly the opposite order |
| RefCountTypes.FinalizeCallsExactly | prajna/lowering/statement_lowering_visitor.hpp:111-140 | for every type, finalizing calls exactly the fields whose own type finalizes, at whatever depth, also where nothing is copied |
| RefCountTypes.FinalizeOrder | prajna/lowering/statement_lowering_visitor.hpp:115-140 | each once, a value before its fields, and a later field with all in it before an earlier one |
| RefCountTypes.CopyOrder | prajna/lowering/statement_lowering_visitor.hpp:148-168 | copying calls each once, a value after its fields, and an earlier field before a later one |
| RefCountTypes.CopyCallsExactly | prajna/lowering/statement_lowering_visitor.hpp:148-168 | copying calls exactly the fields whose own type copies, at whatever depth |
| PointerTheorem.LoweringCorrect | prajna/transform/transform.h:714-727 | in a program that passes the analysis of its places, every run of the source that uses no undefined place is kept by the lowered code, with every variable in a slot made once: wherever the source gives a number or pointer in its result or memory, so does the lowered code |
| PointerSteady.SteadfastRuns | prajna/transform/transform_to_ssa_pass.hpp:87-222 | in such a program no run goes through a stale place |
| PointerSteady.LocalSteadfast | prajna/transform/transform_to_ssa_pass.hpp:87-222 | a program passes if each field, index or address is taken in the block of its dereference with nothing that the place depends on changed in between |
| PointerTheorem.StrictRunKept | prajna/transform/transform.h:714-727 | the same of a single run that happens to meet no stale place, in any program |
| PointerTheorem.Lower | prajna/transform/transform.h:714-727 | the pass is run on a program: only loads and stores are left, and if the program passes the analysis of its places, what the pass leaves keeps every run of the source that uses no undefined place |
| PointerTheorem.StalePointerChanges | prajna/transform/transform_to_ssa_pass.hpp:97-111 | a pointer variable written between its dereference and the field taken from it: the lowering takes the program, whatever it makes of it gives the field of the second object where the source gives that of the first, and the two are the same exactly if the objects hold the same |
| PointerTheorem.StaleNotSteadfast | prajna/transform/transform_to_ssa_pass.hpp:97-111 | no annotation of its blocks makes that program pass |
| PointerTheorem.LowerStale | prajna/transform/transform_to_ssa_pass.hpp:97-111 | the pass is run on that program: the source returns the field of the first object and what the pass leaves returns that of the second |
| PointerLowering.Function.ApplySSATransformations | prajna/transform/transform.h:714-727 | the lowering ends, leaves only pointers, loads and stores, allocates in the first block only, and keeps every run that is not stuck; in the result every constant stands earlier in the block of its user or in an earlier block |
| PointerLowering.Function.TopAlloca | prajna/transform/transform.h:573-591 | the in-place pass over the blocks leaves exactly the hoisted lists |
| PointerHoist.HoistingPreserves | prajna/transform/transform.h:573-591 | moving the allocations out of loops and branches to the front of the first block keeps every run, also when a jump leads back to that block |
| PointerHoist.HoistedOnTop | prajna/transform/transform.h:573-591 | afterwards no later block allocates, and the first allocates exactly what any block did |
| PointerHoist.HoistedListed | prajna/transform/transform.h:579-586 | no value is lost or listed twice |
| PointerHoist.HoistedOrder | prajna/transform/transform.h:579-586 | the first block ends with what it held, and every later block keeps the order of what is no allocation |
| PointerHoist.ListAhead | prajna/transform/transform.h:579-586 | a block without its allocations does what it did, once their slots are made |
| PointerLowering.Function.LowerPlaces | prajna/transform/transform.h:714-723 | the fixpoint loop ends on every program: each round that reports a change leaves fewer nodes to lower, or places constants that no later round places; at its end nothing is left to lower and every constant stands in front of its users |
| PointerLowering.Function.Round | prajna/transform/transform.h:717-722 | a round lowers something whenever anything is left, although the passes over indices report changes on nodes they skip; otherwise it only places constants and reports a change exactly if it placed one |
| PointerLowering.Function.InsertValueToBlock | prajna/transform/transform_to_ssa_pass.hpp:16-44 | afterwards every constant stands earlier in the block of its user or in an earlier block, and a change is reported exactly if a list changed |
| PointerLowering.Function.FillBlock | prajna/transform/transform_to_ssa_pass.hpp:20-39 | the same of one block, given what the earlier blocks hold |
| PointerLowering.Function.MissingOperands | prajna/transform/transform_to_ssa_pass.hpp:26-37 | the constants among a node's operands that were not seen, each once |
| PointerPlaced.ConstantsPlaced | prajna/transform/transform_to_ssa_pass.hpp:24-37 | after the pass, for every listed value and every operand of it that is a constant, the constant stands earlier in its block or in an earlier block |
| PointerPlaced.ConstantsOnly | prajna/transform/transform_to_ssa_pass.hpp:24-37 | nothing else changes: the old values stand in their order, and what was put in front of one is a constant operand of it that stands nowhere before, once, in the order of the operands |
| PointerPlaced.LoadedPlaced | prajna/transform/transform_to_ssa_pass.hpp:224-256 | turning a dereference into loads and stores keeps constants in front of their users, if no dereference has a constant for its pointer, as no typed program has |
| PointerPlaced.HoistedPlaced | prajna/transform/transform.h:573-591 | so does moving the allocations |
| PointerLowering.Function.ConvertVariables | prajna/transform/transform_to_ssa_pass.hpp:46-85 | every local variable is gone, runs are kept, and a change is reported exactly if there was one |
| PointerLowering.Function.ConvertExtensions | prajna/transform/transform_to_ssa_pass.hpp:87-192 | every field, element or indexed pointer that sat on a dereference is converted, others are skipped, and runs are kept; the pass over fields reports a change exactly if some field sat on a dereference, those over indices exactly if there was an index |
| PointerLowering.Function.ConvertAddresses | prajna/transform/transform_to_ssa_pass.hpp:194-222 | every address of a dereference is gone, runs are kept, and a change is reported exactly if there was one |
| PointerLowering.Function.LoadAndStore | prajna/transform/transform_to_ssa_pass.hpp:224-256 | every dereference becomes loads and stores, and runs are kept |
| PointerLowering.Function.EditUses | prajna/transform/transform_to_ssa_pass.hpp:68-80 | the uses of a node are edited one user and one operand after the other, each new node put in front of its user, and together are what editing all at once makes of the table and the lists |
| PointerLowering.Function.EditUser | prajna/transform/transform_to_ssa_pass.hpp:68-80 | the same of the operands of one user |
| PointerLowering.Function.Convert | prajna/transform/transform_to_ssa_pass.hpp:46-192 | editing every use and then replacing the node in its block, or putting a variable's allocation at the front, is the conversion that is proved to keep runs |
| PointerLowering.Function.RemoveAddress | prajna/transform/transform_to_ssa_pass.hpp:194-222 | editing every use and then removing the address is the removal that is proved to keep runs |
| PointerLowering.Function.LoadOne | prajna/transform/transform_to_ssa_pass.hpp:224-256 | editing every use and then erasing the dereference is the step that is proved to keep runs |
| PointerEdit.ExpandDone | prajna/transform/transform_to_ssa_pass.hpp:68-80 | the list that the edits of single operands leave is the one in which every user has its dereferences in front, in the order of its operands |
| PointerEdit.LoadListDone | prajna/transform/transform_to_ssa_pass.hpp:236-250 | the same of loads, with none for an operand that is written through |
| PointerInFront.ConvertedLists | prajna/transform/transform_to_ssa_pass.hpp:46-192 | right in front of each user of a converted node stands a new dereference for each operand that was the node, in the order of the operands; a converted variable leaves its block and its allocation stands at the front of the first; the rest keeps its order |
| PointerInFront.LoadedLists | prajna/transform/transform_to_ssa_pass.hpp:224-256 | right in front of each user of a dereference stands a load for each operand that reads it, in the order of the operands; the dereference leaves its block, and the rest keeps its order |
| PointerLowering.SomeSits | prajna/transform/transform.h:714-723 | while a field, index or address is left and no variable is, one of least rank sits on a dereference |
| PointerLowering.RoundProgress | prajna/transform/transform.h:716-723 | a round of the passes leaves strictly fewer nodes to lower |
| PointerConvertRuns.ConversionPreserves | prajna/transform/transform_to_ssa_pass.hpp:46-192 | replacing one variable, field, element or indexed pointer by its pointer, with a dereference in front of every use, keeps every run |
| PointerConvertRuns.NodeRuns | prajna/transform/transform_to_ssa_pass.hpp:97-111 | the value the new pointer node computes is the place the old node stood for |
| PointerConvertRuns.ExpandRuns | prajna/transform/transform_to_ssa_pass.hpp:68-80 | a block and its expansion run alike |
| PointerConvert.ReadDeref | prajna/transform/transform_to_ssa_pass.hpp:68-80 | an inserted dereference gives its user what the converted node gave it, read, written or extended |
| PointerConvert.ReadSame | prajna/transform/transform_to_ssa_pass.hpp:46-192 | every other operand gives what it gave |
| PointerConvert.ConvertedWellFormed | prajna/transform/transform_to_ssa_pass.hpp:46-192 | a conversion keeps operands before users and inserted dereferences on pointers |
| PointerAddress.RemovalPreserves | prajna/transform/transform_to_ssa_pass.hpp:194-222 | replacing the users of an address of a dereference by its pointer keeps every run |
| PointerAddress.ReadBehind | prajna/transform/transform_to_ssa_pass.hpp:200-214 | the address gives what the pointer gives |
| PointerAddress.WithoutWellFormed | prajna/transform/transform_to_ssa_pass.hpp:194-222 | the removal keeps operands before users |
| PointerConstants.ConstantsPreserve | prajna/transform/transform_to_ssa_pass.hpp:16-44 | placing constants changes no run |
| PointerConstants.ConstantsOnce | prajna/transform/transform_to_ssa_pass.hpp:16-44 | right after the pass ran it finds nothing to place |
| PointerLoadRuns.LoadingPreserves | prajna/transform/transform_to_ssa_pass.hpp:224-256 | turning one dereference into loads before its readers and stores for its writers keeps every run |
| PointerLoadRuns.ReadPointer | prajna/transform/transform_to_ssa_pass.hpp:243-249 | a dereference gives what a load from its pointer gives |
| PointerLoads.LoadedNodeOk | prajna/transform/transform_to_ssa_pass.hpp:224-256 | the step keeps the form the next one needs |
| PointerModes.RunsAgree | prajna/transform/transform.h:714-727 | a run that never goes through a stale place is the same whether places are taken as recorded or as the lowering sees them |
| PointerModes.LoweredRuns | prajna/transform/transform.h:714-727 | where only pointers are left the two views are one |
| PointerFresh.LessRun | prajna/transform/transform_to_ssa_pass.hpp:61-62 | one slot for the whole run, allocated at the front of the first block, gives at least what a new one at each declaration gives |
| PointerFresh.LessUpdate | prajna/transform/transform_to_ssa_pass.hpp:46-85 | writing keeps the order of being less defined |
| Cloner.FunctionCloner.CloneFunction | prajna/ir/cloner.hpp:40-73 | the copy ends on cyclic jumps and is isomorphic: every reachable node has one new copy of its kind with the copies of its operands in order, every node created is the copy of one, and callees are shared |
| Cloner.FunctionCloner.Visit | prajna/ir/cloner.hpp:405-413 | a visit copies what was not copied, leaves what was, and completes everything new |
| Cloner.FunctionCloner.VisitContainer | prajna/ir/cloner.hpp:28-38 | a block or jump is registered before what it names, and ends with the copies of all its operands |
| Cloner.FunctionCloner.VisitInstruction | prajna/ir/cloner.hpp:405-413 | any other node is created once, after its operands |
| Cloner.WalksCorrespond | prajna/ir/cloner.hpp:40-73 | walking from a copy along any path of operands ends at the copy of where the same walk from the original ends |
| Cloner.RegisterKeeps | prajna/ir/cloner.hpp:28-35 | giving a node its copy keeps the dictionary one to one |
| InlineSafe.InliningCorrect | prajna/transform/inline_function.hpp:19-91 | over any module whose graph of inline calls has no cycle, and in which no callee reads a cell it was passed after it may have changed memory, the pass keeps every call from outside: the same result and memory, or the same fuel needed; whether or not inline calls are left |
| InlineSafe.FunctionSafe | prajna/transform/inline_function.hpp:41-51 | in such a module every argument reads the same wherever its parameter is used, on every run |
| InlineSafe.ClobberedArgument | prajna/transform/inline_function.hpp:41-51 | a callee that writes the cell it was passed: before the pass the caller gets what the cell held, after it what it holds after the write; the same exactly if the write leaves the cell alone |
| InlineSafe.ClobberSafe | prajna/transform/inline_function.hpp:41-51 | that module meets the condition exactly if the write is pure |
| InlineSafe.NoCellSafe | prajna/transform/inline_function.hpp:41-51 | a module in which no inlined call is passed a cell meets the condition |
| InlineModes.CallAgrees | prajna/transform/inline_function.hpp:41-51 | where arguments read the same wherever their parameters are used, by value and by name are one |
| InlineTheorem.FunctionSame | prajna/transform/inline_function.hpp:19-91 | with arguments read where the parameters are used, every function gives exactly what it gave, inlined or not, for any acyclic graph of inline calls |
| InlineTheorem.ModuleCall | prajna/transform/inline_function.hpp:23-28 | so does the body of a callee that is copied before its own turn |
| InlineBindings.FunctionCovers | prajna/transform/inline_function.hpp:41-51 | a call left in a copy, with its arguments rewritten, gives what it gave in the callee |
| InlineTheorem.SplicedRuns | prajna/transform/inline_function.hpp:29-86 | the block in place of a call does what the call did |
| InlineCorrect.SpliceRuns | prajna/transform/inline_function.hpp:31-51 | a copy with its arguments in place of the parameters runs as the callee does, and touches no name but its own |
| InlineCalls.NoInlineCallLeft | prajna/transform/inline_function.hpp:19-91 | one pass leaves no call of a defined inline function in a function exactly if, of the inline functions it calls, those before it are left without such calls and the others have none |
| InlineCalls.PassOnePlain | prajna/transform/inline_function.hpp:21-91 | the same of the edits of one function, from what its callees are by then |
| InlineCalls.SortedCalleesFirst | prajna/transform/transform.h:738-739 | the sort puts every inline function before its callers if none leads back to a caller |
| InlineCalls.SortedLeavesNone | prajna/transform/transform.h:738-739 | then no call of a defined inline function is left anywhere |
| InlineCalls.SortedRanked | prajna/transform/transform.h:738-739 | and the order shows that the graph of inline calls has no cycle |
| InlineCalls.InlineCallSurvives | prajna/transform/inline_function.hpp:23-28 | a module with an acyclic inline call graph, in an order the sort may leave, in which the pass leaves an inline call |
| InlineSorted.SortedInliningCorrect | prajna/transform/transform.h:738-739 | sorting and then inlining: if no inline function leads back to a caller no inline call is left, and if no callee is passed a cell that it reads after memory may have changed, every function gives at its new place what it gave |
| InlineSorted.SortAndInline | prajna/transform/transform.h:738-739 | the two passes run one after the other leave no inline call in a module in which none leads back to a caller |
| InlineSorted.ReorderedSorted | prajna/transform/transform.h:558-571 | the functions in the order the sort leaves, renumbered by their places, stand in the order that the results on inlining ask for |
| InlineSorted.MovedRuns | prajna/transform/transform.h:558-571 | a function of the reordered module runs as it did |
| InlineAtOnce.PassAt | prajna/transform/inline_function.hpp:21-91 | where callees come first, inlining the calls one after the other is replacing them all at once |
| Inline.Module.InlineFunction | prajna/transform/inline_function.hpp:19-91 | the pass edits one function after the other and one call after the other, each with the body the callee has by then, and reports a change exactly if some function had a call to inline |
| Ptr.AllocationsAreSafe | builtin_packages/_ptr.prajna:140-299 | over every run from an empty memory, no freed block is touched, and each object and its control block are freed once if no Ptr, or no handle at all, holds them, and not at all otherwise |
| PtrIdeal.RunsAsSeen | builtin_packages/_ptr.prajna:67-299 | over every run the handles are those of a memory without counts: of the same kind, to the same object or null, with the size their object was allocated with unless they came through ToUndef or FromUndef; an object is freed exactly if no Ptr to it is left, and as many of its elements have been finalized as its last Ptr knew of |
| PtrIdeal.SizesKept | builtin_packages/_ptr.prajna:140-299 | without ToUndef and FromUndef every handle that is not null has the size of its allocation, and each element of an object is finalized once when its last Ptr goes, and not before |
| PtrIdeal.RetypedForgets | builtin_packages/_ptr.prajna:80-95 | an object whose last Ptr came through ToUndef or FromUndef is freed without its elements being finalized |
| Ptr.RunsAreSafe | builtin_packages/_ptr.prajna:140-299 | over every run the counts are the numbers of live handles that are not null |
| Ptr.StepKeeps | builtin_packages/_ptr.prajna:67-299 | every operation keeps the counts, the frees and the absence of faults |
| Ptr.FreedByLastPtr | builtin_packages/_ptr.prajna:153-171 | an object is freed by exactly the step that finalizes the last Ptr to it |
| Ptr.LockIffAlive | builtin_packages/_ptr.prajna:217-228 | Lock gives a Ptr that is not null exactly if a Ptr to the object is alive |
| Ptr.LeaveKeeps | builtin_packages/_ptr.prajna:153-171 | finalizing a handle keeps the account |
| Ptr.JoinKeeps | builtin_packages/_ptr.prajna:149-151 | copying a handle keeps the account |
| Ptr.Runtime.PtrFinalize | builtin_packages/_ptr.prajna:153-171 | the counts change, the elements are finalized and the frees happen as the specification says |
| Ptr.Runtime.WeakFinalize | builtin_packages/_ptr.prajna:281-289 | the same of a WeakPtr |
| Ptr.Runtime.Allocate | builtin_packages/_ptr.prajna:175-186 | the initialization of the local, the copy on return and its finalization leave exactly one new handle |
| Ptr.Runtime.FromPtr | builtin_packages/_ptr.prajna:292-299 | the net effect is one more weak handle and a dropped control block |
| Ptr.Runtime.Lock | builtin_packages/_ptr.prajna:217-228 | the net effect is one more strong handle, or a null one if the object has expired |
| Ptr.Runtime.Retype | builtin_packages/_ptr.prajna:80-95 | ToUndef and FromUndef add a strong handle, whose size is zero |
| Sorting.SortsStably | builtin_packages/sort.prajna:1-15 | insertion sort leaves the elements sorted and those of each rank in their order |
| Sorting.StableSortUnique | builtin_packages/sort.prajna:1-15 | being sorted with the same elements of each rank in the same order leaves no choice |
| Sorting.SortPermutes | builtin_packages/sort.prajna:1-15 | the elements are permuted |
| Sorting.Sort | builtin_packages/sort.prajna:3-15 | the in-place loops on an array leave exactly the insertion sort of what it held, whatever the read before the first element gives |
| Sorting.InsertAt | builtin_packages/sort.prajna:5-14 | the key takes the place after the last element that is not greater |
| List.List.Sort | builtin_packages/sort.prajna:65-84 | the list keeps its nodes and links, and its values become their insertion sort |
| List.List.PushFront | builtin_packages/list.prajna:64-66 | the new node follows the head sentinel and every link stays inverse to its opposite |
| List.List.PushBack | builtin_packages/list.prajna:68-70 | the value is appended |
| List.List.PopFront | builtin_packages/list.prajna:74-76 | the first value goes and its node is freed |
| List.List.PopBack | builtin_packages/list.prajna:80-82 | the last value goes and its node is freed |
| List.List.Length | builtin_packages/list.prajna:92-102 | the number of values |
| List.List.FreeNodes | builtin_packages/list.prajna:121-134 | the last copy of a list frees each node once, from the head on, except the one before the end sentinel, and follows no link of a node it has freed |
| List.Node.InsertBefore | builtin_packages/list.prajna:12-22 | the new node stands between the node and the one before it |
| List.Node.InsertAfter | builtin_packages/list.prajna:25-35 | the new node stands between the node and the one after it |
| List.Node.RemoveBefore | builtin_packages/list.prajna:37-43 | the node before is skipped both ways and freed |
| List.Node.RemoveAfter | builtin_packages/list.prajna:45-51 | the node after is skipped both ways and freed |
| HashDict.IndexInTable | builtin_packages/hashdict.prajna:43-49 | the bucket index is one of the table exactly if the key's cast is not negative or is a multiple of the number of buckets |
| HashDict.HashDict.InsertNode | builtin_packages/hashdict.prajna:51-64 | a new node goes to the front of the bucket of its key and the count is the number of nodes |
| HashDict.HashDict.Remove | builtin_packages/hashdict.prajna:73-95 | the first node with the key leaves its bucket and is freed; if there is none nothing changes |
| HashDict.HashDict.Clear | builtin_packages/hashdict.prajna:97-108 | every node is freed, once, after its link is read, and the table is empty |
| HashDict.HashDict.Find | builtin_packages/hashdict.prajna:74-84 | the first node of the bucket with the key, and the one before it |
| HashSet.Set.Contains | builtin_packages/set.prajna:12-23 | true exactly for the elements |
| HashSet.Set.Add | builtin_packages/set.prajna:25-29 | the elements gain that one |
| HashSet.Set.Remove | builtin_packages/set.prajna:31-33 | the elements lose that one |
| HashSet.Set.Count | builtin_packages/set.prajna:39-41 | the number of elements |
| HashSet.Set.Union | builtin_packages/set.prajna:43-63 | a new set of exactly the union, with the operands as they were |
| HashSet.Set.Intersection | builtin_packages/set.prajna:65-79 | a new set of exactly the intersection |
| HashSet.Set.Difference | builtin_packages/set.prajna:81-95 | a new set of exactly the difference |
| HashSet.KeysCount | builtin_packages/set.prajna:39-41 | nodes with different keys are as many as their keys |
| Heap.Heap.Push | builtin_packages/heap.prajna:54-67 | the heap order is kept and the contents gain the value, in both modes |
| Heap.Heap.Pop | builtin_packages/heap.prajna:91-100 | the top leaves the contents, nothing left is ahead of it, and the heap order is kept |
| Heap.Heap.HeapifyDown | builtin_packages/heap.prajna:69-89 | it ends, and repairs a heap whose only fault is at that element |
| Heap.Heap.Extreme | builtin_packages/heap.prajna:70-80 | the element or the child ahead of it and of the other child, whatever the reads past the end give |
| Heap.Heap.Peek | builtin_packages/heap.prajna:50-52 | the top is ahead of everything |
| Heap.RootFirst | builtin_packages/heap.prajna:50-52 | in a heap the root is ahead of every element |
| Heap.SwapUp | builtin_packages/heap.prajna:60-66 | changing places with its parent moves the only fault up |
| Heap.SwapDown | builtin_packages/heap.prajna:82-88 | changing places with the right child moves the only fault down |
| Heap.PopAll | builtin_packages/heap.prajna:91-100 | popping to the end gives the contents in order |
| Tensor.VisitBox | prajna/transform/transform.h:342-409 | a `for` from the zero array to last, rewritten over one linear index, for any extents: it runs as often as the wrapped product of the extents says, never divides by zero, and on a box with positive extents and fewer than 2^63 indices visits exactly the listed ones |
| Tensor.BoxVisitedOnce | prajna/transform/transform.h:342-409 | every index of the box is visited exactly once, at its offset, and nothing else is |
| Tensor.VisitsInOrder | prajna/transform/transform.h:342-409 | the visits come in lexicographic order |
| Tensor.RunsExactlyOnBoxes | prajna/transform/transform.h:380-387 | it runs once for each index of the box if and only if the extents are positive and their product is below 2^63, or some extent is not positive and the wrapped product is not |
| Tensor.NegativeExtentsRunOnce | prajna/transform/transform.h:380-387 | two extents of -1 make it run once over an empty box |
| Tensor.ZeroStride | prajna/transform/transform.h:380-387 | where a stride wraps to zero the loop does not run |
| Tensor.GivenVisits | prajna/transform/transform.h:342-409 | the indices given to the body are those of the box |
| Tensor.LinearLast | prajna/transform/transform.h:380-387 | one past the offset of last - 1 is the number of positions, for every rank and all extents, in wrapping arithmetic |
| Tensor.ZeroExtent | prajna/transform/transform.h:380-387 | the product is zero exactly if an extent is |
| Tensor.DigitsOfLinear | builtin_packages/tensor.prajna:23-46 | from a valid index to its offset and back |
| Tensor.LinearOfDigits | builtin_packages/tensor.prajna:23-46 | from an offset in range to its index and back |
| Tensor.LinearInRange | builtin_packages/tensor.prajna:37-46 | the offset of a valid index lies below the number of positions |
| Tensor.LinearOrder | builtin_packages/tensor.prajna:37-46 | offsets order valid indices lexicographically |
| Tensor.Layout.Create | builtin_packages/tensor.prajna:10-20 | the strides are the products of the later extents, wrapped |
| Tensor.Layout.LinearIndexToArrayIndex | builtin_packages/tensor.prajna:23-34 | what truncating division by the strides makes of any offset |
| Tensor.TruncDigitsNatural | builtin_packages/tensor.prajna:23-34 | with positive strides, the digits of an offset that is not negative |
| Tensor.TruncDigitsLeave | builtin_packages/tensor.prajna:23-34 | for every stride the source can divide by, each digit is what goes into what the digits before it leave, truncated toward zero |
| Tensor.Layout.ArrayIndexToLinearIndex | builtin_packages/tensor.prajna:37-46 | the weighed sum of the digits, as wrapping arithmetic gives it |
| Tensor.Layout.Length | prajna/bindings/core.hpp:86 | the number of positions, wrapped; the C++ twin is the same code |
| DynamicArray.DynamicArray.Push | builtin_packages/dynamic_array.prajna:42-53 | the contents gain the value; a full array grows to the least power of two that fits, copying what it held, and any other keeps its storage |
| DynamicArray.DynamicArray.Pop | builtin_packages/dynamic_array.prajna:71-73 | the contents lose their last value |
| DynamicArray.CeilPowerOf2 | builtin_packages/dynamic_array.prajna:1-8 | the least power of two not below the value; for zero it is one; up to 2^62 it does not wrap |
| DynamicArray.DoublingStops | builtin_packages/dynamic_array.prajna:1-8 | the doubling loop stops exactly for the values up to 2^62; above, its counter wraps to zero |
| DynamicArray.CeilPowerLeast | builtin_packages/dynamic_array.prajna:1-8 | the doubling loop stops at a power of two not below the value and below twice it |
| DynamicArray.CeilPowerOfNext | builtin_packages/dynamic_array.prajna:43-48 | growing past a full capacity doubles it |
| DynamicArray.RunOps | builtin_packages/dynamic_array.prajna:42-73 | every run of pushes and pops from an empty array holds what a sequence would, and growing has copied fewer elements than twice the pushes |
| DynamicArray.CopiesBelowTwicePushes | builtin_packages/dynamic_array.prajna:42-53 | whatever is pushed and popped, the copies that doubling makes stay below twice the pushes |

## Left out

- Nested blocks are held by value: a block inside an If, While or For is a list of its own that is edited and put back, so two owners of one block are not modelled.
- A `for` marked for the GPU: flattening leaves it in place (`GpuForKept`), and the theorems on runs ask for bodies without one.
- The counter of a `for` is three instructions of the flat list (start, increment, write of the index); the subtraction, addition and comparison values the code creates for it are not listed one by one.
- Functions with several blocks before flattening, closures, properties, kernel calls, GPU partitioning, target-specific intrinsics and symbol names.
- FlatternBlock: asks for one block that is well scoped and has no `for` marked for the GPU, which is what the lowering makes of a host function.
- InsertReferenceCount: the branch of the pass over calls that finds the user of a temporary marked DisableReferenceCount is not modelled; only temporaries that the pass makes are marked, and it makes them after it has looked at the user of their call.
- CountsConserved: writes go to a whole variable; writes to a field or through a pointer, and counted cells that heap objects hold, are not modelled. Results of calls are released in the list that holds the call, right after their user; a user in another list is not modelled.
- LoweringCorrect: the analysis goes one way; a program that does not pass may still be kept, as on the runs of `StrictRunKept`. Which operations are pure is given, not inferred.
- ApplySSATransformations: the constant length of an allocation, which the last pass moves with it, and global variables are not modelled; dereferences are turned into loads in any order that takes one after the dereference its pointer is, of which the order of the code is one.
- EditUses: the users of a node are read off the table, and the operands of a user are edited in their order; the code takes them in the order of a use list, which `UseDef` models.
- TopAlloca: one function; over a module the code stops at the first function without blocks and leaves those after it as they are.
- A store outside its slot, and pointer arithmetic that leaves the array it points into, are not modelled; a read there gives an undefined value.
- InliningCorrect: callees end in their one return and have no Break or Continue; the code handles no others. A callee in another module is inlined as it is found. A function that inlines itself, directly or through others, is not claimed to keep its runs. A run that reads a value that was never computed is not claimed.
- CloneFunction: structured loops with Break or Continue, which the code would copy twice, and copies that are not shallow.
- Ptr: what finalizing an element does, which is only counted; a failed allocation of a control block; more than 2^63 handles.
- HashDict: `Get`, which returns the head of a bucket unchecked, and keys whose index is not one of the table.
- List: the reference counter that copies of a list share; `SortReverse` and the sorts of other containers, which are the same loops with the comparison or the container changed.
- Heap: Push on a full heap and Pop or Peek on an empty one, which the code does not guard.
- VisitBox: a `for` whose first index is not the zero array, because the rewriting lays out by the last index, not by the range.
- LinearIndexToArrayIndex: the one quotient that overflows, of the least i64 by -1; a stride of zero, where the code divides by zero.
- DynamicArray: `Resize`, which changes the length without the storage.
- Code generation, the JIT, parsing, templates, modules, I/O and the devices' loaders: foreign code or plumbing.
