# Verification of the SysY to ARM compiler

This project models the graph analyses, the IR transformations and the back-end arithmetic of the compiler and
proves properties of them for all inputs. Each Dafny module covers one part of one source file:

- **Dominators and promotion** (`Cfg`, `IdomTree`, `PostOrder`, `IDomSolver`, `Frontier`, `Dominators`; `Ssa`,
  `Promotion`, `PromotionMeaning`, `Renaming`, `RenameWalk`, `Mem2Reg`). Dominance is defined on paths. The solver
  ends in the dominator tree, the runner loop in the dominance frontiers, phi placement in the iterated frontier,
  and the promoted function runs exactly like the original.
- **Loops** (`Components`, `ComponentSearch`, `ComponentVisit`, `LoopNest`, `LoopAnalysis`). The component search takes
  low links from low links and still finds exactly the strongly connected components; peeling headers ends and gives
  a laminar family of loops.
- **Structured code to a control-flow graph** (`Hir`, `Lowering`, `HirToMir`). Both sides have a semantics that counts
  basic blocks; the lowered function agrees with the tree for every state and every bound, so also in divergence.
- **Constant arithmetic** (`Arith`, `Arm`, `DivConst`; `BlockIr`, `BlockRewrite`, `PowerOfTwo`, `LowerRules`, `LowerIr`,
  `ArrayCells`). Division by a constant on 32-bit registers; the block rewrites before code generation.
- **Registers, frames, calls** (`Intervals`, `FrameLayout`, `LinearScan`; `CallMachine`, `PushPop`, `CallFrame`, `CallArgs`,
  `CallBuilder`).
- **Value numbering, dead code, use lists, data** (`ValueTable`, `ValueOrder`, `ValueFlow`, `ValueWalk`, `ValueSearch`,
  `ValueAddress`, `ValueCircle`, `ValueExtended`, `ValueRepeat`, `ValueWhole`, `ValueSample`, `GlobalValueNumbering`,
  `ValueRun`; `DeadCode`, `DeadCodeElimination`; `UseLists`; `Decimal`, `FloatWords`, `Initializer`). Looking a value up
  in the tables looks up the operands of other entries, so whether it ends is a theorem of its own; so is what it must
  find.

`Wrappers` holds the datatype of values that may be missing.

Objects whose methods change their fields are classes here, lists and tables that they change are fields of type `seq`
or `map`. A method is proved against a function or a declarative property of its inputs or of the old state; lemmas
beside it say what that means. Emitted instructions are values with a 32-bit semantics.

Seven places where the code does less than its purpose suggests are stated exactly:

- The runner loop looks only at blocks with two or more predecessors, and an entry is its own immediate dominator. The
  collected frontiers are the dominance frontiers if and only if the entry has no predecessor
  (`Frontier.FrontierExact`, `Frontier.EntryIsMissed`).
- In the entry code a float argument beyond the sixteenth falls into the integer branch and moves an integer register.
  No register is overwritten but those of arguments if and only if there are at most sixteen floats or at least four
  integers (`CallFrame.EntryOverwrites`).
- The code for saving registers is valid only for lists with an integer register or none at all
  (`PushPop.CodeEncodable`).
- A stack argument that is a constant, a local address or a value saved from a clashing register is stored from the
  scratch register. Below offset -4095 the assertion in the store fails; without assertions the store writes the offset.
  All arguments arrive for every state if and only if no such argument lies that far away or its value is the offset
  (`CallArgs.AlwaysDelivered`, `CallArgs.StoresReach`, with the input `CallArgs.FarArgument`).
- Looking up an address computation in value numbering may never end. It ends if and only if it does not come back to
  an instruction that is being looked up with nothing entered in between (`ValueSearch.EndsExactly`). When nothing else
  is missing, that means: no entered address computation takes the missing one as operand before the first that is
  equal to it in the order of the keys (`ValueCircle.MissingEnds`). A function is numbered if and only if none of the
  look-ups it meets is circular (`ValueWhole.NumberingEnds`). The order of addresses alone can decide: one function of
  three blocks is numbered in one order and never in another (`ValueSample.OrderDecides`). It always ends when address
  computations are used in their own extended block (`GlobalValueNumbering.GlobalValueNumbering.Run`).
- Replacing an instruction erases the table entry it was found by. Within a block an instruction that repeats a binary
  operation which stands is replaced if no replacement in between has erased that entry
  (`GlobalValueNumbering.GlobalValueNumbering.Run`); of three copies of a sum the third stays
  (`ValueSample.ThirdCopyStays`).
- Replacing a value that has a use by itself never ends, because each step records one use more
  (`UseLists.SelfNeverEnds`).

## Model

| member | source | states |
|---|---|---|
| PostOrder.NumberedIsReachable | src/passes/analysis/dominators.cpp:19-37 | The depth-first visit numbers exactly the blocks reachable from the entry. |
| PostOrder.DomNumber | src/passes/analysis/dominators.cpp:26-37 | A dominator of a block has a higher post-order number than the block. |
| Dominators.Dominators.PostOrderVisit | src/passes/analysis/dominators.cpp:26-37 | The visit appends every block it newly reaches once, each after its unvisited successors, the visited block last, with its position as number. |
| Dominators.Dominators.CreateReversePostOrder | src/passes/analysis/dominators.cpp:19-25 | The list is the reverse post-order of a numbering in which every block but the entry has a higher-numbered predecessor. |
| Dominators.Dominators.Intersect | src/passes/analysis/dominators.cpp:78-90 | Ends at the lowest block above both arguments in the current tree; every common dominator dominates it, although the tree is not finished. |
| Dominators.Dominators.MeetPreds | src/passes/analysis/dominators.cpp:54-69 | The new parent of a block lies above all handled predecessors, is the lowest such block, is higher than the block and is dominated by all its strict dominators. |
| Dominators.Dominators.CreateIDoms | src/passes/analysis/dominators.cpp:38-76 | Terminates; exactly the reachable blocks have a parent, and it is the immediate dominator. |
| IDomSolver.MovesUp | src/passes/analysis/dominators.cpp:62-73 | A block only ever moves up, to one of the blocks already above it. |
| IDomSolver.SolvingStep | src/passes/analysis/dominators.cpp:49-74 | Giving the next block of a pass its new parent keeps the invariant: strict dominators dominate the current parent, parents are not above the meeting point of the predecessors. |
| IDomSolver.StepDropsSlack | src/passes/analysis/dominators.cpp:47-75 | Each change lowers the measure that bounds the number of passes. |
| IDomSolver.AboveIsDom | src/passes/analysis/dominators.cpp:38-76 | When the solver has stopped, lying above in the tree is dominance on all paths, both ways. |
| IDomSolver.StoppedIsIDom | src/passes/analysis/dominators.cpp:38-76 | When the solver has stopped, the parent is the immediate dominator. |
| Dominators.Dominators.Run | src/passes/analysis/dominators.cpp:95-99 | The runner adds the join to exactly the blocks between the predecessor and the immediate dominator of the join. |
| Dominators.Dominators.MarkJoin | src/passes/analysis/dominators.cpp:94-100 | All predecessors of one join. |
| Dominators.Dominators.CreateDominanceFrontier | src/passes/analysis/dominators.cpp:91-104 | The collected sets are the dominance frontiers if and only if the entry has no predecessor. |
| Frontier.RunnerIsFrontier | src/passes/analysis/dominators.cpp:91-104 | For a block other than the entry: the runner adds y to x exactly when x dominates a predecessor of y and does not strictly dominate y. |
| Frontier.FrontierExact | src/passes/analysis/dominators.cpp:91-104 | The exact condition under which all collected sets are the frontiers. |
| Frontier.EntryIsMissed | src/passes/analysis/dominators.cpp:91-104 | An entry with a predecessor belongs to its own frontier, and the runner never adds it. |
| Mem2Reg.Mem2Reg.CollectDefs | src/passes/mem2reg.cpp:33-60 | The slots, and for each the blocks that store to it. |
| Mem2Reg.PlacePhis | src/passes/mem2reg.cpp:71-92 | The queue ends with the least set that contains the frontiers of the storing blocks and of itself. |
| Mem2Reg.Mem2Reg.InsertPhis | src/passes/mem2reg.cpp:63-92 | Each slot gets its empty phis at its iterated frontier. |
| Promotion.EdgeAgrees | src/passes/mem2reg.cpp:63-92 | Into a block without a phi for a slot every edge carries the operand the block starts with, so the order in which visits are popped does not matter. |
| PromotionMeaning.OperandsOk | src/passes/mem2reg.cpp:161-195 | Every operand that stands for a slot or a load is defined on all paths to the point. |
| PromotionMeaning.GlobalIsLocal | src/passes/mem2reg.cpp:161-168 | Replacing a load in the whole function writes the operand valid at each use. |
| PromotionMeaning.EdgeSim | src/passes/mem2reg.cpp:116-130 | Crossing an edge, the phis of the target pick up exactly the values of their slots. |
| PromotionMeaning.RunsAgree | src/passes/mem2reg.cpp:95-207 | After any number of blocks, for any inputs, both functions stand at the same block in corresponding states. |
| PromotionMeaning.MeaningPreserved | src/passes/mem2reg.cpp:28-208 | On every run both functions perform the same events with the same argument values, visit the same blocks and halt together. |
| Mem2Reg.Mem2Reg.RenameBlock | src/passes/mem2reg.cpp:139-202 | Renaming a block yields the operands its slots hold at its end; loads, stores and allocas go. |
| RenameWalk.WalkEnds | src/passes/mem2reg.cpp:107-207 | The walk visits every block, and each phi has exactly one entry for each incoming edge, with the operand its slot holds at the end of that predecessor. |
| Mem2Reg.Mem2Reg.Rename | src/passes/mem2reg.cpp:105-207 | The walk leaves the promoted function, whose phis are filled. |
| Mem2Reg.Mem2Reg.GenPhi | src/passes/mem2reg.cpp:28-208 | For the dominators and frontiers given: same runs, no slot access left, one phi entry for each edge, phis exactly on the iterated frontiers. |
| Mem2Reg.Mem2Reg.Run | src/passes/mem2reg.cpp:16-26 | The same from the control-flow graph alone, computing dominators and frontiers first. |
| LoopAnalysis.LoopFinder.StrongConnect | src/passes/analysis/loop_analysis.cpp:118-150 | A visit keeps the search invariant although low links are taken from low links; v stays on the stack or starts a finished component. |
| LoopAnalysis.LoopFinder.PopFrom | src/passes/analysis/loop_analysis.cpp:138-143 | Pops exactly the nodes down to v and restores the stack below. |
| LoopAnalysis.LoopFinder.FindStrongConnectComponents | src/passes/analysis/loop_analysis.cpp:105-116 | The result is exactly the set of strongly connected components of two or more nodes; the stack is empty again. |
| ComponentSearch.LowerLows | src/passes/analysis/loop_analysis.cpp:127-132 | Taking the low link of a successor keeps every low link a reachable stack position. |
| ComponentSearch.UpperClosed | src/passes/analysis/loop_analysis.cpp:135-143 | When low link and index of v agree, no edge leaves the nodes above v and the finished ones. |
| ComponentSearch.UpperIsScc | src/passes/analysis/loop_analysis.cpp:135-143 | The nodes above v on the stack are then a maximal strongly connected set. |
| ComponentSearch.KeepAnchored | src/passes/analysis/loop_analysis.cpp:135-149 | Otherwise v keeps reaching a node below it that is still being visited. |
| LoopAnalysis.LoopFinder.FindLoopHeader | src/passes/analysis/loop_analysis.cpp:151-175 | Finds a node entered by an edge of the function from outside the component; nothing is found exactly when there is none. |
| LoopNest.ComponentEntered | src/passes/analysis/loop_analysis.cpp:151-175 | A reachable component without the entry is entered from outside, so its header is not null. |
| LoopNest.EntryOutside | src/passes/analysis/loop_analysis.cpp:24-27 | No component of a round holds the entry. |
| LoopAnalysis.LoopFinder.RemoveHeader | src/passes/analysis/loop_analysis.cpp:46-54 | Erasing a header leaves the edges of the function among the other nodes, with the header's own successors kept. |
| LoopNest.PeeledStep | src/passes/analysis/loop_analysis.cpp:49-54 | The erasures in predecessor and successor sets stay consistent with each other. |
| LoopNest.RoundStep | src/passes/analysis/loop_analysis.cpp:26-48 | Recording a component with its header keeps the family laminar. |
| LoopAnalysis.LoopFinder.PeelRound | src/passes/analysis/loop_analysis.cpp:26-60 | A round with a component takes out at least one node, so peeling ends. |
| LoopAnalysis.LoopFinder.Run | src/passes/analysis/loop_analysis.cpp:24-65 | Any two loops are disjoint or one lies in the other without its header; each is strongly connected and entered at its header; no component is left; a block maps to the header of the last loop holding it. |
| LoopNest.LastIsInnermost | src/passes/analysis/loop_analysis.cpp:43-45 | That last loop is the innermost one. |
| HirToMir.HirToMir.GenBasic | src/passes/hir_to_mir.cpp:32-57 | A block is closed by a return, a branch to what follows, or the target of its break or continue. |
| HirToMir.HirToMir.EndBlock | src/passes/hir_to_mir.cpp:66-79 | The extra block that returns the default value. |
| HirToMir.HirToMir.GenConds | src/passes/hir_to_mir.cpp:94-113 | The last condition block branches on its last instruction, the earlier ones run into the next. |
| HirToMir.HirToMir.GenList | src/passes/hir_to_mir.cpp:81-92 | Bodies from the last tree to the first, each continuing at the one after it. |
| HirToMir.HirToMir.GenIf | src/passes/hir_to_mir.cpp:58-114 | The blocks of an if become its lowering, placed in layout order. |
| HirToMir.HirToMir.GenWhile | src/passes/hir_to_mir.cpp:115-161 | The blocks of a while become its lowering; the body continues at the first condition block. |
| HirToMir.HirToMir.GenBasicBlock | src/passes/hir_to_mir.cpp:27-167 | One tree is lowered with given next, entry and exit blocks, no other block changes, and the result is where the tree starts; instructions may stand after a return without a value. |
| HirToMir.HirToMir.Run | src/passes/hir_to_mir.cpp:11-25 | A function is lowered, its blocks are distinct, and the front block is where its first tree starts. |
| Lowering.CondsRun | src/passes/hir_to_mir.cpp:94-113 | The condition blocks take the branch that the condition chooses, with short-circuit branches. |
| Lowering.TreeRuns | src/passes/hir_to_mir.cpp:27-167 | Running the graph from where a tree starts performs the tree and goes on at the continuation for fall-through, break, continue or return. |
| Lowering.NoStray | src/passes/hir_to_mir.cpp:17 | With no loop around it a tree neither breaks nor continues, so the missing entry and exit blocks are never needed. |
| Lowering.FunctionRuns | src/passes/hir_to_mir.cpp:11-25 | The lowered function runs exactly like the structured one for every state and every bound on the number of blocks. |
| Lowering.SameReturns | src/passes/hir_to_mir.cpp:11-167 | It returns if and only if the structured function does, with the same value and state. |
| DivConst.SetValueLoads | src/asm/asm_instr.cpp:263-298 | Every 32-bit constant arrives unchanged and nothing else changes. |
| DivConst.ChooseMultiplier | src/asm/asm_instr.cpp:894-907 | For 2 <= d < 2^31: 2^(32+sh) < m*d <= 2^(32+sh) + 2^(sh+1) with m below 2^32 read unsigned, and l is the rounded-up logarithm. |
| DivConst.SearchFits | src/asm/asm_instr.cpp:898-899 | The dividends of the search fit in 64 bits. |
| DivConst.MultiplyDivides | src/asm/asm_instr.cpp:925-941 | Multiplying by such an m, shifting by 32+sh and adding one for a negative dividend divides, rounding toward zero. |
| DivConst.HighWordDivides | src/asm/asm_instr.cpp:925-932 | The same from the high word of the product alone. |
| DivConst.SignedMultiplier | src/asm/asm_instr.cpp:933-941 | With m as a negative word, adding the dividend back makes up for the missing 2^32. |
| DivConst.PowerDivides | src/asm/asm_instr.cpp:919-924 | The shift sequence divides by a power of two, rounding toward zero. |
| DivConst.DivCodeDivides | src/asm/asm_instr.cpp:909-946 | For every dividend and every divisor with 0 < abs(d) < 2^31 the code leaves the quotient rounded toward zero, modulo 2^32. |
| DivConst.Emit | src/asm/asm_instr.cpp:909-946 | The emitted code divides. |
| Arith.TruncDivIs | src/asm/asm_instr.cpp:909-910 | The quotient meant leaves a remainder smaller than the divisor with the sign of the dividend (section 6.5.5 of ISO/IEC 9899:2011). |
| BlockRewrite.ReplaceRuns | src/passes/lower_ir.cpp:171-178 | Inserting instructions, redirecting all uses and erasing the old instruction keeps every other value and every effect. |
| BlockRewrite.DeletePreserves | src/passes/lower_ir.cpp:506-508 | Deleting an instruction without effect that nothing uses keeps everything else. |
| PowerOfTwo.PowerOfTwoIs | src/passes/lower_ir.cpp:130-132 | Except for the smallest word the bit test finds exactly the powers of two, and the rounded-up logarithm is the exponent. |
| PowerOfTwo.PowersFound | src/passes/lower_ir.cpp:130-132 | The bit test finds a word other than the smallest one exactly if it is some 2^k. |
| LowerRules.RemReplaces | src/passes/lower_ir.cpp:160-182 | Every remainder of two operands is split; division, product and difference compute the C remainder, for negative numbers too. |
| LowerRules.ShiftReplaces | src/passes/lower_ir.cpp:185-270 | A product is replaced exactly if some operand is a power of two, a quotient exactly if its divisor is one; the shift sequences compute both for every word. |
| LowerRules.UnusedReplaces | src/passes/lower_ir.cpp:273-351 | Exactly a+0 and 0+a off a global, a-0, a*0, a*1 and a/1 are dropped, each has the value of what replaces it, and dropping a subtraction or a quotient ends the scan. |
| LowerRules.SumSplits | src/passes/lower_ir.cpp:62-100 | Constant and variable indices together give the sum of index times size, modulo 2^32, for any mix. |
| LowerRules.ChainRuns | src/passes/lower_ir.cpp:75-100 | The multiply-add chain accumulates the variable indices on top of the constant offset. |
| LowerRules.GepReplaces | src/passes/lower_ir.cpp:53-128 | Every address computation with an index for each level is replaced; the chain computes base plus the sum of index times element size over all levels. |
| ArrayCells.CellInside | src/ir/type.cpp:50-72 | An in-bounds index tuple addresses a whole aligned word inside the array. |
| ArrayCells.CellsDiffer | src/ir/type.cpp:50-72 | Different in-bounds index tuples address different cells. |
| ArrayCells.GepCell | src/passes/lower_ir.cpp:53-128 | With a zero leading index an address computation yields its cell in an object that does not wrap around. |
| LowerIr.LowerIr.ReplaceAt | src/passes/lower_ir.cpp:173-178 | One replacement: the new list exactly, all uses moved, everything preserved. |
| LowerIr.LowerIr.SplitGep | src/passes/lower_ir.cpp:53-128 | The block does what it did, and no address computation with an index for each level is left; a number that other blocks use is not dead, and the number replacing it counts as used by them. |
| LowerIr.LowerIr.SplitRem | src/passes/lower_ir.cpp:160-182 | The block does what it did, and no remainder of two operands is left; a number that other blocks use is not dead, and the number replacing it counts as used by them. |
| LowerIr.LowerIr.DeleteUnusedInstr | src/passes/lower_ir.cpp:273-351 | The block does what it did; no a+0 or 0+a off a global, a-0, a*0, a*1 or a/1 is left unless the scan ended early, and it ended early exactly when a subtraction or division of the block was deleted; a number that other blocks use is not dead, and the number replacing it counts as used by them. |
| LowerIr.LowerIr.ConvertMulDiv2Shift | src/passes/lower_ir.cpp:185-270 | The block does what it did, and no product with an operand 2^k and no quotient by 2^k is left; a number that other blocks use is not dead, and the number replacing it counts as used by them. |
| LowerIr.LowerIr.FuseAt | src/passes/lower_ir.cpp:387-412 | One fusion: the new list exactly, everything but the product and the sum preserved. |
| LowerIr.LowerIr.Convert2Mla | src/passes/lower_ir.cpp:383-415 | The block does what it did, and no addition has a product of the block as operand that has no other use; a number that other blocks use is not dead, and the number replacing it counts as used by them. |
| LowerIr.LowerIr.DeleteAddMul | src/passes/lower_ir.cpp:502-513 | The block does what it did; every addition or product without use at the start is gone, nothing else goes. |
| LowerIr.LowerIr.Run | src/passes/lower_ir.cpp:10-51 | After all passes the block has the same effects, every original value lives on in its own or in its replacing number, and no number that other blocks used before is dead, the numbers replacing them counting as used there. No address computation, remainder, product with or quotient by a power of two is left, nor a*0 or a-0 unless the scan ended early; before the last pass no addition had a product without another use, and the last pass dropped the unused additions and products only. |
| LowerIr.FuseMeans | src/passes/lower_ir.cpp:387-400 | The fused instruction computes the sum where the addition stood. |
| LinearScan.FindPlace | src/asm/linear_scan_reg_alloc.cpp:425-469 | The binary search by middles rejects a register exactly when the interval overlaps one there, and otherwise finds its place in the order. |
| LinearScan.LinearScan.ForceRegAlloc | src/asm/linear_scan_reg_alloc.cpp:279-349 | An argument takes its register exactly when that is free for the whole interval. |
| LinearScan.LinearScan.PlaceInterval | src/asm/linear_scan_reg_alloc.cpp:425-545 | An interval goes to the first register into which it fits. |
| LinearScan.LinearScan.Place | src/asm/linear_scan_reg_alloc.cpp:403-547 | The loop places all intervals first-fit, and every register stays sorted and disjoint. |
| Intervals.PlacementPacks | src/asm/linear_scan_reg_alloc.cpp:403-547 | Registers stay sorted and disjoint through the whole placement. |
| Intervals.LiveTogetherApart | src/asm/linear_scan_reg_alloc.cpp:403-547 | Two intervals with a common point never share a register, real or overflow. |
| Intervals.NothingLost | src/asm/linear_scan_reg_alloc.cpp:403-547 | No interval is lost, doubled or put into a register of the wrong kind. |
| Intervals.RecordsAreTrue | src/asm/linear_scan_reg_alloc.cpp:473-476 | The recorded register of a value is one that holds its interval. |
| Intervals.PlacementHasNoGaps | src/asm/linear_scan_reg_alloc.cpp:427-479 | Overflow registers are used one after the other. |
| FrameLayout.FrameApart | src/asm/linear_scan_reg_alloc.cpp:656-730 | Slots that are live together, save slots, stack arguments and local data never overlap and lie inside the frame. |
| FrameLayout.FrameComplete | src/asm/linear_scan_reg_alloc.cpp:656-730 | Every local array has a data slot of its own size rounded up to whole words, every spilled argument the slot at four times its place, and nothing else has a data slot. |
| FrameLayout.EverySpillHasASlot | src/asm/linear_scan_reg_alloc.cpp:672-708 | Stopping at the first unused overflow register forgets no spilled value. |
| LinearScan.LinearScan.SpillBank | src/asm/linear_scan_reg_alloc.cpp:672-689 | The slots of one bank, exactly. |
| LinearScan.LinearScan.BuildFrame | src/asm/linear_scan_reg_alloc.cpp:656-730 | The frame built is the one specified. |
| LinearScan.LinearScan.Run | src/asm/linear_scan_reg_alloc.cpp:403-730 | Placement and layout together: the intervals of a register are sorted and share no point, and no two entries of the frame disturb each other; every local array has a slot that holds it with less than a word to spare, every spilled argument its slot at four times its place, every value of an overflow register a slot of a word, and the four save words lie in the frame. |
| PushPop.PushSaves | src/asm/asm_instr.cpp:36-104 | Saving writes each register once, in the order of the image, and changes nothing above. |
| PushPop.PopUndoesPush | src/asm/asm_instr.cpp:106-181 | Restoring gives every listed register its saved value, leaves the others and the stack pointer as before the save. |
| PushPop.GroupsAreRuns | src/asm/asm_instr.cpp:76-100 | Every vpush and vpop names consecutive registers. |
| PushPop.CodeEncodable | src/asm/asm_instr.cpp:36-62 | The code is valid if and only if the list is empty or names an integer register. |
| PushPop.EmitPush | src/asm/asm_instr.cpp:36-104 | The loops over the list emit the specified groups. |
| PushPop.EmitPop | src/asm/asm_instr.cpp:106-181 | The same in reverse order. |
| CallFrame.AlignedSize | src/asm/asm_builder.cpp:26-36 | The padded frame with the saved registers is a multiple of 16 and grows by less than 16. |
| CallFrame.ExitUndoesEntry | src/asm/asm_builder.cpp:218-271 | A function that keeps its frame returns to the caller's address with the stack pointer and all saved registers as they were. |
| CallFrame.ArgumentsSettled | src/asm/asm_builder.cpp:239-254 | The entry moves leave every argument where the code of the function looks for it. |
| CallFrame.EntryOverwrites | src/asm/asm_builder.cpp:239-254 | The moves touch only registers of arguments if and only if there are at most sixteen floats or at least four integers. |
| CallFrame.PlacesAgree | src/asm/linear_scan_reg_alloc.cpp:1285-1311 | Caller and callee agree on the place of every argument for any mix of integers and floats. |
| CallArgs.FpOffset | src/asm/asm_builder.cpp:911-925 | The saved copy of a float register lies behind the later runs and the earlier registers of its own run. |
| CallArgs.IntOffset | src/asm/asm_builder.cpp:766 | The saved copy of integer register k of the list lies at 4*(k + number of saved float registers). |
| CallArgs.ClashExact | src/asm/asm_builder.cpp:755-758 | A clash is claimed exactly for an argument in a register that an earlier argument has been put into. For a float that a conversion helper takes in an integer register it is claimed from the fifth argument on, although nothing was overwritten. |
| CallArgs.AcceptsIs | src/asm/asm_builder.cpp:778-812 | Both assertions hold exactly if a clashing register has been saved and the store of a stack argument from a register numbered 11 is within 4095 bytes, or 255 for a float register. |
| CallArgs.ArgsDelivered | src/asm/asm_builder.cpp:701-858 | With the clashing registers saved, passing the arguments acts like a parallel copy from the state before the call if and only if every argument stored is given its value, which fails only for a store of the scratch register beyond 4095 bytes. |
| CallArgs.AlwaysDelivered | src/asm/asm_builder.cpp:701-858 | All arguments are delivered from every state if and only if each one passes: not stored from the scratch register beyond 4095 bytes, or a constant equal to the offset. |
| CallArgs.StoresReach | src/asm/asm_instr.cpp:827-845 | The assertion of the store holds exactly for the arguments that are not lost. |
| CallArgs.AcceptedDelivers | src/asm/asm_builder.cpp:701-858 | When no assertion fails, every argument is delivered from every state. |
| CallArgs.ArgCodeEncodes | src/asm/asm_instr.cpp:810-845 | Every load and store emitted for arguments has an offset within 4095 bytes, or 255 for a float register, and numbers are loaded into integer registers only. |
| CallArgs.FarArgument | src/asm/asm_builder.cpp:786-800 | Five constants passed to a callee with 1024 local words: the fifth does not arrive, and the assertion fails. |
| CallArgs.ArgumentsArrive | src/asm/asm_builder.cpp:701-858 | From the caller's state through the callee's entry an argument arrives where the callee's code reads it, if and only if it is not stored from the scratch register beyond 4095 bytes or its value is the offset. |
| CallMachine.LoadRuns | src/asm/asm_instr.cpp:810-825 | A load at any offset reads the cell and changes at most the scratch register besides. |
| CallMachine.StoreRuns | src/asm/asm_instr.cpp:827-845 | A store at any offset writes the register to the cell, except that a far store of the scratch register writes the offset. |
| CallMachine.MoveSpRuns | src/asm/asm_instr.cpp:778-794 | The stack pointer moves by any number of bytes, with nothing emitted for zero and an immediate operand only up to 255. |
| CallBuilder.FindOffset | src/asm/asm_builder.cpp:911-925 | The table search finds the offset of the saved copy. |
| CallBuilder.CallBuilder.CalRegPosition | src/asm/asm_builder.cpp:889-926 | The same with the table filled once and kept for the next arguments. |
| CallBuilder.CallBuilder.PassOne | src/asm/asm_builder.cpp:723-845 | One argument: the code specified, or an assertion failure exactly when a clashing register is not saved or a register numbered 11 would be stored too far away; an argument passed in a register whose own register no earlier one has overwritten is accepted whatever is saved. |
| CallBuilder.CallBuilder.PassFunctionArgs | src/asm/asm_builder.cpp:701-858 | All arguments, refused exactly when one of them is, and the table is clear again afterwards. |
| Decimal.ParseToString | src/asm/asm_builder.cpp:165-166 | A printed number reads back as itself; its first character is the digit zero only for zero. |
| Initializer.TestInside | src/asm/asm_builder.cpp:147-153 | While every character examined was a zero the next position examined is still inside the text. |
| Initializer.OnlyZeros | src/asm/asm_builder.cpp:147-158 | If the test finds only zeros, all words of the array are zero. |
| Initializer.FoundOther | src/asm/asm_builder.cpp:147-155 | If it finds another character, the text itself stands for the array. |
| Initializer.GenerateInitializer | src/asm/asm_builder.cpp:135-170 | Reading the emitted lines back gives exactly the words of the constant. |
| FloatWords.FloatOfNearest | src/ir/constant.cpp:94-97 | An integer of 64 bits becomes the finite float nearest to it, of two equally near ones the even one, with its sign. |
| FloatWords.SmallExact | src/ir/constant.cpp:94-97 | Up to 2^24 that float stands for the integer itself. |
| FloatWords.KnownWords | src/ir/constant.cpp:94-97 | The words of 1, -2, 2^24+1 and 2^24+3 in the single format of IEEE 754. |
| FloatWords.IntOfTruncates | src/ir/constant.cpp:98-102 | A finite float becomes the integer without its fraction. |
| Initializer.ConvertDenotes | src/ir/constant.cpp:90-104 | A word stands for its value at the type of the elements: equal types keep it, an integer becomes the nearest float, a float loses its fraction. |
| Initializer.TurnKeeps | src/ir/constant.cpp:81-130 | Shaping a flat list loses, adds and moves nothing; word k stands for value k at the type of the elements. |
| Initializer.EmitGlobal | src/asm/asm_builder.cpp:135-170 | Shaping, printing and reading back gives one word for each value: unchanged for equal types, the nearest float for an integer in an array of floats (up to 2^24 the integer itself), the integer part for a float in an array of integers, integers modulo 2^32. |
| UseLists.Node.AddOperand | src/ir/user.cpp:46-50 | Appends an operand; operands and uses stay mutual inverses. |
| UseLists.Node.ChangeOperand | src/ir/user.cpp:82-86 | Replaces one operand and its records. |
| UseLists.Node.RemoveUseOps | src/ir/user.cpp:30-45 | Removes exactly the records of this user; its operands stay. |
| UseLists.Node.RmOperand | src/ir/user.cpp:51-65 | Removes one operand; the others keep their order and are numbered anew. |
| UseLists.Node.RmOperands | src/ir/user.cpp:66-80 | The same for two positions. |
| UseLists.Node.ClearOperands | src/ir/user.h:35-39 | No operand and no record is left. |
| UseLists.Node.ReplaceAllUse | src/ir/value.cpp:34-46 | Every user reads the other value, this one has no use left, and the lists stay mutual inverses; the two may be the same when there is no use. |
| UseLists.SelfNeverEnds | src/ir/value.cpp:38-43 | Replacing a value by itself keeps the end of its list as far away as at the start, unless the list is empty. |
| UseLists.Node.RemoveUse | src/ir/value.cpp:52-77 | Removes the first matching record. |
| UseLists.UnrecordKeeps | src/ir/value.cpp:52-77 | In lists that agree the record is there, so the assertion holds. |
| DeadCode.SweepPreserves | src/passes/dead_code_elimination.cpp:83-119 | Every run of the swept function has the same stores, calls with effects, branches and return and the same values of all useful instructions. |
| DeadCode.SweptCleaned | src/passes/dead_code_elimination.cpp:98-130 | The sweep keeps every store, branch, return and call with effects, and of the others nothing that no kept instruction uses. |
| DeadCodeElimination.DeadCodeElimination.MarkInstrUseful | src/passes/dead_code_elimination.cpp:132-144 | Marks the operand closure and nothing more. |
| DeadCodeElimination.MarkedIsLeast | src/passes/dead_code_elimination.cpp:84-91 | The marked set is the least one that holds all stores, branches, returns and calls with effects and the operands of its members. |
| DeadCodeElimination.UsefulHasUse | src/passes/dead_code_elimination.cpp:98-111 | An instruction that stays has a use or is of an allowed kind. |
| DeadCodeElimination.DeadCodeElimination.DeleteDeadInstr | src/passes/dead_code_elimination.cpp:83-119 | Exactly the useless instructions go: every store, branch, return and call with effects of the old function still stands, and a plain operation or a call without effects stands only if an instruction that stands uses it; the assertion inside the sweep never fails. |
| ValueFlow.DominanceOrders | src/passes/global_value_numbering.cpp:46-67 | Instructions are ordered by dominance: irreflexive and transitive. |
| ValueFlow.OnlyPredAvail | src/passes/global_value_numbering.cpp:58-60 | A block with one predecessor starts with exactly what is available at the end of that. |
| ValueTable.PushSound | src/passes/global_value_numbering.h:59-79 | Entering a value keeps every entry equal to its key and available. |
| ValueSearch.EndsExactly | src/passes/global_value_numbering.cpp:85-162 | A look-up ends within some depth if and only if it is not circular; then the depth computed from the code suffices and more depth changes nothing. |
| ValueSearch.MeetLook | src/passes/global_value_numbering.cpp:138-162 | The search with a bound goes as the one that watches for circles, and a circle exhausts every bound. |
| ValueCircle.MissingEnds | src/passes/global_value_numbering.cpp:97-127 | With nothing else missing, looking up an address computation ends exactly when no entered one takes it as operand up to the first equal to it. |
| ValueWhole.NumberingEnds | src/passes/global_value_numbering.cpp:16-67 | Numbering a function ends for some depth of look-ups if and only if it ends when watched for circles, that is, when no look-up it meets is circular; every depth from the one computed from the code on gives the same result. |
| ValueSample.OrderDecides | src/passes/global_value_numbering.cpp:16-162 | A function in the form the pass asks for, with one instruction in the entry and three in a join below: from the empty tables of the join the first two look-ups end in both orders of addresses; with the second instruction before the first the third never ends and the function is never numbered, with the first before the second it is. |
| ValueRepeat.BinaryFinds | src/passes/global_value_numbering.cpp:85-97 | A binary instruction is found exactly if some scope holds its operation on the values its operands are read as; the outermost such scope decides. |
| ValueRepeat.RepeatStep | src/passes/global_value_numbering.cpp:68-80 | Numbering the next instruction of a block: a kept binary operation is remembered until a replacement erases its entry, and an instruction that repeats a remembered one, the operands swapped if it commutes, is replaced. |
| ValueSample.ThirdCopyStays | src/passes/global_value_numbering.cpp:163-171 | Of three copies of a sum the second is replaced, which erases the entry of the first, and the third stays. |
| ValueAddress.CalmLook | src/passes/global_value_numbering.cpp:138-162 | When entered address computations have theirs in the tables, looking up an operand ends and enters no address computation. |
| ValueAddress.CalmAddress | src/passes/global_value_numbering.cpp:97-127 | Then an address computation with such operands is found, or becomes the only new key. |
| ValueExtended.OpenedCalm | src/passes/global_value_numbering.cpp:46-67 | With address computations used in their own extended block only, the open scopes hold what their operands are read as. |
| GlobalValueNumbering.GlobalValueNumbering.FindOnTable | src/passes/global_value_numbering.cpp:173-240 | The innermost scope that knows the value decides; nothing is found only if no scope holds the address computation, the binary operation on its present operands or, if it commutes, on swapped ones, or a constant that prints the same. |
| GlobalValueNumbering.GlobalValueNumbering.FindSameInstrInTable | src/passes/global_value_numbering.cpp:85-137 | Goes as the search specified, with the keys in the order of their addresses; what is found equals the instruction wherever that is available, is available itself and stays. |
| GlobalValueNumbering.GlobalValueNumbering.LookUpOrAdd | src/passes/global_value_numbering.cpp:138-162 | Goes as the search specified and ends within fuel exactly when that does; the result equals the value, a table hit decides, the tables stay sound. |
| GlobalValueNumbering.GlobalValueNumbering.Replace | src/passes/global_value_numbering.cpp:163-171 | The instruction's own key goes from all scopes, so also the entry just used, and its uses read the new value. |
| GlobalValueNumbering.GlobalValueNumbering.Number | src/passes/global_value_numbering.cpp:69-80 | The instruction is replaced by what its search gives, or stays and is known afterwards; it fails exactly when the search nests deeper than fuel. |
| GlobalValueNumbering.GlobalValueNumbering.LVN | src/passes/global_value_numbering.cpp:68-84 | A block is numbered and everything replaced in it waits for deletion, unless a search nests deeper than fuel; with address computations local to extended blocks none does; whatever repeats a binary operation that stands in the block, with nothing in between that erased its entry, has been replaced. |
| GlobalValueNumbering.GlobalValueNumbering.SVN | src/passes/global_value_numbering.cpp:46-67 | An extended block is numbered inside balanced scopes, outer scopes keep their address computations and otherwise only lose entries, no block is numbered twice; unless a search nests deeper than fuel, which none does with local address computations. |
| GlobalValueNumbering.GlobalValueNumbering.Run | src/passes/global_value_numbering.cpp:16-36 | Goes as the numbering specified, and from a computed depth on it ends exactly when the numbering watched for circles does; it ends if address computations are local to extended blocks, and fails only at a search that is circular and never ends. When it ends, every reachable block is numbered exactly once, each replacement is an equal value that dominates and stays, the blocks lose exactly the replaced instructions, all scopes are closed. In every block whatever repeats an earlier binary operation that stands, on the same or, if it commutes, on swapped operands, has been replaced, unless a replacement in between erased its entry. |
| ValueRun.RunsAgree | src/passes/global_value_numbering.cpp:163-171 | Along every path the numbered function executes the other instructions with the same operand values in the same order, and every instruction that stays has the same value wherever it is available. |

## Left out

- Parser, lexer, printers, graph drawing, file output and the construction of the structured IR.
- Conditional constant propagation, phi removal, load and store elimination, loop-invariant motion, inlining: not modelled.
- Float arithmetic: float values are words that are moved, converted and printed. What the conversion of a float outside the 64-bit integers leaves is a parameter of `Initializer.EmitGlobal`, because C++ leaves it undefined.
- Per-block fields of the source's objects are maps of the analysing class keyed by block numbers, so aliasing of blocks is not captured, except in `UseLists`, which works on heap objects.
- Dominators.Dominators.CreateIDoms: blocks without a path from the entry have no parent here and in the code; the frontier results assume that there are none, as the pass does.
- Mem2Reg.Mem2Reg.Run: stores that are scanned before the alloca of their slot are not recorded by the code; allocas are assumed to come first. Reading a slot before any store gives an arbitrary value. The undefined marker is one value for all types.
- LoopAnalysis.LoopFinder.Run: the maps from loops to headers and back, and the rebuilding of the graph before the next function, are not modelled; the entry is assumed to have no predecessor.
- HirToMir.HirToMir.GenBasic: an empty block counts as one without break or continue; the code reads the last instruction of an empty list there. A break or continue stands last in its block.
- HirToMir.HirToMir.GenConds: condition blocks that are terminated already are taken as given, with branches to later blocks or to the two outcomes. Predecessor and successor lists of branches are not modelled.
- DivConst.ChooseMultiplier: the logarithm is computed exactly, not in floating point; for divisors 1 and -1 the code computes a multiplier that it does not use, which is not modelled.
- DivConst.Emit: the divisor -2^31 is excluded, because its absolute value overflows.
- LowerIr.LowerIr.Run: one block; uses in other blocks are counted. Constants other than -2^31 only. `convertRem2And`, whose guard contradicts itself, and the pair `convertMlaLoad2LoadOffset` and `deleteMla` are not modelled. Division by zero gives what the ARM instruction gives.
- LowerIr.LowerIr.Convert2Mla: the code leaves the use records of a deleted product's operands behind; uses are counted without them here, which decides no fusion differently because such an operand keeps a use in the multiply-add.
- LinearScan.FindPlace: middles are doubled integers; the code computes them in single precision, which is exact for positions below 2^23.
- LinearScan.LinearScan.Run: live intervals are inputs, call intervals come first, placement is assumed to find one of the registers in `Intervals.NothingLost`; the check for too many registers and the copies of offsets into the recorded intervals are not modelled.
- CallArgs.ArgsDelivered: the address argument of the call that clears memory and the delivery of results into registers after helper calls are not modelled.
- PushPop.EmitPush: registers are values, not text; lists without an integer register give invalid code, which `PushPop.CodeEncodable` states.
- Initializer.GenerateInitializer: arrays have no empty dimension and are filled completely, as the front end builds them.
- UseLists.Node.ReplaceAllUse: a value with a use that replaces itself is excluded; `UseLists.SelfNeverEnds` says why.
- DeadCode.SweepPreserves: calls without side effects terminate and change nothing. Removing dead functions, returns, stores and loads is not modelled.
- GlobalValueNumbering.GlobalValueNumbering.LookUpOrAdd: the model stops when look-ups nest deeper than fuel, where the code goes on; `ValueSearch.Enough` of fuel tells the two apart. The order of addresses is an input. Constants of one name cannot stand in one scope twice, so the order of constants plays no part.
- GlobalValueNumbering.GlobalValueNumbering.Run: one function; the entry is assumed to have no predecessor. That look-ups end is proved for code in which binary operations take no address, as the types of the IR demand. The meaning of the numbered operations is a parameter in which commutative operations commute. The second search of a constant and the second test of a commutative key, which repeat the first, are left away.
