# Atrox: verified models of the loop-splitting and extraction passes

Atrox splits the blocks of a loop into iterator and payload code, chooses a region of payload
blocks, and clones that region into a new function. This project models those algorithms over a
small SSA form and proves what they are for.

* `Ssa` is the SSA form and its runs: one step per instruction, all phis of a block evaluated at
  once on the edge into it. `SameRuns(f, g, hidden)` says that every run of f is kept by g and
  every run of g is a genuine run of f, up to the instructions in `hidden`.
* `Split`, `Partition`, `Pieces`, `BlockSeparator`, `Slices`, `SeparatorPass`: the block separator.
* `Rewrite`, `Sever`, `SeverRuns`, `SeverSteps`, `SeveredShape`, `ExtractorRegion`: splitting off
  the header of a region that is entered from several places.
* `InputsOutputs`, `InputOrder`, `InputOutputMap`, `StackAllocas`, `LoopBounds`, `ArgUtils`: what the extractor
  computes before it clones.
* `Clone`, `CloneRuns`, `CloneCall`, `Threading`: what the new function has to be, and the
  simulation between its calls and runs of the region.
* `CloneSteps`, `CloneStages`, `CodeExtractor`, `Extraction`, `Closure`, `StaleInputs`, `Wiring`, `Delivery`: the
  extractor as an object with its fields, step by step, the proof that what it builds is that function,
  and the exact condition under which it mentions nothing of the old one.
* `Example`: a counting loop for which all hypotheses of the simulation and of the threading hold, for
  any number of calls.
* `Counterexamples`: functions for which the code does less than its comments promise.
* `PayloadTree`, `Selector`, `LoopBodyCloner`: choosing the region, putting it in order, and the way from
  a loop to the function that is stored for it.
* `Flatten`: mixed-radix index arithmetic in 64-bit words.

The opcodes that neither touch memory nor allocate are arbitrary functions of their operands.
Answers of analyses outside the repository (which instructions are iterators, which loops are all
payload, dispositions, memory accesses, induction variables, the reverse post order) are
parameters; what is assumed of them is a named predicate: `Traversal` and `Reducible` for the
order, `IsForest` and `OwnHeaders` for the loops, `Strict` for SSA dominance inside a region (a
dataflow certificate), `OutsKnown` for outputs that dominate the exits.

Where the code does less than its comments promise, the model follows the code:

* After phis of both modes, the piece that starts right behind them is recorded with the opposite of
  its mode (`Counterexamples.WrongMode`). A block's pieces are all recorded right if and only if its
  phis were of one mode (`PiecesRightIff`; `SeparatedPiece` says it piece by piece), and a second run
  finds the cut after mixed phis again (`SecondRun` says exactly when).
* Two loop-carried inputs can share a cell (`Counterexamples.SharedCell`). All cells are apart if and
  only if no two inputs, each the last to take some output, take the same output last
  (`CellsApartIff`), and a pairing can be undone if and only if no later input takes the output that
  the input takes last (`InverseIff`).
* A second `prepare()` lengthens the list of initial values but not the list of slots
  (`SecondRunMisaligns`; `Counterexamples.PreparedTwice`).
* Entries into blocks other than the header are only logged, and inputs are computed before the header
  is severed. The new function can then be left with names of the old one
  (`Counterexamples.TwoWaysInNotClosed`, `Counterexamples.EnteredLoopNotClosed`). It has none if and
  only if no phi of another block takes a value from outside the region and the header either needs
  no severing or has no branch back to it and no phi that the region uses elsewhere or that is
  stored (`ClosedIffCloseable`). Where phis are complete, the first part says that no other block with
  phis is entered from outside (`WithinIffEntered`); a block without phis may be
  (`Counterexamples.TwoWaysNoPhiClosed`). The simulation is of regions whose header needs no severing;
  severing itself is proved separately.
* Flattening drops the first index; the address is right exactly when that index steps over a
  multiple of the address space (`SameAddress`; `Counterexamples.DroppedIndex`).

## Model

| member | source | states |
|---|---|---|
| Split.SplitKeepsRuns | lib/Transforms/BlockSeparator.cpp:122 | splitting a block at any position keeps every run, phis of the successors that named the old block included, once the inserted branch is hidden |
| Pieces.SplitManyKeepsRuns | lib/Transforms/BlockSeparator.cpp:114-123 | splitting at any ascending list of positions, last first, keeps every run |
| Pieces.SplitManyPieces | lib/Transforms/BlockSeparator.cpp:117-123 | piece j of the split block holds exactly the instructions between cut j-1 and cut j, phis first, the old terminator last |
| Pieces.PiecesJoin | lib/Transforms/BlockSeparator.cpp:117-123 | the code of the pieces, one after the other, is the code of the block |
| BlockSeparator.NoPieceEmpty | lib/Transforms/BlockSeparator.cpp:84-105 | no piece is without an instruction of the block |
| Partition.CutsSuffice | lib/Transforms/BlockSeparator.cpp:84-105 | cutting at the recorded points leaves pieces of one mode each, an unconditional branch going with either |
| Partition.CutIsForced | lib/Transforms/BlockSeparator.cpp:92-101 | every partition into pieces of one mode has to cut between the ends of each recorded change, or at it |
| Partition.CutsAreLeast | lib/Transforms/BlockSeparator.cpp:84-105 | no partition of the block into pieces of one mode has fewer cuts |
| Partition.CutsAlternate | lib/Transforms/BlockSeparator.cpp:92-101 | the modes recorded with consecutive points alternate |
| SeparatorPass.ScanBlock | lib/Transforms/BlockSeparator.cpp:50-105 | the scan of one block finds exactly the points of its cuts and tells whether the block is of one mode |
| SeparatorPass.FindSplitPosition | lib/Transforms/BlockSeparator.cpp:120-122 | the instruction to split at is found at the position the cut names |
| SeparatorPass.Unit.FindPartitionPoints | lib/Transforms/BlockSeparator.cpp:44-109 | points for exactly the blocks of the loop that have cuts, modes for exactly the blocks of one mode, and the answer tells whether there is anything to split |
| SeparatorPass.Unit.SplitBlock | lib/Transforms/BlockSeparator.cpp:122 | the function after one split at an instruction, with the new block in every loop the old one was in |
| SeparatorPass.Unit.SplitAtPoints | lib/Transforms/BlockSeparator.cpp:114-126 | one block split at all its points from the back; the recorded mode of each piece |
| SeparatorPass.Unit.SplitAtPartitionPoints | lib/Transforms/BlockSeparator.cpp:111-129 | whatever order the points are visited in: every run kept, every block of the loop of one mode afterwards and a piece of an original block; its recorded mode is its own if and only if the phis of that block were of one mode or the piece is neither those phis nor what starts right behind them, a bare branch aside; quiet exactly when all phis were of one mode |
| BlockSeparator.SeparatedPiece | lib/Transforms/BlockSeparator.cpp:114-126 | a piece has one mode, and the mode recorded for it is that one if and only if it can be trusted |
| BlockSeparator.MixedCuts | lib/Transforms/BlockSeparator.cpp:69-105 | after phis of both modes the first cut is right behind them, and the piece it starts is recorded with the opposite of its mode |
| SeparatorPass.PiecesRightIff | lib/Transforms/BlockSeparator.cpp:111-129 | the pieces of one block are all recorded right if and only if its phis had one mode |
| Counterexamples.WrongMode | lib/Transforms/BlockSeparator.cpp:69-105 | a loop of one block with phis of both modes: the piece behind the phis is the iterator's and is recorded as payload |
| SeparatorPass.SecondRun | lib/Transforms/BlockSeparator.cpp:55-108 | a second run finds nothing if and only if no block of the loop had phis of both modes |
| SeparatorPass.Unit.Perform | lib/Transforms/Passes/BlockSeparatorPass.cpp:144-169 | after all loops in turn, every block of every loop with iterator info has one mode under that loop's info, phis are still together and runs are kept; every block is a slice of an old one, in the loops that one was in, between cuts that some loop with info asks for; and something is split if and only if some loop with info has a block with a cut |
| Slices.BoundaryIsForced | lib/Transforms/Passes/BlockSeparatorPass.cpp:145-166 | with phis of one mode, every place the pass cuts a block at is in every way of cutting it that leaves pieces of one mode for each of its loops |
| Slices.StaysWhole | lib/Transforms/Passes/BlockSeparatorPass.cpp:145-166 | a block for which no loop with info asks for a cut keeps its code, and no new block comes from it |
| Slices.NothingAsked | lib/Transforms/Passes/BlockSeparatorPass.cpp:152-156 | without info for any loop no block is added |
| Slices.CutOfSlice | lib/Transforms/BlockSeparator.cpp:84-105 | a cut of a piece is a cut of the block it comes from |
| BlockSeparator.SplitManyKeepsSolid | lib/Transforms/BlockSeparator.cpp:111-126 | splitting for one loop never mixes modes that another loop's info had separated |
| BlockSeparator.SplitManyKeepsPhis | lib/Transforms/BlockSeparator.cpp:117-123 | no split separates the phis of a block from each other |
| SeverRuns.SeveringKeepsRuns | lib/Transforms/Utils/CodeExtractor.cpp:720-792 | severing the phis of a header keeps every run, phis that feed each other or swap included, once the new branch is hidden |
| SeverRuns.SevStep | lib/Transforms/Utils/CodeExtractor.cpp:742-791 | one step of the severed function matches one step of the old, or is the branch from the old header to the new; an edge into the header leads to the new header alone from inside the region, and to the old one from outside |
| SeverSteps.MoveIncoming | lib/Transforms/Utils/CodeExtractor.cpp:783-789 | entries from the region move to the new phi in order, the others stay in order |
| SeverSteps.CountIncoming | lib/Transforms/Utils/CodeExtractor.cpp:732-736 | the entries of a phi from inside and from outside the region are counted |
| SeverSteps.SeverPhiStep | lib/Transforms/Utils/CodeExtractor.cpp:773-790 | dealing with one more phi in place, uses first and entries second, is the same as dealing with that many phis at once |
| SeveredShape.EntryOfSevered | lib/Transforms/Utils/CodeExtractor.cpp:742-767 | outside the region only the old header branches to the new one, and nothing inside the region branches to the old one |
| SeveredShape.SeveredOnce | lib/Transforms/Utils/CodeExtractor.cpp:738-741 | every new phi has one entry from outside, so severing again would do nothing |
| SeveredShape.SeveredUnique | lib/Transforms/Utils/CodeExtractor.cpp:769-791 | in the severed function every id is still defined at one place |
| SeveredShape.SeveredBelow | lib/Transforms/Utils/CodeExtractor.cpp:769-791 | the severed function mentions no name beyond the new ones it was given |
| CodeExtractors.CodeExtractor.BypassHeader | lib/Transforms/Utils/CodeExtractor.cpp:757-767 | exactly the predecessors listed in the first phi that lie in the region branch to the new header |
| CodeExtractors.CodeExtractor.SeverPhi | lib/Transforms/Utils/CodeExtractor.cpp:773-790 | one turn of the loop over the phis of the old header |
| CodeExtractors.CodeExtractor.SplitOff | lib/Transforms/Utils/CodeExtractor.cpp:742-751 | with no branch back from the region, the header is split off and its phis stay behind: runs kept, one entry |
| CodeExtractors.CodeExtractor.SeverOff | lib/Transforms/Utils/CodeExtractor.cpp:742-791 | with branches back, the loops that redirect branches and deal out phis add up to the severed function: runs kept, one entry, nothing left to sever |
| CodeExtractors.CodeExtractor.SeverSplitPHINodes | lib/Transforms/Utils/CodeExtractor.cpp:720-792 | nothing happens unless severing is needed; otherwise the region gets a new header with one entry, split off or severed as its first phi tells, and no block of the region branches to the old one; runs are kept either way |
| ExtractorRegion.NeedsSeveringIff | lib/Transforms/Utils/CodeExtractor.cpp:720-741 | severing is needed if and only if the header is the function's entry or two entries of its first phi come from outside the region |
| CodeExtractors.CodeExtractor.SplitReturnBlocks | lib/Transforms/Utils/CodeExtractor.cpp:794-812 | afterwards no block of the region returns, its code and phis are as before, and every run is kept; without returns nothing changes |
| CodeExtractors.BuildExtractionBlockSet | lib/Transforms/Utils/CodeExtractor.cpp:203-247 | the region is all of the given blocks if none of them allocates, and none otherwise |
| CodeExtractors.CodeExtractor.constructor | lib/Transforms/Utils/CodeExtractor.cpp:249-259 | a fresh extractor for a valid list of blocks |
| InputsOutputs.FindInputsOutputs | lib/Transforms/Utils/CodeExtractor.cpp:629-648 | inputs and outputs are collected in the order of the scan, each once |
| InputsOutputs.InputsAre | lib/Transforms/Utils/CodeExtractor.cpp:633-640 | the inputs are exactly the arguments and outside values the region uses, without repetition |
| InputsOutputs.OutputsAre | lib/Transforms/Utils/CodeExtractor.cpp:642-646 | the outputs are exactly the values of the region used outside it, without repetition |
| InputOrder.InputsInOrder | lib/Transforms/Utils/CodeExtractor.cpp:630-640 | one input stands before another if and only if its first use, by block of the region, instruction and operand, comes first |
| InputOrder.OutputsInOrder | lib/Transforms/Utils/CodeExtractor.cpp:630-647 | one output stands before another if and only if the region defines it first |
| InputOutputMap.MapInputsOutputs | lib/Transforms/Utils/CodeExtractor.cpp:687-715 | the loops compute the map from inputs to the last output each takes, and from outputs to the last input that takes each |
| InputOutputMap.PairedWithLast | lib/Transforms/Utils/CodeExtractor.cpp:691-706 | the cell of an input is that of the last output among the values of its phi |
| InputOutputMap.PairedBackWithLast | lib/Transforms/Utils/CodeExtractor.cpp:691-706 | an output belongs to the last input whose phi takes it |
| InputOutputMap.InRange | lib/Transforms/Utils/CodeExtractor.cpp:691-714 | every bidirectional input has an index in range, of itself or of a value it takes |
| InputOutputMap.InverseIff | lib/Transforms/Utils/CodeExtractor.cpp:691-706 | the pairing of an input can be undone if and only if no later input takes the output that it takes last |
| InputOutputMap.MutualInverse | lib/Transforms/Utils/CodeExtractor.cpp:691-714 | when no phi takes two outputs, going from a bidirectional input to its output and back is the identity |
| InputOutputMap.MutualInverseBack | lib/Transforms/Utils/CodeExtractor.cpp:691-706 | and so is going from an output to its input and back, when no output is an input |
| InputOutputMap.BidirectionalIff | lib/Transforms/Utils/CodeExtractor.cpp:691-714 | an input is bidirectional if and only if it is the last to take some output |
| InputOutputMap.SameCellIff | lib/Transforms/Utils/CodeExtractor.cpp:691-706 | two inputs have the same cell if and only if they take the same output last |
| InputOutputMap.CellsApartIff | lib/Transforms/Utils/CodeExtractor.cpp:691-714 | all bidirectional inputs have cells of their own if and only if no two inputs that are each the last to take some output take the same output last |
| InputOutputMap.CellsApart | include/Atrox/Support/IR/ArgUtils.hpp:32-41 | in particular when no phi takes two outputs |
| Counterexamples.SharedCell | lib/Transforms/Utils/CodeExtractor.cpp:697-705 | a function and a region whose own inputs, outputs and phis make two bidirectional inputs share a cell |
| StackAllocas.FindStackAllocatable | lib/Transforms/Utils/CodeExtractor.cpp:443-519 | the slots and the initial values pushed for each input, in the order of the three tests |
| StackAllocas.SlotsHave | lib/Transforms/Utils/CodeExtractor.cpp:443-519 | the slots are the inputs of the three kinds; those of inner loops have no initial value, those of outer loops their start or 354, those of conditions 5 |
| StackAllocas.AlignedIff | lib/Transforms/Utils/CodeExtractor.cpp:443-519 | on a fresh extractor the two lists have one length if and only if no input is of two kinds, and then they are aligned |
| StackAllocas.AlignedUnderExclusion | lib/Transforms/Utils/CodeExtractor.cpp:451-472 | under the asserted exclusions, if and only if no input is an induction variable of an outer and of an inner loop |
| StackAllocas.NestKeepsAligned | lib/Transforms/Utils/CodeExtractor.cpp:443-519 | with the answers of the loop analyzer for one nest, one preparation keeps the lists aligned |
| StackAllocas.FactsAnswer | lib/Analysis/LoopBoundsAnalyzer.cpp:301-321 | the records of the analyzed nest answer for the loop as the facts about all loops do |
| Counterexamples.PreparedTwice | lib/Transforms/Utils/CodeExtractor.cpp:411-427 | a region whose second preparation leaves one slot and two initial values |
| StackAllocas.SecondRunMisaligns | lib/Transforms/Utils/CodeExtractor.cpp:411-427 | a second preparation keeps them aligned if and only if there is nothing to allocate |
| LoopBounds.IsOuterLoopOf | lib/Analysis/LoopBoundsAnalyzer.cpp:44-54 | the walk up the parents answers whether one loop strictly encloses the other |
| LoopBounds.NotBoth | lib/Analysis/LoopBoundsAnalyzer.cpp:44-54 | no two loops enclose each other, and none encloses itself |
| LoopBounds.TopLoop | lib/Analysis/LoopBoundsAnalyzer.cpp:175-178 | the walk ends at the outermost loop of the nest |
| LoopBounds.OneTop | lib/Analysis/LoopBoundsAnalyzer.cpp:175-182 | a loop has one outermost loop, so the key of the cache is well defined |
| LoopBounds.Analyzer.Analyze | lib/Analysis/LoopBoundsAnalyzer.cpp:170-235 | whatever was analyzed before, the records are those of the nest of the given loop, as if computed afresh |
| LoopBounds.Analyzer.IsValueOuterLoopInductionVariable | lib/Analysis/LoopBoundsAnalyzer.cpp:301-310 | the value is the recorded induction variable of a loop around the given one, in whatever order the map is visited |
| LoopBounds.Analyzer.IsValueInnerLoopInductionVariable | lib/Analysis/LoopBoundsAnalyzer.cpp:312-321 | the same for a loop inside the given one |
| LoopBounds.OuterIsExact | lib/Analysis/LoopBoundsAnalyzer.cpp:190-203 | the records of one nest miss no loop around or inside the given one |
| LoopBounds.NotOuterAndInner | lib/Analysis/LoopBoundsAnalyzer.cpp:301-321 | no value is both kinds of induction variable |
| ArgUtils.ReorderInputs | lib/Support/IR/ArgUtils.cpp:29-65 | the first iterator moves to the front, and the answer tells whether the order changed |
| ArgUtils.ReorderedSame | lib/Support/IR/ArgUtils.cpp:47-57 | the reordered inputs are the same ones, each once |
| ArgUtils.IteratorFirst | include/Atrox/Transforms/Utils/CodeExtractor.hpp:168-178 | a pure iterator becomes argument 0, the other pure inputs keep their order, and none of them is an iterator if it was the only one |
| ArgUtils.GenerateArgDirection | lib/Support/IR/ArgUtils.cpp:95-142 | entry i is the direction of argument i, inputs first and outputs after them |
| ArgUtils.GenerateArgIteratorVariance | lib/Support/IR/ArgUtils.cpp:67-93 | entry i tells whether argument i varies with the iterator |
| CodeExtractors.CodeExtractor.IncomingValues | lib/Transforms/Utils/CodeExtractor.cpp:692-698 | the values taken by each phi of the function, by the value the phi defines |
| CodeExtractors.CodeExtractor.Prepare | lib/Transforms/Utils/CodeExtractor.cpp:411-427 | inputs, outputs, both maps and the slots of the region; on a fresh extractor, all that cloning needs of them |
| CodeExtractors.CodeExtractor.GetPureInputs | include/Atrox/Transforms/Utils/CodeExtractor.hpp:168-178 | the inputs that are neither bidirectional nor stack slots, in order |
| CloneSteps.CloneBasicBlock | lib/Transforms/Utils/CodeExtractor.cpp:1190-1193 | a copy of a block under new consecutive ids, operands untouched, with the value map extended |
| CloneSteps.NameSomeNumbered | lib/Transforms/Utils/CodeExtractor.cpp:1190-1193 | the value map stays one to one and stays within the ids handed out |
| CloneSteps.StepsMakeClone | lib/Transforms/Utils/CodeExtractor.cpp:1228-1275 | copying, replacing inputs, diverting branches, remapping and fixing the header's phis, in this order, give the clone of the block |
| CloneSteps.SubstBlockMore | lib/Transforms/Utils/CodeExtractor.cpp:992-1001 | replacing one input after another amounts to replacing all of them at once; one already replaced has no uses left |
| CloneStages.StageFinished | lib/Transforms/Utils/CodeExtractor.cpp:1228-1275 | from the clones with all inputs replaced, the remaining steps make every block the clone of its original |
| CloneStages.InterfaceSeparate | lib/Transforms/Utils/CodeExtractor.cpp:834-842 | every input is passed in exactly one way: as it is, through a cell, or as a slot |
| CloneStages.SlotSubstIs | lib/Transforms/Utils/CodeExtractor.cpp:1043-1068 | slots replace exactly the allocated inputs that nothing had replaced yet, each by its own reload |
| CodeExtractors.CodeExtractor.CopyRegion | lib/Transforms/Utils/CodeExtractor.cpp:1190-1193 | every block of the region copied under one value map, one to one on labels and on ids |
| CodeExtractors.CodeExtractor.ReplaceUses | lib/Transforms/Utils/CodeExtractor.cpp:992-1001 | uses in the clones are replaced, and nothing else |
| CodeExtractors.CodeExtractor.PassPureInputs | lib/Transforms/Utils/CodeExtractor.cpp:977-1001 | pure input k is replaced by parameter k everywhere in the clones |
| CodeExtractors.CodeExtractor.LoadBidirectional | lib/Transforms/Utils/CodeExtractor.cpp:1003-1031 | each bidirectional input is replaced by a load from the cell of its output, or by the cell itself when the output is a pointer; the loads stand in order in the root |
| CodeExtractors.CodeExtractor.ReplaceStackAllocas | lib/Transforms/Utils/CodeExtractor.cpp:1042-1068 | what is left of the allocated inputs is replaced by reloads, with the slots' code after the loads |
| CodeExtractors.CodeExtractor.DivertExits | lib/Transforms/Utils/CodeExtractor.cpp:1074-1084 | branches of the clones out of the region lead to the exit |
| CodeExtractors.CodeExtractor.StoreOutputs | lib/Transforms/Utils/CodeExtractor.cpp:1086-1100 | the exit stores the remapped output of each bidirectional scalar into its cell, and no others |
| CodeExtractors.CodeExtractor.RemapExit | lib/Transforms/Utils/CodeExtractor.cpp:1218-1225 | the operands of the stores go through the value map |
| CodeExtractors.CodeExtractor.RemapCloneBlocks | lib/Transforms/Utils/CodeExtractor.cpp:814-816 | every operand, successor and incoming block of the clones goes through the value map |
| CodeExtractors.CodeExtractor.RerootHeader | lib/Transforms/Utils/CodeExtractor.cpp:1265-1275 | incoming blocks of the header's phis that are not in the new function become its root |
| CodeExtractors.CodeExtractor.CloneFunction | lib/Transforms/Utils/CodeExtractor.cpp:818-1103 | parameters, what stands for the inputs, and the code of root and exit |
| CodeExtractors.CodeExtractor.CloneRegion | lib/Transforms/Utils/CodeExtractor.cpp:1165-1275 | the new function is the clone of the region under a fresh renaming, with the interface of its inputs and outputs |
| CodeExtractors.CodeExtractor.CloneCodeRegion | lib/Transforms/Utils/CodeExtractor.cpp:1134-1287 | nothing for an empty region; else every run of the old function is kept and the new function is built, with the interface prepared before, from the region as severing and moving returns have left it; when neither happens the old function is as it was |
| CloneRuns.CloneFollows | lib/Transforms/Utils/CodeExtractor.cpp:979-1102 | for as long as a run stays in the region, of any length, the clone goes through the clones of the same blocks with the same events |
| CloneCall.RootRun | lib/Transforms/Utils/CodeExtractor.cpp:1005-1031 | all loads of the root come first, so they see the memory of the call |
| CloneCall.ExitRun | lib/Transforms/Utils/CodeExtractor.cpp:1088-1100 | the exit writes each output cell with the value of its output, and nothing else |
| CloneCall.CallOfPrefix | lib/Transforms/Utils/CodeExtractor.cpp:979-1102 | and for as long as the region runs, for ever if it is never left, the call goes through the clones in step with it, with the same trace |
| CloneCall.CallOfClone | lib/Transforms/Utils/CodeExtractor.cpp:979-1102 | called with the live-ins, the new function visits the clones of the same blocks in the same order with the same trace, is at its exit exactly when the region is left, returns the same memory, and leaves in each cell the value for the next iteration; pointers may share an address |
| Threading.IterationCarries | lib/Transforms/Utils/CodeExtractor.cpp:691-706 | after an iteration of the original, the phis of the loop header hold the outputs as the region left them |
| Threading.PointersSupplied | lib/Transforms/Utils/CodeExtractor.cpp:1003-1031 | when the bidirectional pointers are phis of the loop header too, arguments are those of the next iteration if and only if each pointer's is the output the region has just computed |
| Threading.LoopCarried | lib/Transforms/Utils/CodeExtractor.cpp:1005-1100 | called once per iteration on the same cells, for any number of iterations, the cells hold the values of the loop header's phis, and every call does what the region does |
| Example.CallsCount | lib/Transforms/Utils/CodeExtractor.cpp:1005-1100 | for every n, n calls on one cell of any function that is made from a counting loop meet all hypotheses of the threading, and the cell counts to n |
| Example.DeliveredCounts | lib/Transforms/Utils/CodeExtractor.cpp:1134-1287 | whatever the extractor delivers for the region of the counting loop is such a function, up to names |
| Example.CursorsMayMeet | lib/Transforms/Utils/CodeExtractor.cpp:1003-1031 | two bidirectional pointers that hold one address are a call, and an iteration, like any other |
| Extraction.InputsCover | lib/Transforms/Utils/CodeExtractor.cpp:629-648 | nothing the region defines is an input, and whatever else it uses is one |
| Extraction.AllReplaced | lib/Transforms/Utils/CodeExtractor.cpp:979-1068 | exactly the inputs are replaced |
| Extraction.BuiltIsExtracted | lib/Transforms/Utils/CodeExtractor.cpp:1134-1287 | without slots, what the extractor builds is the clone and the interface the simulation speaks of |
| Wiring.BuiltIsWired | lib/Transforms/Utils/CodeExtractor.cpp:977-1103 | in what the extractor builds, each pure input is its own parameter, in order; each bidirectional one whose output is no pointer is loaded from the parameter of that output, and the exit stores the output there; one whose output is a pointer is that parameter; each slot is allocated, initialised and reloaded; nothing else is read from a parameter or stored at the exit |
| Extraction.PrefixOfBuilt | lib/Transforms/Utils/CodeExtractor.cpp:1134-1287 | for as long as the region runs, a call of what the extractor built runs with it |
| Extraction.CallOfBuilt | lib/Transforms/Utils/CodeExtractor.cpp:1134-1287 | so a call of what the extractor built does what the region does |
| Extraction.PairingCarries | lib/Transforms/Utils/CodeExtractor.cpp:691-706 | the pairing of inputs with outputs is the one the threading needs, when each carried phi takes some output around every back edge and none takes two |
| Closure.ClosedIff | lib/Transforms/Utils/CodeExtractor.cpp:1074-1275 | every operand of the new function is a constant, a parameter or its own, and every successor and incoming block one of its blocks, if and only if no phi but the header's takes a value from outside the region, the inputs cover what it uses and the stored outputs are its own |
| Closure.BuiltIsClosed | lib/Transforms/Utils/CodeExtractor.cpp:1074-1275 | with the inputs and outputs of the region as it is cloned, slots or not: if and only if no phi but the header's takes a value from outside the region |
| StaleInputs.ClosedIffCloseable | lib/Transforms/Utils/CodeExtractor.cpp:1134-1287 | with the inputs prepared before the header is severed and returns move: if and only if, in the function as given, no phi but the header's takes a value from outside the region, and a header that has to be severed has no branch back to it and no phi used elsewhere in the region or stored |
| StaleInputs.NotClosedSevered | lib/Transforms/Utils/CodeExtractor.cpp:773-790 | once the phis of a header are severed, the new header names a phi of the old one, which is neither an input nor cloned |
| Counterexamples.TwoWaysInNotClosed | lib/Transforms/Utils/CodeExtractor.cpp:225-247 | a region with a second block with phis entered from outside that meets all demands, and whose new function is not closed |
| Counterexamples.TwoWaysNoPhiClosed | lib/Transforms/Utils/CodeExtractor.cpp:225-247 | the same edges without phis, and every new function is closed |
| Counterexamples.EnteredLoopNotClosed | lib/Transforms/Utils/CodeExtractor.cpp:720-792 | a region of one block whose header has to be severed, and whose new function is not closed |
| Delivery.CallsOfMade | lib/Transforms/Utils/CodeExtractor.cpp:1134-1287 | every call of the new function that a run of the region can ask for keeps up with that run, whatever the run and however long, and returns what the region leaves if it is left, when there are no slots |
| Delivery.Delivers | lib/Transforms/Utils/CodeExtractor.cpp:1134-1287 | preparing and cloning together: the new function is built with the prepared interface, every input wired as above, it is closed exactly when the region is closeable, and when nothing had to move it is built from the function as given and its calls do what the region does |
| PayloadTree.GrowGroup | lib/Analysis/PayloadTree.cpp:88-103 | the worklist ends, even for a root that was absorbed before, with everything reached inside the group and its successors settled |
| PayloadTree.FindBlacklist | lib/Analysis/PayloadTree.cpp:50-73 | iterator blocks, latch, header and the blocks of inner loops with an iterator header |
| PayloadTree.AllowedIs | lib/Analysis/PayloadTree.cpp:50-73 | what is off the blacklist are the payload blocks that are not the header, a latch or in an inner loop whose header is not payload |
| PayloadTree.FindRoots | lib/Analysis/PayloadTree.cpp:75-86 | the payload blocks off the blacklist that an iterator block leads to |
| PayloadTree.SelectPayloadTrees | lib/Analysis/PayloadTree.cpp:33-116 | in whatever order roots and blocks are taken, a block is in some group if and only if a path leads to it from behind a loop block that is not payload, over payload blocks that are not the header, a latch or in an inner loop whose header is not payload; groups are rooted, share roots only, and an absorbed root's group is the root |
| PayloadTree.UnionIsReach | lib/Analysis/PayloadTree.cpp:88-103 | the union does not depend on the order |
| Selector.Candidates | lib/Analysis/IteratorRecognitionSelector.cpp:64-71 | the blocks of the loop but its header and latches, in the same order |
| Selector.Calculate | lib/Analysis/IteratorRecognitionSelector.cpp:43-112 | the choice is everything before the first block that may not be taken, inner loops whole, and nothing else |
| Selector.ChoiceIs | lib/Analysis/IteratorRecognitionSelector.cpp:73-110 | every candidate before the end of the choice is taken, inner loops whole; each chosen block comes from a payload block or an inner loop that is all payload; and the candidate the choice stops at is neither |
| Selector.EnteredFromEnds | lib/Analysis/IteratorRecognitionSelector.cpp:64-110 | every edge into the choice from outside comes from the header or a latch of the loop |
| LoopBodyCloners.Reorder | include/Atrox/Transforms/LoopBodyCloner.hpp:101-111 | the chosen blocks in the order of the traversal |
| LoopBodyCloners.InOrderPermutes | include/Atrox/Transforms/LoopBodyCloner.hpp:101-111 | a permutation of the choice when the choice lies in the loop |
| LoopBodyCloners.InOrderIs | include/Atrox/Transforms/LoopBodyCloner.hpp:105-110 | without repetition and in increasing order of the traversal |
| LoopBodyCloners.HeaderFirst | lib/Transforms/Utils/CodeExtractor.cpp:1138-1140 | if one chosen block has predecessors outside the choice, that block comes first |
| LoopBodyCloners.WithinIffEntered | lib/Transforms/Utils/CodeExtractor.cpp:225-247 | with complete phis, no phi but the header's takes a value from outside if and only if no other block with phis has a predecessor outside |
| LoopBodyCloners.OneEntryWithin | include/Atrox/Transforms/LoopBodyCloner.hpp:101-111 | when one chosen block has predecessors outside the choice, no phi but that of the first block takes a value from outside |
| LoopBodyCloners.ClosedOfLoop | include/Atrox/Transforms/LoopBodyCloner.hpp:86-216 | and the function extracted for the loop is closed when that block needs no severing |
| LoopBodyCloners.OneIteratorFirst | include/Atrox/Transforms/LoopBodyCloner.hpp:139-162 | when one input is an iterator and it is pure, the check counts one, and that one is argument 0 |
| LoopBodyCloners.LoopBodyCloner.DescribeArguments | include/Atrox/Transforms/LoopBodyCloner.hpp:183-212 | names, directions and variance are lists of one length, and entry k of each describes parameter k |
| LoopBodyCloners.LoopBodyCloner.CloneLoop | include/Atrox/Transforms/LoopBodyCloner.hpp:86-216 | a loop is extracted if and only if blocks are chosen, none of them has a call where such loops are skipped, none allocates, and with iterator info exactly one input that shares no cell and has no slot is an iterator; the old function keeps its runs; the function stored is the one delivered for the chosen blocks in order, with all that Delivers says of it, and entry k of its list describes its parameter k |
| LoopBodyCloners.LoopBodyCloner.AnalyzeAndClone | include/Atrox/Transforms/LoopBodyCloner.hpp:233-247 | one turn of cloneLoops: with the nest of the loop analyzed first, whatever was analyzed before, the bounds come from the facts about all loops around and inside it, and the loop is cloned |
| LoopBodyCloners.Extract | include/Atrox/Transforms/LoopBodyCloner.hpp:136-186 | a fresh extractor, prepared, checked and run: there is a new function if and only if there are blocks, none allocates, and with iterator info exactly one pure input is an iterator; it is delivered for the inputs, outputs, pairing and slots of the region, and its pure inputs and outputs are the arguments in order |
| LoopBodyCloners.RunExtractor | lib/Transforms/Utils/CodeExtractor.cpp:1134-1287 | a prepared extractor run once: what it returns is delivered for what it holds, and its old function keeps its runs |
| Flatten.GetDecomposedArraySizes | lib/Transforms/DecomposeMultiDimArrayRefs.cpp:80-99 | the sizes of the nested array type, outermost first |
| Flatten.FlattenMultiDimArrayIndices | lib/Transforms/DecomposeMultiDimArrayRefs.cpp:101-150 | for two dimensions and more, the row-major position of the indices, in wrapping 64-bit words |
| Flatten.WithinIsFlat | lib/Transforms/DecomposeMultiDimArrayRefs.cpp:116-150 | the offset by the nested type is the row-major position times the size of an element |
| Flatten.SameAddress | lib/Transforms/DecomposeMultiDimArrayRefs.cpp:134-164 | the new address is the old one modulo 2^64 if and only if the step by the dropped index is zero modulo 2^64 |
| Counterexamples.DroppedIndex | lib/Transforms/DecomposeMultiDimArrayRefs.cpp:134-164 | an access 24 bytes on through a pointer to an int[2][3] that becomes one to the first element |
| Flatten.NoWrap | lib/Transforms/DecomposeMultiDimArrayRefs.cpp:116-150 | within the bounds and with a product that fits, nothing wraps and the position is below the product |
| Flatten.FlatOrders | lib/Transforms/DecomposeMultiDimArrayRefs.cpp:119-150 | positions are ordered as the indices are, row by row, and equal only for equal indices |
| Flatten.RoundTrip | lib/Transforms/DecomposeMultiDimArrayRefs.cpp:119-150 | dividing by the sizes again and again gives the indices back |

## Left out

- CloneCall.CallOfClone: needs different cells for different outputs of scalars and a region that does not itself read or write these cells, allocates nothing and does not return, is entered at its header from one block, and whose outputs are computed on every way out; the code checks none of the last three.
- Threading.LoopCarried: the caller supplies the pure inputs and pointers of every iteration, and leaves the cells alone between two calls; it does not apply to a loop that comes back to the region without passing the loop header in between.
- Extraction.BuiltIsExtracted: only without stack slots, because the initial values of slots (5, 354) are placeholders that do not keep the meaning; with slots only closure and alignment are proved.
- CodeExtractors.CodeExtractor.CloneCodeRegion: when severing does change the region, the inputs and outputs are the ones computed before it, as in the code; StaleInputs.ClosedIffCloseable says when that leaves a closed function, and no simulation is claimed.
- CodeExtractors.CodeExtractor.Prepare: the scan for global inputs and outputs is left out, since globals are constants here and need no passing.
- CodeExtractors.CodeExtractor.SeverSplitPHINodes: that every phi of the header has an entry for every predecessor, and that the function's entry has no phis, is required, as LLVM's own verifier does.
- CodeExtractors.BuildExtractionBlockSet: block addresses, exception handling and variable arguments are not part of the SSA form, so only allocas make a block invalid.
- StackAllocas.FindStackAllocatable: that the loop record exists and that an inner induction variable starts from a constant is asserted in the code and not modelled.
- LoopBounds.Analyzer.Analyze: that a top loop contains the headers of exactly the loops nested in it is taken as what the forest means; scalar evolution is a table of facts.
- ArgUtils.ReorderInputs: needs an iterator among the inputs, since the code dereferences the end of the list otherwise.
- Flatten.FlattenMultiDimArrayIndices: needs one index per dimension, since the code reads past the indices otherwise; the casts and the replacement of the instruction are not modelled.
- LoopBodyCloners.LoopBodyCloner.CloneLoop: takes the answers of the loop analyzer for the inputs as sets, tied to its records, and needs an iterator among the inputs as reordering does; the record of failed loops is left out.
- LoopBodyCloners.LoopBodyCloner.AnalyzeAndClone: one turn of the loop over loops; that the function is verified again before the next turn is not modelled.
- PayloadTree.SelectPayloadTrees: pointers order the map in the code; here any order is allowed.
- `findGlobalInputsOutputs`: its erase removes one element only; globals are constants here and need no passing.
- `AggregateArgs`, function attributes, debug metadata, removal of intrinsics, flattening while cloning.
- `LoopBoundsAnalyzer::evaluate`, `isValueUsedInLoopNestConditions` and everything that computes with scalar evolution: their answers are parameters.
- `findAllocas`, `isLegalToShrinkwrapLifetimeMarkers`, `findOrCreateBlockForHoisting`: nothing calls them.
- The dominator tree and loop info updates of LLVM beyond membership of blocks in loops.
- `DecomposeMultiDimArrayRefs` as a rewrite of memory, `NaiveSelector`, payload weights, the bit tests of `ArgDirection`: they would add only easy members or do not keep memory on purpose.
- Pass registration, command-line options, white lists, JSON export and the scripts.
