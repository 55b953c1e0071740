# IYFC: a verified model of the compiler and its executor

IYFC compiles dataflow graphs of vector operations to homomorphic encryption. This project models, in
Dafny, what happens to such a graph on the SEAL-CKKS path: the graph and its mutators, the traversal
that runs rewriting passes while they change the graph, every pass from dead-code removal to lowering,
the checkers, the choice of library and of encryption parameters, and the executor that overwrites and
moves its buffers. Before the compiler stands the frontend: the operators on expressions, which build the
graphs of comparisons, queries, sorting, sums, counts and division. Beside it are the indices of grouped
graphs, and saving and loading a graph.

The main theorem is `EndToEnd.CompileAndRun`: for every acyclic program, whatever its inputs, if no
output shares its operand with another use, a run of the compiled graph on replicated, encrypted inputs
gives every output the value of plain evaluation. No checker warns on the way and the assertions listed
below hold; with all scales equal, parameters are found whenever the program is kept on SEAL, which is
exactly when the multiplication depth of the prepared graph leaves room for its primes.
`EncryptedQueries` composes it with the frontend: for every condition over columns of 32-bit numbers, what
is read from the decrypted outputs is which rows satisfy it (`SelectRows`) or how many do (`CountRows`),
and for sorting it is the order of all pairs (`SortAll`). That every query and count with up to six
connectives and every sort does run on SEAL is proved from how deep the comparison circuit becomes.

## How to read it

- `Graph.dfy`, `Semantics.dfy`: the graph as a value, its evaluation over exact reals, and `Refines`:
  every former node keeps its value and its encryption status, and no output disappears.
- `Dag.dfy`, `Traversal.dfy`, `ForwardPass.dfy`, `Usage.dfy`: the mutable graph with its use lists,
  and traversals under rewriting.
- `CleanNodes.dfy`, `Reassociation.dfy`, `Reduction.dfy`, `LogExpander.dfy`, `OperandScales.dfy`,
  `ExpandPass.dfy`, `InitDag.dfy`: what is done to a program before a library is chosen.
- `DepthBounds.dfy`, `Labels.dfy`, `ProgramDepth.dfy`: how deep a program becomes by that, known while it is built.
- `ConstantFolding.dfy`, `FoldingPass.dfy`, `Rescaler.dfy`, `RescaleSpec.dfy`, `RescalePass.dfy`,
  `EncodeInserter.dfy`, `EncodePass.dfy`, `Relinearizer.dfy`, `RelinPass.dfy`, `ModSwitcher.dfy`,
  `ModSwitchSpec.dfy`, `ModSwitchPass.dfy`, `Lowering.dfy`, `LoweringReach.dfy`, `LoweringPass.dfy`,
  `RemainingSubs.dfy`: the passes of `transform`.
- `Types.dfy`, `Levels.dfy`, `ScalesChecker.dfy`, `ParameterChecker.dfy`: type inference and the checkers.
- `Threads.dfy`, `ThreadedScales.dfy`, `Kinds.dfy`, `Sizes.dfy`, `LoweredSizes.dfy`, `Stages.dfy`,
  `Chains.dfy`, `ChainLevels.dfy`, `Uniform.dfy`: properties carried from pass to pass.
- `Selector.dfy`, `PrimeList.dfy`, `GroupKeys.dfy`, `Decision.dfy`: primes, polynomial degree, library.
- `Pipeline.dfy`, `Compilation.dfy`: the stages in sequence, `transform`, `validate`, `transpile`.
- `ExecutorSpec.dfy`, `Executor.dfy`, `ExecutorSafety.dfy`, `SharedOutput.dfy`, `Replication.dfy`,
  `PlainInputs.dfy`, `EndToEnd.dfy`: execution in place, on copies that fill the slots, and everything together.
- `Exprs.dfy`: expressions, each operator making a node, with the value it has.
- `PolynomialNodes.dfy`, `CircuitDepth.dfy`, `RoundDepth.dfy`: the polynomials and rounds of comparisons
  node by node, and their depth.
- `Division.dfy`, `QuerySums.dfy`, `Comparison.dfy`, `CmpNumbers.dfy`, `Sorting.dfy`,
  `EncryptedQueries.dfy`: the circuits built from them, and programs from their inputs to what is read.
- `DagGroup.dfy`, `Attributes.dfy`, `Serialization.dfy`: grouped graphs, attribute lists, messages.

## Working assumptions

- A node is its index in an arena instead of a pointer, and NodeMaps are maps with a default value. A
  node is live when it has operands or is registered as a source.
- A program (`InitDags.Program`, `Pipeline.Compilable`) is acyclic, uses the operations of the CKKS
  path, has two operands for each addition, subtraction and multiplication and one for each other
  operation that has operands, uses no output as an operand, gives every source a positive scale, and
  has constants whose length divides the vector size; it has an input or an output. `Compilable` adds that
  dead code has been removed and that there is a source.
- Inputs are encrypted or raw vectors; the plaintext inputs `makeInput` can also create are excluded.
- Slots are exact reals. Scales, ranges and levels are unbounded integers; the 32-bit wrap-around of the
  source is modelled where `setAloName` subtracts, where && and || lower the scale, and where shifts are saved.
  The compiler is given a positive scale, `m_scale`.
- SEAL's table of modulus bits per degree is a function with finitely many positive entries; where it is
  said that a degree is found, it is increasing and ends at 881 bits.

## Assertions

An assertion of the source is a result of its method where it is a check that may fail, and is proved to hold
for every compiled program; elsewhere it is an assertion or a precondition proved at the place of the call.

- Results: pending marks and uses (iyfc/seal/alo/lazy_relinearizer.cpp:72, 80), operand levels
  (iyfc/seal/alo/levels_checker.cpp:48), and that some output needs bits
  (iyfc/seal/alo/encryption_parameter_selector.cpp:133), which decides whether `Compile` succeeds.
- Asserted: minimal scale, equal scales of an addition, the scale of a product and of the last rescale
  (iyfc/seal/alo/eager_waterline_rescaler.cpp:36, 78, 90, 98), groups of use levels
  (iyfc/seal/alo/mod_switcher.cpp:100), divisors (iyfc/seal/alo/encryption_parameter_selector.cpp:83,
  iyfc/seal/alo/parameter_checker.cpp:80), operands left when a tree is built
  (iyfc/daghandler/reduction_handler.cpp:124, 131), the key of a new attribute (iyfc/dag/node_attr.cpp:114).
- Preconditions: operands of a tree (iyfc/daghandler/reduction_handler.cpp:112), types of product operands
  (iyfc/seal/alo/lazy_relinearizer.cpp:42), numbers of operands (iyfc/seal/alo/encode_inserter.cpp:55,
  iyfc/seal/alo/scales_checker.cpp:49, 59, iyfc/daghandler/constant_handler.h:118-138), and that vectors fill
  the slots (iyfc/seal/comm/seal_public.h:117-118).
- Not modelled: iyfc/seal/alo/seal_ckks_handler.cpp:116, on the type attribute of an input.

## Findings

Properties one might expect that the code does not have, each with the exact condition proved:

- Sharing an output's operand is unsafe. `Output` moves its operand away unconditionally
  (iyfc/seal/comm/seal_executor.h:718), so a node that is executed later and uses it reads an empty
  object. In a given order this happens exactly when some operand of an output is used after it
  (`ExecutorSafety.SafeExactlyWhenOutputsLast`), and no order is affected exactly when every output is
  the only use of its operand (`ExecutorSafety.EveryOrderIsSafe`). `SharedOutput.OrderMatters` is a
  program with one order of either kind.
- Keeping a program on SEAL does not mean it fits when the scale exceeds 293 bits: 881 / scale - 3 wraps
  around (iyfc/decision/alo_decision.cpp:62). It means so exactly for scales up to 293
  (`Decision.SealMeansItFits`).
- A degree that is raised for the length of the vectors is not looked up in the table again
  (iyfc/seal/alo/seal_ckks_handler.cpp:188-198). With a vector length that is a power of two it has the bits
  asked for exactly when the vector is no longer than half the last degree of the table (`Decision.RaisedDegree`).
- Lowering does not leave every subtraction of a ciphertext from a plaintext lowered: the nodes it makes are
  never visited, so nothing behind a lowered subtraction is (iyfc/seal/alo/seal_lowering.cpp:30-40). A used
  one remains exactly when it stands behind another one (`RemainingSubs.RemainsBehind`), and none remains
  exactly when no used one stands behind another (`RemainingSubs.NoneRemains`). In c - (c - x), with the
  constant encoded, the outer one stays (`RemainingSubs.NestedStays`). Results are right nevertheless, since
  the executor computes such a subtraction itself (iyfc/seal/comm/seal_executor.h:265-283).
- In a group the key prime need not be the largest. For a single graph it is (`GroupKeys.UniformKeyIsLargest`);
  after a child was added it is not exactly when the group's scale is below 20, below the child's, and no
  divisor of twice the child's (`GroupKeys.SelectAfterAdd`, `GroupKeys.WhenChildNeedsMore`).
  A child at scale 20 in a group at scale 19 is such a case (`GroupKeys.SelectSmallKey`).
- && and || lower the scale of the graph once, by a counter of one try (iyfc/dag/expr.cpp:425, 433), but the
  counter goes below zero, which lets every further one lower it again. From the default of 60 it is lowered once exactly by
  one or two of them, stays positive exactly up to six, is zero after seven, by which the decision then
  divides, and wraps around with more (`CmpNumbers.ScaleLowered`).
- The operator ! is declared as logical negation (iyfc/dag/expr.h:195-196) and makes an arithmetic one
  (iyfc/dag/expr.cpp:183-186): on truth values it gives their negation in no slot
  (`CmpNumbers.NotIsNoNegation`).
- A count is read by truncation (iyfc/iyfc_include.cpp:416-427) where comparisons are rounded: a positive
  count is read right exactly if its slot is not below it and less than one above (`CmpNumbers.CountRead`).
- A plaintext input added to a ciphertext is accepted by the executor exactly when its scale is not below the
  ciphertext's; otherwise the rescaler makes a product of it that the executor refuses
  (`PlainInputs.PlainAddend`).
- `addDag` is documented to make all scales agree, and does so exactly when the new graph's scale is not
  above the group's (`DagGroups.ScalesAfterAdd`).
- Indices in a group collide when nodes are made in two children without the group in between, exactly
  when both got nodes (`DagGroups.MadeDirectly`).
- A constant of size zero is saved but not loaded again (`Attributes.ConstantRoundTrip`), and a message
  whose node names itself as an operand is loaded as a cyclic graph (`Serialization.LoadedAcyclic`).

## Model

| member | source | states |
|---|---|---|
| EndToEnd.CompileAndRun | iyfc/decision/alo_decision.cpp:88-99 | For any Program and inputs of vector length: preparation, choice of library, compilation and a cleaned, replicated run. The prepared graph is the cleaned program with everything reducible merged and each merged node a balanced tree in the order of the scales; SEAL is chosen exactly when its largest multiplication depth plus 3, times the scale, is at most 881, for scales up to 293, and always above. Then primes and degree are right for the compiled graph, and none are given else. The graph at the end refines the program; if the vectors fill the slots, the run does not fail, reads a moved-from object exactly when some output's operand is used after it in the order run (never, if no output of the program shares its operand), and otherwise returns for every output its value under every plain evaluation of the program. With uniform scales of at most 293 bits a degree is found whenever SEAL is chosen, and vectors whose length is a power of two always fill the slots. |
| EndToEnd.CleanAndRun | iyfc/decision/alo_decision.cpp:164-172 | The executor's own dead-node removal followed by a run, on any Runnable graph: the results are those of the graph before, unless an output's operand is used after it. |
| EndToEnd.Run | iyfc/seal/comm/seal_executor.h:511-725 | Encrypting inputs as copies, executing in the traversal's order and truncating at decryption returns the value of plain vector evaluation at every output, exactly when no operand of an output is used after it in that order. |
| EndToEnd.CompiledIsExecutable | iyfc/seal/comm/seal_executor.h:533-719 | In every Runnable graph the kinds of data at each node are those the executor's checks accept, and outputs have no uses. |
| EndToEnd.CompiledSizes | iyfc/seal/alo/lazy_relinearizer.cpp:64-105 | In every Runnable graph, at a node from which an output is reached, a ciphertext has at most three polynomials, and each one that enters a product of ciphertexts, a rotation or an output has two. |
| EndToEnd.UniformSucceeds | iyfc/decision/alo_decision.cpp:61-81 | In the uniform setting of setScaleRange (all sources and output ranges at the scale, which is at most 293), a depth for which SEAL is chosen gives a prime list of (depth + 3) * scale bits, at most 881, and a degree. |
| EndToEnd.VectorsFill | iyfc/seal/alo/seal_ckks_handler.cpp:126-195 | A vector length that is a power of two divides the slots of every degree that is found, whether it comes from the table or from the length. |
| EndToEnd.ResultsOfProgram | iyfc/seal/alo/seal_ckks_handler.cpp:31-65 | What holds of the outputs of a graph that refines a program holds of the program's outputs. |
| PlainInputs.BinaryAccepted | iyfc/seal/comm/seal_executor.h:533-719 | The executor takes a binary operation exactly when both operands are vectors, or one is a ciphertext and none a vector. |
| PlainInputs.PlainAddend | iyfc/seal/alo/eager_waterline_rescaler.cpp:60-76 | A plaintext input that is added to a ciphertext can be executed after the rescaler's visit exactly when its scale is not below the ciphertext's; what the visit makes of it is not encoded later. |
| InitDags.InitDagForDecision | iyfc/decision/alo_decision.cpp:41-60 | Cleaning, merging, expanding and counting, on any Program: the graph refines the program, has the same inputs and outputs, meets all preconditions of the compiler, and the number returned is the largest multiplication depth of an output. It is the program without dead nodes, without exactly the nodes that can be merged, and with each merged node a balanced tree over what reached it, plaintexts first and ciphertexts by scale. |
| CleanNodes.CleanDeadNodes | iyfc/daghandler/clean_node_handler.cpp:28-46 | The backward pass that erases nodes while it runs keeps exactly the inputs and the nodes from which an output is reachable, with their operands, and refines the graph. |
| CleanNodes.CleanedIsUsed | iyfc/daghandler/clean_node_handler.cpp:28-46 | Afterwards every node with operands that is no output is used. |
| Reassociation.SlotsRegroup | iyfc/daghandler/reduction_handler.cpp:37-57 | Sums and products of slot vectors depend on their operands as a multiset only, and nested ones flatten, slot by slot over exact reals. |
| Reductions.ReduceNodes | iyfc/daghandler/reduction_handler.cpp:37-57 | The merging pass on any acyclic graph whose additions and multiplications have at least two operands: it refines the graph; gone are exactly the additions and multiplications whose one use is of their own kind, each other node has, as a multiset, the operands that reach it through them, and encryption and scales stay what they are. |
| Reductions.Reduction.Visit | iyfc/daghandler/reduction_handler.cpp:37-57 | A visit merges the node into its only use exactly when it is reducible, and else changes nothing. |
| Reductions.ReducibleBefore | iyfc/daghandler/reduction_handler.cpp:37-57 | A merge makes no other node reducible: what is reducible afterwards was so before. |
| Reductions.AllMerged | iyfc/daghandler/reduction_handler.cpp:37-57 | When nothing can be merged any more, exactly what could be merged at first is gone, and every node has the operands that reach it through merged nodes. |
| Reductions.MergedRefines | iyfc/daghandler/reduction_handler.cpp:45-56 | Replacing one operand by its own operands keeps the value of every node and its encryption status, on every input. |
| LogExpander.SortOperands | iyfc/daghandler/reduction_handler.cpp:94-110 | The sorted operands are a permutation of the operands, plaintexts before ciphertexts and these by scale. |
| LogExpander.CombineOperands | iyfc/daghandler/reduction_handler.cpp:112-137 | Pairing k > 2 operands round by round leaves two roots of binary trees over consecutive parts of them, the first with 2^(h-1) leaves, under one root of height h with 2^(h-1) < k <= 2^h; every leaf and every new node is used in the trees. |
| LogExpander.RootedRefines | iyfc/daghandler/reduction_handler.cpp:130-131 | The node with its tree has the value it had over its many operands, for additions and multiplications on every input. |
| LogExpander.TreeValue | iyfc/daghandler/reduction_handler.cpp:113-129 | In any sum or product the root of a tree can be replaced by its leaves. |
| ExpandPass.ExpandReductions | iyfc/daghandler/reduction_handler.cpp:66-138 | The expanding pass on any merged graph: it refines the graph, every addition and multiplication has two operands again, and each that had more is the root of a balanced tree whose leaves are exactly these, plaintexts first and ciphertexts by scale, where scales are the unique ones with stored scales at sources, sums at products and maxima elsewhere. |
| OperandScales.KeysExist | iyfc/daghandler/reduction_handler.cpp:78-92 | Every acyclic graph has encryption and scales that follow from its opcodes and the scales of its sources. |
| OperandScales.KeysUnique | iyfc/daghandler/reduction_handler.cpp:78-92 | Encryption and scales of the nodes of an acyclic graph are determined by the graph and the scales of its sources. |
| OperandScales.ScalesRegroup | iyfc/daghandler/reduction_handler.cpp:78-92 | The scale of a sum or product depends on its operands as a multiset only, and nested ones flatten, so merging keeps all scales. |
| DepthBounds.MergedFits | iyfc/daghandler/reduction_handler.cpp:37-57 | A bound that fits the operands a node will have after merging fits the merged graph. |
| DepthBounds.DepthOfMerged | iyfc/daghandler/reduction_handler.cpp:112-137 | In the expanded graph no node is deeper than a bound that fits the merged one: a product needs the height of its tree above all operands, or one level above the last in the order if it is left over in every round. |
| Labels.NodeLabelled | iyfc/daghandler/reduction_handler.cpp:37-138 | Labels of a program under construction bound the depth of every node, and the number of its factors, whatever nodes are added later and whatever cleaning removes; making a node keeps all labels right and gives it a right one. |
| Labels.GatheredLabelled | iyfc/daghandler/reduction_handler.cpp:37-138 | A product that is certain to gather k factors through products without other uses is at most the height of a tree over k leaves deeper than they. |
| ProgramDepths.DepthOfProgram | iyfc/decision/alo_decision.cpp:41-60 | The depth counted after preparation is at most the largest label of an output, for every graph made by operators whose sources are at one positive scale. |
| Types.InferTypes | iyfc/daghandler/type_handler.cpp:30-48 | The type of every live node is what the handler infers from its operands; other entries stay. |
| Types.TypedInterprets | iyfc/daghandler/type_handler.cpp:30-48 | A node is typed Cipher exactly when an encrypted input reaches it. |
| Dags.Dag.AddOperand | iyfc/dag/node.cpp:53-60 | Appends an operand and keeps uses the exact multiset inverse of operands, and sinks the nodes without uses. |
| Dags.Dag.EraseOperand | iyfc/dag/node.cpp:62-73 | Removes the first occurrence, tells whether there was one, and keeps the same invariant. |
| Dags.Dag.EraseAllOperand | iyfc/dag/node.cpp:75-80 | Empties the operands; the node set stays consistent exactly when the node had no operands or has no uses, since sources are not updated. |
| Dags.Dag.ReplaceOperand | iyfc/dag/node.cpp:82-93 | Replaces every occurrence, keeping the invariant. |
| Dags.Dag.ReplaceUsesWithIf | iyfc/dag/node.cpp:95-112 | Moves exactly the accepted uses of a node over to another, although the use list changes while a copy of it is walked. |
| Dags.Dag.SetOperands | iyfc/dag/node.cpp:114-130 | Gives a node a new operand list, keeping the invariant and the source set right. |
| Dags.Dag.MakeNode | iyfc/dag/iyfc_dag.cpp:118-127 | Appends a node with its operands to the graph, keeping the invariant. |
| Traversals.ForwardOrder | iyfc/daghandler/traversal_handler.h:56-105 | The worklist visits every live node of an acyclic graph exactly once, after all of its operands, and ends. |
| Traversals.BackwardOrder | iyfc/daghandler/traversal_handler.h:56-105 | The same from the sinks: every live node and sink once, after all of its uses. |
| ForwardPass.FwdEnd | iyfc/daghandler/traversal_handler.h:66-104 | After a pass whose visits only touch a node's neighbourhood, every live node that was not put in front of a visited one has been visited. |
| ConstantFolding.RotateLeftValues | iyfc/daghandler/constant_handler.h:285-301 | The shift loops and copies of a left rotation give slot i + shift of the vector, cyclically, for every shift. |
| ConstantFolding.FoldableValue | iyfc/daghandler/constant_handler.h:248-332 | A node over constants evaluates to the folded vector, whatever the inputs. |
| FoldingPass.FoldConstants | iyfc/seal/alo/seal_ckks_handler.cpp:37 | Folding refines the graph, leaves no used node over constants only, keeps old scales and multiplication depths, and gives new constants the scale of a source. |
| Rescalers.EagerWaterlineRescaler.RescaleDown | iyfc/seal/alo/eager_waterline_rescaler.cpp:66-100 | The loop inserts the least number of rescales that brings the scale below divisor plus waterline, one behind the other. |
| RescalePass.RescaleEagerly | iyfc/seal/alo/eager_waterline_rescaler.cpp:39-100 | For any positive source scales: operands of an addition end at equal scales, no consumed scale reaches divisor plus waterline, rescale results are at least the waterline, inserted scale-ups are never rescaled, the scales of sources stay, and the graph is refined. With all sources at the divisor every node is at that scale and products at twice it. |
| EncodePass.InsertEncodes | iyfc/seal/alo/encode_inserter.cpp:34-70 | Every raw operand that meets a ciphertext is encoded once, at a scale that makes all scales exact; the graph is refined. |
| RelinPass.RelinearizeLazily | iyfc/seal/alo/lazy_relinearizer.cpp:64-105 | No assertion on pending marks fails; the pass only threads relinearizations into edges and refines the graph, and none is inserted that could have been put off. |
| RelinPass.WhyRelinearized | iyfc/seal/alo/lazy_relinearizer.cpp:79-90 | Behind each relinearization of the result stand two nodes, or one that takes only ciphertexts of two polynomials. |
| Sizes.SizesAfterRelinearization | iyfc/seal/alo/lazy_relinearizer.cpp:64-105 | After the pass the number of polynomials at each node is what its mark says: none exceeds three, and operands of products of ciphertexts, rotations and outputs have two. |
| ModSwitchPass.SwitchModuli | iyfc/seal/alo/mod_switcher.cpp:65-107 | The backward pass only threads mod-switches into edges; afterwards the reverse levels of every edge match, each encrypted node has a use at its own level, and all encodings met are recorded. |
| Levels.AssignLevels | iyfc/seal/alo/mod_switcher.cpp:49-63 | The destructor writes maximum minus reverse level at sources and encodings and nothing elsewhere; the maximum is that of the sources. |
| Levels.ForwardLevel | iyfc/seal/alo/levels_checker.cpp:30-60 | At every encrypted node the level the checker computes plus its reverse level is the maximum, plus one for a node that consumes a level. |
| Levels.LevelsNeverMismatch | iyfc/seal/alo/levels_checker.cpp:30-60 | Where the reverse levels of all edges match and sources hold maximum minus reverse level, the checker's assertion holds at every node. |
| Levels.SinksAtMaxLevel | iyfc/seal/alo/mod_switcher.cpp:49-63 | Encrypted nodes at reverse level zero, outputs in particular, are computed to stand at the maximum level. |
| Levels.EncodeMeetsCipher | iyfc/seal/alo/mod_switcher.cpp:55-62 | The level stored at an encoding is the level of the ciphertext it meets. |
| Levels.CheckLevels | iyfc/seal/alo/levels_checker.cpp:30-60 | The checker computes its levels for all nodes, and reports success exactly when the assertion holds at each. |
| Lowering.LoweredRefines | iyfc/seal/alo/seal_lowering.cpp:30-40 | Replacing a plaintext minus a ciphertext by the plaintext plus the negated ciphertext keeps every value on every input. |
| LoweringPass.LowerSubtractions | iyfc/seal/alo/seal_lowering.cpp:30-40 | The nodes visited are exactly the live ones behind no other subtraction of a ciphertext from a plaintext; of these each such subtraction ends without uses, all of them taken over by the sum of the plaintext and the negated ciphertext, and nothing else changes. None that is used remains if and only if no used one stood behind another. The graph is refined, and levels and scales stay matched on all edges. |
| RemainingSubs.RemainsBehind | iyfc/seal/alo/seal_lowering.cpp:30-40 | After the pass a subtraction of a ciphertext from a plaintext is there and used exactly if it was and stands behind another one. |
| RemainingSubs.NoneRemains | iyfc/seal/alo/seal_lowering.cpp:30-40 | For all graphs: none that is used remains exactly when no used one stood behind another. |
| RemainingSubs.LoweredUnused | iyfc/seal/alo/seal_lowering.cpp:30-40 | Nothing uses a lowered subtraction any more. |
| RemainingSubs.NestedStays | iyfc/seal/alo/seal_lowering.cpp:30-40 | The graph of c - (c - x) meets all preconditions of the pass, which lowers the inner subtraction only; the outer one is still used. |
| LoweringReach.ReachEnd | iyfc/daghandler/traversal_handler.h:66-104 | When the worklist is empty, what was visited are the live nodes behind no lowered subtraction, and every use of a lowered one has moved to its sum. |
| ChainLevels.LongestChainIsMaxLevel | iyfc/seal/alo/mod_switcher.cpp:49-62 | After mod-switching, the longest chain of rescales that leads to an output is the maximum level, although mod-switches are not counted. |
| ChainLevels.LongestChainKept | iyfc/seal/alo/seal_lowering.cpp:30-40 | Edits that keep chains and outputs, as lowering does, keep the longest chain; so the parameter selector reads the same number. |
| Compilation.Transform | iyfc/seal/alo/seal_ckks_handler.cpp:31-65 | All passes in sequence on any Compilable graph: the relinearizer's assertions hold, the graph is refined, levels, scales and data kinds fit everywhere, the longest chain over outputs is the maximum level, and sources keep their scales. |
| Compilation.Validate | iyfc/seal/alo/seal_ckks_handler.cpp:67-87 | On a transformed graph all three checkers are silent; every encrypted output stands at the maximum level, and each level stored at an encoding or a source is at least zero, an encoding's equal to that of every ciphertext it meets. |
| ScalesCheckers.CheckScales | iyfc/seal/alo/scales_checker.cpp:31-92 | The checker computes its scales for all nodes and is quiet exactly when none of its conditions for a warning holds. |
| ScalesCheckers.ScalesNeverWarn | iyfc/seal/alo/scales_checker.cpp:31-92 | On exact scales the recomputation finds the scale of every node that is not raw and has nothing to warn of. |
| ParameterCheckers.CheckParameters | iyfc/seal/alo/parameter_checker.cpp:38-91 | The checker computes a prime list for every node and is quiet exactly when all merged lists have the same length and primes. |
| ParameterCheckers.ParametersNeverWarn | iyfc/seal/alo/parameter_checker.cpp:38-91 | On a transformed graph it gives neither warning, and each ciphertext has dropped as many primes as its level. |
| Compilation.Compile | iyfc/seal/alo/seal_ckks_handler.cpp:236-286 | transpile on any Compilable graph, from the point where source scales are known: no assertion fails and no checker warns; it succeeds exactly when some output needs bits, and then the prime list is head, divisors and key with the head of exactly the bits the outputs need, and the degree the least one with enough bits, raised to the least power-of-two multiple with enough slots, none being found exactly when the table ends too early; the graph refines the program, can be run, and keeps outputs from sharing operands if they did not before. |
| Compilation.CompiledOutputs | iyfc/seal/alo/seal_ckks_handler.cpp:31-65 | In a graph that can be run and refines a program, any evaluation gives every output the value it has in any evaluation of the program on the same inputs. |
| Selectors.SelectPrimes | iyfc/seal/alo/encryption_parameter_selector.cpp:37-92 | Each node's prime list is the longest of its operands', extended by the divisor at a rescale; raw nodes and encodings have none. |
| Selectors.PrimesAreChain | iyfc/seal/alo/encryption_parameter_selector.cpp:37-92 | That list is as many copies of the divisor as rescales lie on the node's longest chain; mod-switches may be ignored. |
| PrimeLists.GetEncryptionParameters | iyfc/seal/alo/encryption_parameter_selector.cpp:98-168 | The list is head, longest chain from the back, and key prime; every head prime before the last is of the scale's size, and the head's bits are those needed, or raised to a rest of 20; it fails exactly when no output needs bits. |
| PrimeLists.HeadLast | iyfc/seal/alo/encryption_parameter_selector.cpp:131-143 | From this the last head prime is the scale if it divides the bits, and else the rest, but at least 20. |
| PrimeLists.HeadHolds | iyfc/seal/alo/encryption_parameter_selector.cpp:98-168 | The head's bits sum to at least range plus scale of every output, which are left at the maximum level. |
| PrimeLists.KeyIsLargest | iyfc/seal/alo/encryption_parameter_selector.cpp:98-168 | If the divisor is at most the scale, no prime exceeds the key prime exactly unless the key may be small, a condition on bits and scale alone. |
| GroupKeys.UniformKeyIsLargest | iyfc/dag/iyfc_dag.cpp:423-426 | With all sources and ranges at the scale of the graph no prime exceeds the key prime. |
| GroupKeys.KeyInGroup | iyfc/seal/alo/encryption_parameter_selector.cpp:98-168 | For outputs at the scale and range of a child, no prime exceeds the key prime exactly unless it may be small for twice the child's scale, which it may not if child and group have one scale. |
| GroupKeys.WhenChildNeedsMore | iyfc/seal/alo/encryption_parameter_selector.cpp:98-168 | Between a group and a child that is added, that is so exactly for a group scale below 20 and below the child's, unless it divides twice the child's. |
| GroupKeys.SelectAfterAdd | iyfc/dag/iyfc_dag.cpp:650-681 | Adding a child and selecting parameters for its graph: the key prime is the largest exactly unless the child needs more. |
| GroupKeys.SelectSmallKey | iyfc/seal/alo/encryption_parameter_selector.cpp:98-168 | A run of the selector whose key prime is not the largest: a child at scale 20 in a group at scale 19. |
| PrimeLists.UniformList | iyfc/seal/alo/encryption_parameter_selector.cpp:98-168 | With range and scale equal to the divisor s and d rescales, the list is d + 3 primes of s bits, (d + 3) * s in sum. |
| Uniform.ChainIsDepth | iyfc/daghandler/mult_depth_cnt.cpp:35-73 | In a uniformly rescaled graph the longest chain of every node is its multiplication depth. |
| Uniform.ChainsReachDepth | iyfc/daghandler/mult_depth_cnt.cpp:35-73 | So the longest chain over the outputs of the compiled graph is the multiplication depth of the program. |
| Decision.MultDepth | iyfc/daghandler/mult_depth_cnt.cpp:35-73 | The counting pass returns the largest number of products with an encrypted operand on a path to an output. |
| Decision.ChooseLibrary | iyfc/decision/alo_decision.cpp:61-81 | For scales up to 293, SEAL is chosen exactly when (depth + 3) * scale is at most 881; above, the subtraction wraps around and SEAL is chosen for every depth. |
| Decision.SealMeansItFits | iyfc/decision/alo_decision.cpp:61-81 | Choosing SEAL implies (depth + 3) * scale <= 881 for all depths exactly when the scale is at most 293. |
| Decision.MinDegreeForBitCount | iyfc/seal/alo/seal_ckks_handler.cpp:89-109 | The doubling search stops at the first degree whose table entry is zero or large enough: what it finds is the least degree with enough bits, and it finds none exactly when the table ends before. |
| Decision.DegreeExists | iyfc/seal/alo/seal_ckks_handler.cpp:89-109 | On an increasing table a degree is found exactly up to the table's capacity. |
| Decision.RaisedDegree | iyfc/seal/alo/seal_ckks_handler.cpp:188-198 | For vectors whose length is a power of two, the degree returned has the bits asked for exactly when the vector is no longer than half the last degree of the table. |
| Compilation.SealParametersExist | iyfc/seal/alo/seal_ckks_handler.cpp:126-195 | Whenever a program of counted depth d is kept on SEAL at a uniform scale of at most 293, the list has d + 3 primes of (d + 3) * scale <= 881 bits; some degree of the table is the least with enough bits, and the degree found is no smaller, has a slot for each value of the vector, and is that one if its slots suffice. |
| Executors.SealExecutor.CountOperands | iyfc/daghandler/node_degree_cnt.cpp:32-36 | Adds to each count the number of occurrences among the operands. |
| Executors.SealExecutor.Visit | iyfc/seal/comm/seal_executor.h:511-725 | Executing a node with overwritten and moved buffers is exactly the step of the executor's specification. |
| Executors.SealExecutor.Execute | iyfc/seal/comm/seal_executor.h:511-725 | A whole run, in the order of the traversal, never fails, reads a moved-from object exactly when an output's operand is used later, and otherwise leaves every output with its value. |
| ExecutorSafety.InPlaceIsSafe | iyfc/seal/comm/seal_executor.h:533-719 | In every order in which no output's operand is used after the output, a run ends without error, reads no moved-from object, and leaves at every output the value of pure evaluation; nodes may use an operand twice. |
| ExecutorSafety.SafeExactlyWhenOutputsLast | iyfc/seal/comm/seal_executor.h:718-719 | For every order of execution: a moved-from object is read if and only if some operand of an output is used after it. |
| ExecutorSafety.EveryOrderIsSafe | iyfc/seal/comm/seal_executor.h:718-719 | All orders are safe if and only if every output is the only use of its operand. |
| SharedOutput.OrderMatters | iyfc/seal/comm/seal_executor.h:718-719 | One program, one input, two orders: executing the output first reads a moved-from object, executing the other use first does not. |
| Replication.Replicate | iyfc/seal/comm/seal_public.h:92-125 | The replication loops fill slot k with value k modulo the vector length. |
| Replication.ReplicatedOutput | iyfc/seal/comm/seal_secret.h:90-91 | For every graph of elementwise operations and rotations, running on copies that fill the slots and truncating gives the value on vectors, if the vector size divides the slot count. |
| Division.DivHelper2 | iyfc/dag/expr.cpp:628-646 | The graph built by five rounds computes a value whose product with the divisor is 1 - (1 - rhs/512)^64 in every slot; all expressions made before keep theirs. |
| Division.Divide | iyfc/dag/expr.cpp:659-668 | The expression built has the value lhs / rhs times 1 - (1 - rhs/512)^64, in every slot with a divisor other than zero. |
| Division.ErrorBelowOne | iyfc/dag/expr.cpp:628-646 | That relative error is below one exactly for divisors between 0 and 1024. |
| Exprs.MadeValues | iyfc/dag/expr.cpp:441-445 | Making a node extends every evaluation of the graph by the meaning of its opcode on the values of its operands. |
| Exprs.BuiltIsAcyclic | iyfc/dag/expr.cpp:441-445 | What operators build is acyclic. |
| Exprs.ExprDag.MakeNode | iyfc/dag/iyfc_dag.cpp:118-127 | Adds one node to the graph; every expression keeps its value and the bounds on its depth and factors, what was not used is used only if it is an operand, and the new node's are those of its opcode over its operands'. |
| Exprs.ExprDag.Not | iyfc/dag/expr.cpp:183-186 | The operator ! makes the negative of every slot. |
| QuerySums.SumCntHelper | iyfc/dag/expr.cpp:681-706 | The graph of the linear loop and that of the halving loop both leave in slot j < 16 the sum of slots j, j + 16, ... of the given number of blocks, and zero elsewhere. |
| QuerySums.Interleaved | iyfc/dag/expr.cpp:693-699 | A strided sum is the sum of its two halves of double stride, which is what makes the halving loop refine the linear one. |
| QuerySums.QuerySum | iyfc/dag/expr.cpp:708-710 | Sums of products over the first n <= 1024 blocks. |
| Comparison.DecimalConvert | iyfc/util/math_util.cpp:34-46 | The digits of the number in base k, highest first, cut or filled to the wanted length. |
| Comparison.PolynomialsCompare | iyfc/dag/expr.cpp:218-223 | On differences of base-4 digits the degree-6 polynomials are exactly 'less' and 'equal'. |
| CircuitDepth.LessLabelled | iyfc/dag/expr.cpp:218-223 | The degree-6 polynomial for 'less' is three levels deeper than its argument: its five factors become one product, with the sum of degree 2 next to the root because its scale is the largest. |
| CircuitDepth.EqualLabelled | iyfc/dag/expr.cpp:218-223 | So is the polynomial for 'equal', a product of seven factors. |
| Comparison.RoundCompares | iyfc/dag/expr.cpp:225-243 | If all slots compare windows of n digits, one round compares windows of 2n digits. |
| RoundDepth.NextIsLeft | iyfc/dag/expr.cpp:225-243 | Where cleaning leaves the product of a round, it leaves the next equality too, so the product's equality has two uses and is not merged. |
| RoundDepth.LowerRounds | iyfc/dag/expr.cpp:225-243 | Prepared, four rounds make the comparison at most five levels deeper. |
| Comparison.CmpExprCompares | iyfc/dag/expr.cpp:189-244 | At every slot the two results compare the sixteen digits from there on as numbers. |
| Comparison.GetCmpExprP7 | iyfc/dag/expr.cpp:189-244 | The nodes made for the polynomials and the four rounds compute the two results of the specification, and are used by nothing; once prepared, 'less' is at most eight levels deeper than the difference and 'equal' seven. |
| Comparison.CmpOpHelper | iyfc/dag/expr.cpp:315-352 | The graph of subtraction, rounds, mask and fifteen shifts fills each block with the comparison at its head, at most nine levels deeper than the operands once prepared. |
| CmpNumbers.BlockIsNumber | iyfc/util/math_util.cpp:34-46 | The sixteen base-4 digits of a block are its 32-bit number. |
| CmpNumbers.EncodeOrgInputforCmp | iyfc/iyfc_include.cpp:205-229 | An error exactly above 1024 numbers, else the digits of all numbers and zeros after them. |
| CmpNumbers.PlaintToCmpExpr | iyfc/dag/expr.cpp:355-371 | A constant with one number in all 1024 blocks. |
| CmpNumbers.Less | iyfc/dag/expr.cpp:389-391 | For expressions that encode 32-bit numbers, any of 1024 blocks of the expression built is one in every slot if x < y and zero if not. |
| CmpNumbers.Equal | iyfc/dag/expr.cpp:373-375 | The same for x == y. |
| CmpNumbers.NotEqual | iyfc/dag/expr.cpp:382-384 | The same for x != y. |
| CmpNumbers.LessOrEqual | iyfc/dag/expr.cpp:398-400 | The same for x <= y, as the sum of two exclusive results. |
| CmpNumbers.Greater | iyfc/dag/expr.cpp:407-409 | The same for x > y. |
| CmpNumbers.GreaterOrEqual | iyfc/dag/expr.cpp:416-418 | The same for x >= y. |
| CmpNumbers.Connectives | iyfc/dag/expr.cpp:423-438 | On results of comparisons && and || are conjunction and disjunction in every block. |
| CmpNumbers.Both | iyfc/dag/expr.cpp:423-430 | The expression built from two results of comparisons tells their conjunction in every block, and the scale is lowered as the specification says; it has the factors of both, and is as much deeper as a tree over these is high. |
| CmpNumbers.Either | iyfc/dag/expr.cpp:431-438 | The same for the disjunction, which is one level deeper and a single factor. |
| CmpNumbers.TryReduceScale | iyfc/dag/expr.cpp:425-427 | After n connectives the counter of tries is 1 - n, and the scale 60 - 10 * (n - 1) modulo 2^32, except that the first two lower it once. |
| CmpNumbers.ScaleLowered | iyfc/dag/expr.cpp:423-438 | The scale is lowered once exactly by one or two connectives, stays positive without a wrap-around exactly up to six, and is zero after seven. |
| CmpNumbers.NotIsNoNegation | iyfc/dag/expr.cpp:183-186 | On truth values the operator ! gives their negation in no slot. |
| CmpNumbers.GetCmpOutputs | iyfc/iyfc_include.cpp:231-256 | An error exactly for an unknown output name, else the head of each block, rounded half away from zero, cast to an unsigned number and taken modulo 7. |
| CmpNumbers.ReadTruths | iyfc/iyfc_include.cpp:231-256 | Slots off by less than a half are read as the truth values they stand for, whatever the cast does to what 32 bits do not hold. |
| CmpNumbers.QueryCnt | iyfc/dag/expr.cpp:712-712 | The expression built from a comparison has the number of blocks for which it holds in every slot of the first block, and is deeper by the tree of the comparison's factors and the mask. |
| CmpNumbers.GetCntOutput | iyfc/iyfc_include.cpp:416-427 | The truncated first slot of the named output; without that output the result stays as it was. |
| CmpNumbers.CountRead | iyfc/iyfc_include.cpp:416-427 | A positive count is read right exactly if its slot is not below it and less than one above. |
| Sorting.EncodeOrgInputforSort | iyfc/iyfc_include.cpp:281-316 | An error exactly above sixteen numbers, else encodings of all pairs. |
| Sorting.PairsSorted | iyfc/iyfc_include.cpp:318-339 | On encoded pairs the circuit without mask and fill tells at the head of block n * row + column whether number row is below number column. |
| Sorting.GetSortOutputs | iyfc/iyfc_include.cpp:341-375 | An error exactly without the output of the comparison, else rows of as many cells as numbers, read from the heads of the blocks in order. |
| Sorting.ReadOrder | iyfc/iyfc_include.cpp:341-375 | From slots off by less than a half at the heads, the matrix of all comparisons. |
| EncryptedQueries.SetScaleRange | iyfc/dag/iyfc_dag.cpp:423-426 | One scale at all sources and as the range of all outputs. |
| EncryptedQueries.RunProgram | iyfc/iyfc_include.cpp:67-120 | For every graph made by operators whose outputs share no operand: compiling, encrypting, executing and decrypting gives every output the value of its expression, and happens whenever the scale is at most 293 and a bound on the depths of the outputs, plus 3, times the scale is at most 881. SEAL is chosen exactly when this holds of the depth of the prepared graph itself. |
| EncryptedQueries.BuildCondition | iyfc/dag/expr.cpp:373-438 | For every condition over columns, the slots of each block of the expression built tell whether its row satisfies it, and its depth is at most that of a comparison plus what its connectives add. |
| EncryptedQueries.QueriesFit | iyfc/decision/alo_decision.cpp:61-81 | Up to six connectives the depth of every condition, and of every count, leaves room for its primes on SEAL at the scale to which they lower it. |
| EncryptedQueries.SelectRows | iyfc/iyfc_include.cpp:205-256 | For all columns of 32-bit numbers and all conditions joined by && and ||: from encoding to reading, the results are exactly which rows satisfy the condition. An error exactly for a column above 1024 numbers; every other query with up to six connectives runs, and with seven the scale is zero. |
| EncryptedQueries.CountRows | iyfc/iyfc_include.cpp:416-427 | The same for the number of rows among the first n that satisfy the condition. |
| EncryptedQueries.BuildSortDag | iyfc/iyfc_include.cpp:318-339 | The graph has exactly the two outputs, which share no operand and are at most eight levels deep once prepared, and the first sorts the pairs. |
| EncryptedQueries.SortAll | iyfc/iyfc_include.cpp:281-375 | For every vector of up to sixteen 32-bit numbers, from encoding to reading, the program runs and the matrix holds 1 exactly where number row is below number column; an error exactly above sixteen. |
| DagGroups.RunIsSound | iyfc/dag/iyfc_dag.cpp:650-759 | In any run of adding graphs and making nodes, node indices stay pairwise distinct across children and group and below every counter, and all counters agree after each step. |
| DagGroups.RunKeeps | iyfc/dag/iyfc_dag.cpp:650-681 | After any run of adding graphs and making nodes the group's vector size is the largest of its first one and those of all children added, and its scale the smallest. |
| DagGroups.SameIndexSameNode | iyfc/dag/iyfc_dag.cpp:745-759 | Two nodes of a group have the same index exactly when they are the same node. |
| DagGroups.DagGroup.UpdateGroupIndex | iyfc/dag/iyfc_dag.cpp:745-759 | Sets all counters to the largest of them and changes nothing else. |
| DagGroups.DagGroup.AddDag | iyfc/dag/iyfc_dag.cpp:650-681 | The four outcomes in order. On success the group's vector size is the larger of its own and the child's, every graph gets the child's scale if that is below the group's and else keeps its own, all counters stand at the larger one, and sizes of children, nodes, inputs and outputs stay, field by field; otherwise nothing changes. |
| DagGroups.DagGroup.MakeNodes | iyfc/dag/iyfc_dag.cpp:683-695 | New nodes get fresh indices in the graph they belong to, and all counters move past them. |
| DagGroups.DagGroup.DecisionPasses | iyfc/decision/alo_decision.cpp:101-113 | The passes over all children are a run of the specification. |
| DagGroups.Subdag.AllocateIndex | iyfc/dag/iyfc_dag.cpp:241-246 | Returns the counter, raises it, and updates the least index. |
| DagGroups.LiftedCanBeAdded | iyfc/dag/iyfc_dag.cpp:650-657 | A new graph whose counter was set to m before its nodes were made passes addDag's checks exactly when m is at least the group's counter, given inputs, outputs and a free name. |
| DagGroups.MadeDirectly | iyfc/dag/iyfc_dag.cpp:683-695 | Nodes made in two children without the group keep indices distinct exactly when one child got none. |
| DagGroups.ScalesAfterAdd | iyfc/dag/iyfc_dag.cpp:672-678 | All scales agree after addDag exactly when the new graph's scale is not above the group's. |
| Attributes.AttrList.Has | iyfc/dag/node_attr.cpp:51-64 | Tells whether the key is in the sorted list. |
| Attributes.AttrList.Get | iyfc/dag/node_attr.cpp:69-81 | Finds the value under the key, or fails exactly when there is none. |
| Attributes.AttrList.Set | iyfc/dag/node_attr.cpp:86-120 | Maps the key to the value, leaves all other keys alone, and keeps keys strictly increasing. |
| Attributes.UpdatedMaps | iyfc/dag/node_attr.cpp:86-120 | The list so updated is sorted and holds exactly the former attributes with the one key remapped. |
| Attributes.AttrList.LoadAttr | iyfc/proto/iyfc_serialization.cpp:49-94 | Sets the attribute if the value has the type of its key, and reports the error otherwise. |
| Attributes.ConstantRoundTrip | iyfc/proto/iyfc_serialization.cpp:275-311 | A constant is loaded as it was saved exactly when its size is not zero. |
| Attributes.AttributesRoundTrip | iyfc/proto/iyfc_serialization.cpp:97-134 | Loading the messages of a well-typed list one by one gives the same list. |
| Serialization.SerializeNodes | iyfc/proto/iyfc_serialization.cpp:353-393 | The visit-and-emit stack ends on every acyclic graph, however operands are shared, and emits each live node and sink once, after its operands, with their indices. |
| Serialization.NodesSerialize | iyfc/proto/iyfc_serialization.cpp:353-409 | The same, with every input and output name saved once with the index of its node. |
| Serialization.NodesDeserialize | iyfc/proto/iyfc_serialization.cpp:411-444 | Succeeds exactly on loadable messages and then builds exactly the graph, attributes and names they describe, with consistent uses. |
| Serialization.NodesRoundTrip | iyfc/proto/iyfc_serialization.cpp:353-444 | What was saved is loaded without an exception as the same graph renumbered: equal opcodes, operand order and attributes. |
| Serialization.ShiftRoundTrip | iyfc/dag/iyfc_dag.cpp:189-199 | Every 32-bit shift, negative ones too, is what its unsigned attribute is read as. |
| Serialization.NamesRoundTrip | iyfc/proto/iyfc_serialization.cpp:396-443 | Names lead to the same nodes after loading. |
| Serialization.LoadedAcyclic | iyfc/proto/iyfc_serialization.cpp:420-424 | A loaded message gives a cycle exactly when a node names its own entry as an operand. |
| Serialization.LoadedValue | iyfc/proto/iyfc_serialization.cpp:353-444 | The loaded graph computes at every node what the saved one does. |
| Serialization.SaveAndLoad | iyfc/proto/iyfc_serialization.cpp:353-444 | Saving any acyclic, described graph and loading it gives a valid acyclic graph that is the same up to numbering, with the same names. |
| CleanNodes.CleanNodeHandler.Visit | iyfc/daghandler/clean_node_handler.cpp:28-46 | A visit erases a node exactly when it has no uses and is neither input nor output, and else changes nothing. |
| ExpandPass.ReductionLogExpander.SetScale | iyfc/daghandler/reduction_handler.cpp:78-92 | The scale of a node is its own, the sum of those it multiplies, or else the largest. |
| Traversals.DagTraversal.Finish | iyfc/daghandler/traversal_handler.h:80-104 | After a rewrite the node is processed, every leaf is ready, and a neighbour becomes ready exactly when all of its predecessors are processed; the worklist holds what is ready and not processed, without duplicates. |
| Types.InferNode | iyfc/daghandler/type_handler.cpp:30-48 | The type of one node from its opcode and its operands' types. |
| ConstantFolding.NormalShift | iyfc/daghandler/constant_handler.h:291-292 | The two shift loops end in the range of the slots at the same shift modulo their number. |
| ConstantFolding.ExpandConstant | iyfc/dag/constant_value.h:173-197 | A dense constant is repeated until it fills the slots. |
| FoldingPass.ConstantDoubleHandler.Visit | iyfc/daghandler/constant_handler.h:106-157 | A node over constants is replaced, in all of its uses, by one constant holding its value, with the scale the handler computes; other nodes stay. |
| Rescalers.EagerWaterlineRescaler.InsertRescale | iyfc/seal/alo/rescaler.h:59-67 | A rescale takes over all uses of the node, at its type and its scale less the divisor. |
| Rescalers.EagerWaterlineRescaler.HandleRawScale | iyfc/seal/alo/rescaler.h:79-87 | A raw node gets the greatest scale of its operands. |
| Rescalers.EagerWaterlineRescaler.ScaleUp | iyfc/seal/alo/eager_waterline_rescaler.cpp:60-76 | The operand is multiplied by 1 at the scale that is missing, for this one use. |
| EncodeInserters.EncodeInserter.Visit | iyfc/seal/alo/encode_inserter.cpp:51-70 | Encodes exactly the raw operand that meets a ciphertext, at the other operand's scale for additions and at its own else. |
| Relinearizers.LazyRelinearizer.MustInsert | iyfc/seal/alo/lazy_relinearizer.cpp:79-90 | A relinearization is forced exactly when the node has two different uses, or its use is a product of ciphertexts, a rotation or an output. |
| Relinearizers.LazyRelinearizer.Visit | iyfc/seal/alo/lazy_relinearizer.cpp:64-105 | A visit relinearizes a product of ciphertexts or a marked node only where it is forced to, and else marks the use; it succeeds exactly when both assertions hold. |
| ModSwitchers.ModSwitcher.InsertModSwitchNode | iyfc/seal/alo/mod_switcher.cpp:28-34 | A mod-switch of the node at the given level and its scale. |
| ModSwitchers.ModSwitcher.Visit | iyfc/seal/alo/mod_switcher.cpp:65-107 | A chain of mod-switches, one for each level between the highest and the lowest use, serves every use at its own level; the node stands at the highest, one above for a rescale; raw and unused nodes stay, and encodings are recorded. |
| LoweringPass.Visit | iyfc/seal/alo/seal_lowering.cpp:30-40 | A plaintext minus a ciphertext hands its uses to plaintext plus negation; other nodes stay. |
| Levels.CheckNode | iyfc/seal/alo/levels_checker.cpp:30-60 | The level of one node from its encrypted operands, and whether these agree. |
| ScalesCheckers.CheckNode | iyfc/seal/alo/scales_checker.cpp:31-92 | The scale of one node, and whether it gives no warning. |
| ParameterCheckers.CheckNode | iyfc/seal/alo/parameter_checker.cpp:38-91 | The prime list of one node, and whether merging its operands' lists gives no warning. |
| Selectors.EncryptionParametersSelector.Visit | iyfc/seal/alo/encryption_parameter_selector.cpp:37-92 | The list of one node, writing no other. |
| PrimeLists.SplitBits | iyfc/seal/alo/encryption_parameter_selector.cpp:131-143 | Bits are covered by as many primes of the scale's size as fit and one for the rest, of at least 20 bits: the sum is exactly the bits if there is no rest or one of at least 20, and else the whole multiples plus 20. |
| Decision.MultDepthCnt.Visit | iyfc/daghandler/mult_depth_cnt.cpp:35-73 | The count of one node: the largest of its operands', one more for a product with an encrypted operand. |
| Executors.SealExecutor.CountOff | iyfc/seal/comm/seal_executor.h:536-542 | Counts the operands off and tells of each occurrence whether it is the last use. |
| Executors.SealExecutor.Compute | iyfc/seal/comm/seal_executor.h:112-447 | Vector arithmetic and the two-part copies of a rotation give the meaning of the opcode on vectors, and encoding replicates. |
| Replication.Truncate | iyfc/seal/comm/seal_secret.h:90-91 | resize cuts the decoded vector off, or fills it with zeros. |
| Replication.MeaningOfCopies | iyfc/seal/comm/seal_executor.h:787-799 | An operation on copies that fill the slots gives copies of its result, rotations by any shift included. |

## Left out

- Attributes.AttrList: the cells of the linked list are a sequence of attributes, so moving a tail from cell to cell is not modelled.
- Comparison.CmpOpHelper: base 3 (getCmpExprP3), which CMP_P = 7 never selects, is not modelled, nor are the plaintext flag and depth that an expression carries beside its node.
- CmpNumbers.GetCmpOutputs: reading more blocks than the output has slots is undefined in the source and excluded; what a cast to an unsigned number does to values outside 32 bits is a parameter.
- QuerySums.SumCntHelper: a number of blocks of zero is excluded: the bound of its loop then wraps around to 2^32 - 1, and the signed counter overflows, which is undefined in C++.
- Division.Divide: the short-integer branch belongs to Concrete and is not modelled.
- Serialization.NodesDeserialize: opcodes that only the other libraries have (U32Constant, Div, comparisons) count as not loadable here, and which of the exceptions is thrown is not told apart.
- Serialization.SaveAndLoad: the common information of a graph, keys, inputs and outputs, and the shared numbering of a group's children are not modelled; messages are datatypes instead of Protobuf bytes.
- DagGroups.DagGroup.AddDag: the merged tables of input and output names, and the sizes of NodeMaps registered with a graph, are not modelled.
- DagGroups.DagGroup.DecisionPasses: a pass is represented by the number of nodes it makes; that an index stays below 2^64 is assumed.
- LogExpander.SortOperands: the ordered map of buckets is kept as their concatenation.
- ExpandPass.ExpandReductions: reading the scale of an unvisited operand throws in the source; here it cannot happen, since programs at this point have no rescale or mod-switch nodes.
- CleanNodes.CleanDeadNodes: the variant with m_clean_all is not modelled.
- Compilation.CompiledOutputs: plaintext inputs are excluded from programs; `PlainInputs.PlainAddend` says when one that is added can be executed.
- EndToEnd.CompileAndRun: plaintext inputs are excluded, and the exception for an input of another length is a precondition.
- EncryptedQueries.SelectRows: inputs go by the order in which they are made instead of by name, and operands of && and || are built from left to right.
- Compilation.Transform: EncodeAtScaleAttr of inputs and encodings is identified with the entry of the scale map; scales are unbounded where the source wraps at 32 bits.
- Compilation.Compile: rotation keys, the security level and the creation of contexts and keys are not modelled.
- ParameterCheckers.CheckParameters: a stored level below zero would be cast to a large unsigned number; Validate shows there is none.
- Executors.SealExecutor.Visit: a subtraction of two plaintexts, for which the source only prints a warning, counts as a failure, and reading an empty vector is recorded as a misread.
- Traversals.ForwardOrder: the place at which a candidate joins the worklist is that of the source, but what is proved of the order is that operands come first; whether a shared output is misread depends on more, and `ExecutorSafety` answers it for every such order.
- Decision.ChooseLibrary: the branches for integers (BFV) and short integers (Concrete) are not modelled.
- Dags.Dag.MakeNode: nodes are never destroyed; the destructor's bookkeeping is not modelled.
- SEAL, OpenFHE, Concrete and FFTW themselves: ciphertexts are slot vectors with a kind, noise and rounding are absent.
- FFT encodings of inputs and their decoding, which rest on FFTW and a numerical threshold.
- Sparse constants in folding, integer constants, bootstrapping, the Python bindings, logging and DOT output.
