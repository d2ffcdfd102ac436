# iMap core, modelled in Dafny

This project models the core of iMap, an FPGA logic-synthesis toolkit. iMap consists of a C++ header library (And-Inverter Graphs, cut enumeration, LUT mapping views, optimisation passes and netlist writers) and Python regression scripts. Each core source file becomes one Dafny module. Code that updates state in place becomes classes and methods proved against specification functions. Pure code becomes functions and lemmas.

- **AIG data structure.**
  - `Node` holds the node records: `node_pointer` packing, the `node_state` halves and `fixed_node` equality.
  - `NetworkStorage` is the chained structural-hash table (`abc_hash`, find, insert, erase and reserve).
  - `AigNetwork` covers signals, `create_pi`/`create_po`/`create_and`, fanout counters, `take_out_node` and the flag bits.
  - `AigWithChoice` covers choice lists, `check_tfi` and MUX recognition.
  - `NodeHash` holds the hash mixers; `Foreach` holds the early-exit iteration helpers.
- **Cuts.**
  - `Cuts` models leaf-set cuts with 64-bit signatures.
  - `CutSets` models the priority cut set over a pointer array.
  - `CutEnumeration` models `network_cuts` and `merge_cuts2`.
  - `TruthTableCache` models the truth-table cache keyed by normalised literals.
- **Views and analyses.**
  - `MappingView` is the mapping view's leaf store.
  - `DepthView` computes levels and depth.
  - `RefDeref` does the recursive reference counting of fanout-free cones.
  - `AigGraph` is the value-level AIG these views read.
- **Algorithm kernels.**
  - `AndBalance` covers AND balancing.
  - `SopRefactoring` covers algebraic division on 64-bit cubes.
  - `ChoiceComputation` covers candidate equivalence classes and `Abc_PrimeCudd`.
  - `ChoiceMiter` merges AIGs into a miter.
  - `NetworkToKlut` collapses a mapping to a k-LUT network, with the driver-polarity state machine.
- **Writers and helpers.**
  - `WriteAiger` is the binary AIGER encoder.
  - `WriteVerilog` generates port and wire names.
  - `WriterLut` is the LUT netlist writer.
  - `Reader` escapes Verilog identifiers.
  - `Range` and `Util` are the generic helpers.
- **Regression scripts.**
  - `RegressionCase` covers case creation, stage order, verification and QoR checks.
  - `Reporter` covers status classification and the pass rate.
  - `MapperTest` covers the ABC and ifpga report extraction, size buckets and verdicts.
  - `Text` and `Decimal` are the string and number helpers these scripts use.
  - Process outcomes, log text and regular-expression matches are inputs to these models.

Fixed-width integers are written out explicitly where the source relies on their width. This covers 64-bit signatures and hashes, 32-bit node counters with wrap-around, and the 8-bit traversal counters. A `node_state` word is read as two 32-bit halves: `h1` is the low half and `h2` the high half.

## Model

| member | source | states |
|---|---|---|
| Node.MakePointerFields | include/database/network/details/node.hpp:31-40 | a pointer built from (index, weight) fits one 64-bit word and reads back the index truncated to 63 bits and the weight truncated to its 1-bit field |
| Node.PointerEquality | include/database/network/details/node.hpp:42-45 | pointer equality compares the whole word, so it holds iff both index and weight agree |
| Node.SetH1 | include/database/network/details/node.hpp:71-78 | assigning h1 stores the value modulo 2^32 and leaves h2 unchanged |
| Node.SetH2 | include/database/network/details/node.hpp:71-78 | assigning h2 stores the value modulo 2^32 and leaves h1 unchanged |
| Node.StateHalves | include/database/network/details/node.hpp:71-78 | the state word is h2·2^32 + h1 with both halves below 2^32; the default state is zero in both halves |
| Node.NewNode | include/database/network/details/node.hpp:84-89 | a new fixed node has the given children, every state word zero and next = 0 (end of a hash chain) |
| Node.SameNodeIgnoresStateAndLink | include/database/network/details/node.hpp:91-94 | node equality compares only the children: two nodes differing only in state and hash link are equal |
| NodeHash.NodeHash | include/database/network/details/node_hash.hpp:51-67 | the loop returns 0 for a childless node and otherwise the fold of hash_combine over the children's hash_block values, seeded with the first child's block |
| NodeHash.EqualNodesHashEqually | include/database/network/details/node_hash.hpp:51-67 | nodes that compare equal hash equally, whatever their state and link |
| NodeHash.HashValues | include/database/network/details/node_hash.hpp:20-24 | a node without children hashes to 0; hash_block maps 0 to 0 and 1 to 64 |
| NetworkStorage.AbcHash | include/database/network/details/storage.hpp:56-64 | the weighted sum of child indices and weights, taken modulo the bucket count, is always a valid bucket (< size) |
| NetworkStorage.GrowSize | include/database/network/details/storage.hpp:97-100 | the grown bucket count is strictly larger than the old one (the 3.1415 factor, truncated) |
| NetworkStorage.FirstMatchSpec | include/database/network/details/storage.hpp:66-75 | a lookup along n's bucket finds an entry with n's children, and finds 0 exactly when no entry has them |
| NetworkStorage.Rehash | include/database/network/details/storage.hpp:80-91 | relinking every chained node into `size` fresh buckets keeps the table well formed, the entry count, and exactly the same set of findable nodes |
| NetworkStorage.MoveBucket | include/database/network/details/storage.hpp:83-90 | the inner loop moves every node of one old bucket to the head of its new bucket, adding exactly that bucket's nodes to the new table |
| NetworkStorage.Storage.constructor | include/database/network/details/storage.hpp:44-52 | a fresh storage holds only the constant node 0, 10000 empty buckets and zero entries |
| NetworkStorage.Storage.HashFind | include/database/network/details/storage.hpp:66-75 | returns the first node on the bucket chain whose children equal the query, and 0 exactly when no entry has those children |
| NetworkStorage.Storage.HashInsert | include/database/network/details/storage.hpp:95-105 | grows the table first when entries exceed twice the bucket count, then prepends index to its bucket (so a following find returns it) and increments the entry count; the findable set gains exactly index |
| NetworkStorage.Storage.HashErase | include/database/network/details/storage.hpp:107-126 | for a node that is present, unlinks the first chained node with its children (from the bucket head or by relinking the predecessor) and decrements the entry count; every other entry stays findable |
| NetworkStorage.Storage.HashReserve | include/database/network/details/storage.hpp:77-93 | rebuilds the table with `size` buckets; the entry count and the set of findable nodes are unchanged |
| NetworkStorage.Storage.AddNode | include/database/network/details/storage.hpp:130 | appending a node leaves the hash table and its entries untouched |
| NetworkStorage.InsertEntries | include/database/network/details/storage.hpp:95-105 | prepending x to its bucket's chain adds exactly x to the entries |
| NetworkStorage.RemoveEntries | include/database/network/details/storage.hpp:107-126 | unlinking a position of a bucket removes exactly the node there from the entries, when it is chained once |
| AigNetwork.MakeSignal | include/database/network/aig_network.hpp:70-92 | signal(index, complement) is a valid one-word signal whose bit-fields hold the truncated index and complement |
| AigNetwork.GetConstant | include/database/network/aig_network.hpp:177-180 | the constant signal has index 0 and complement set iff the value is true |
| AigNetwork.SignalOperators | include/database/network/aig_network.hpp:85-112 | the word is index·2 + complement; `!` flips only the complement (and is an involution), `+`/`-` force it to 0/1, `^ b` flips it iff b; converting to a node pointer and back is the identity |
| AigNetwork.SignalOperatorExample | test/test_aig.cpp:21-54 | the operator sequence of the primary-input test yields the expected index and complement after each step |
| AigNetwork.MarkDeadReleases | include/database/network/aig_network.hpp:558-560 | writing 0x80000000 into the counter word makes the node dead with fanout 0 and changes nothing else |
| AigNetwork.IncrFanoutCounts | include/database/network/aig_network.hpp:773-776 | below the counter limit, the 32-bit increment of h1 adds one to the fanout and keeps the dead flag |
| AigNetwork.DecrFanoutCounts | include/database/network/aig_network.hpp:778-781 | on a positive fanout, the 32-bit decrement of h1 subtracts one and keeps the dead flag |
| AigNetwork.FlagsOfLowBits | include/database/network/aig_network.hpp:1248-1297 | phase, mark_a and mark_b are bits 0, 1 and 2 of data[1].h2 |
| AigNetwork.SetFlagOnlyOwnBit | include/database/network/aig_network.hpp:1253-1263 | setting one flag stores the new value in it, stays a 32-bit word, and leaves the other flags as they were |
| AigNetwork.TrivialAndLaws | include/database/network/aig_network.hpp:315-322 | create_and folds x∧x = x, x∧¬x = 0, 1∧x = x and 0∧x = 0 without creating a node |
| AigNetwork.AndCommutes | include/database/network/aig_network.hpp:308-312 | folding and the index ordering of the children do not depend on the argument order |
| AigNetwork.TrivialAndNone | include/database/network/aig_network.hpp:314-322 | a gate is needed exactly when the two indices differ and neither is the constant; then the children are ordered by strictly increasing index |
| AigNetwork.Aig.constructor | include/database/network/details/storage.hpp:44-52 | a fresh network holds only the constant node, with no inputs, outputs or gates |
| AigNetwork.Aig.FaninSize | include/database/network/aig_network.hpp:761-766 | fanin_size is 0 exactly for the constant and the combinational inputs |
| AigNetwork.Aig.SetFlagOf | include/database/network/aig_network.hpp:1253-1297 | a flag setter gives its own flag the new value and leaves the other flags, the fanout word and every other node unchanged |
| AigNetwork.Aig.IncrFanout | include/database/network/aig_network.hpp:773-776 | incrementing the counter raises node n's fanout by one, keeps its dead flag, and changes nothing else |
| AigNetwork.Aig.DecrFanoutSize | include/database/network/aig_network.hpp:778-781 | the decrement returns the new fanout, one less than before, keeps the dead flag, and changes nothing else |
| AigNetwork.Aig.CreatePi | include/database/network/aig_network.hpp:182-194 | appends one node whose two child words both hold the input position (so it is a CI), records it as the next input, increments num_pis, clears its phase and returns its uncomplemented signal |
| AigNetwork.Aig.CreatePo | include/database/network/aig_network.hpp:196-206 | raises the driver's fanout by one, appends the output, increments num_pos and returns the output's position |
| AigNetwork.Aig.AddAndGate | include/database/network/aig_network.hpp:336-352 | a new gate is appended and hashed, its phase is (phase(a)⊕ca)∧(phase(b)⊕cb), its own fanout is 0, and both children's fanouts rise by one |
| AigNetwork.Aig.CreateAnd | include/database/network/aig_network.hpp:306-352 | trivial cases return the folded signal and leave the network unchanged; otherwise the result is an uncomplemented hashed gate over the index-ordered children: an existing node (nothing changes) or a new last node |
| AigNetwork.Aig.CreateAndTwice | include/database/network/aig_network.hpp:324-334 | structural hashing: asking for the same AND twice yields the same signal and adds at most one node and one entry in total |
| AigNetwork.Aig.MarkDead | include/database/network/aig_network.hpp:558-561 | the node's counter word becomes 0x80000000 (dead, fanout 0) and it leaves the hash table, so the entry count drops by one |
| AigNetwork.Aig.ReleaseFanin | include/database/network/aig_network.hpp:570-580 | a child with fanout 0 is skipped and nothing changes; otherwise its fanout drops by exactly one, a non-constant, non-CI child whose fanout reaches 0 ends dead, and every gate whose counter reached 0 is dead; only nodes up to the child change and the entry count never grows |
| AigNetwork.Aig.TakeOutNode | include/database/network/aig_network.hpp:552-581 | the constant, CIs and dead nodes are left untouched; any other node ends dead with fanout 0, out of the hash table, its first fanin's positive fanout drops and its second (larger) fanin's drops by exactly one, every gate whose counter reached 0 is dead, and only nodes up to n change |
| AigWithChoice.RecognizeMux | include/operations/algorithms/aig_with_choice.hpp:174-255 | the control signal is always returned uncomplemented |
| AigWithChoice.RecognizeMuxIsMux | include/operations/algorithms/aig_with_choice.hpp:142-255 | for a node that is_mux accepts, the recognised (control, then, else) signals describe it: under every input assignment the node's value is "if control then then-signal else else-signal" |
| AigWithChoice.Tail | include/operations/algorithms/aig_with_choice.hpp:116-121 | the walk along the equivalence links ends at a node of the list whose link is AIG_NULL |
| AigWithChoice.ChoiceAig.constructor | include/operations/algorithms/aig_with_choice.hpp:50-60 | the choice network shares the AIG's nodes and starts with every equivalence link AIG_NULL and every node its own representative |
| AigWithChoice.ChoiceAig.InitChoices | include/operations/algorithms/aig_with_choice.hpp:88-98 | every equivalence link becomes AIG_NULL and every representative the node itself, so no node is a representative in the sense of is_repr; values and traversal marks are untouched |
| AigWithChoice.ChoiceAig.CheckTfiRec | include/operations/algorithms/aig_with_choice.hpp:280-298 | the DFS over fanins and equivalence links stops at AIG_NULL and CIs, skips nodes visited in this traversal, and reports true only when a node with value 1 is reachable; when it reports false, everything it visited is closed (no marked node reachable) |
| AigWithChoice.ChoiceAig.CheckTfi | include/operations/algorithms/aig_with_choice.hpp:263-278 | the list of r is marked, the DFS runs in a fresh traversal, and on exit the value of every node of r's list is 0 again (others unchanged); false means no path from n reaches a non-CI node of r's list |
| AigWithChoice.ChoiceAig.MarkList | include/operations/algorithms/aig_with_choice.hpp:266-276 | the loops over r's equivalence list set the value of exactly the nodes of that list |
| AigWithChoice.ChoiceAig.SetChoice | include/operations/algorithms/aig_with_choice.hpp:106-126 | r ≥ n is refused with nothing changed; a refusal never changes links or representatives; on success reprs[n] = r, n is appended at the tail of r's list with earlier members in order, and no fanin path leads from n to a non-CI r |
| AigWithChoice.ChoiceAig.FindTail | include/operations/algorithms/aig_with_choice.hpp:116-121 | the loop stops at the last node of r's list |
| AigWithChoice.ChoiceAig.LinkAfter | include/operations/algorithms/aig_with_choice.hpp:122-124 | linking n after the tail extends r's list by exactly n at its end |
| Cuts.SigOfUnion | include/database/cut/cut.hpp:226-237 | a list holding exactly the leaves of a and of b has as signature the or of their signatures, so the signature of a merged cut equals that of the two inputs |
| Cuts.SigSubset | include/database/cut/cut.hpp:246-253 | the signature of a subset of leaves has no bit outside the superset's signature |
| Cuts.UnionMembers | include/database/cut/cut.hpp:296 | the union of two leaf lists holds exactly the leaves of either |
| Cuts.UnionSorted | include/database/cut/cut.hpp:296 | the union of two strictly increasing leaf lists is strictly increasing |
| Cuts.SubsetLength | include/database/cut/cut.hpp:255-281 | a sorted subset of a sorted list is no longer than it, and equally long only when equal |
| Cuts.QuickRejectSound | include/database/cut/cut.hpp:287-294 | the early rejection of merge (lengths add up to more than cut_size and the population count of the summed signatures exceeds cut_size) never rejects two consistent cuts whose union fits in cut_size |
| Cuts.DominatesQuickCheckSound | include/database/cut/cut.hpp:250-253 | when a's leaves are a subset of b's, a is no longer than b and a's signature bits are all in b's, so the early exit of dominates never fires |
| Cuts.SignatureExamples | test/test_cut.cpp:27-34 | the signature of {1, 2, 3, 4} is 30 and that of {1, 2, 3} is 14 |
| Cuts.DominatesExamples | test/test_cut.cpp:36-39 | {1, 2, 3} dominates {1, 2, 3, 4} and {1, 2, 3, 4} does not dominate {1, 2, 3} |
| Cuts.CopyInto | include/database/cut/cut.hpp:231 | the leaves are written at the front of the leaf array and the rest of it is untouched |
| Cuts.Cut.constructor | include/database/cut/cut.hpp:85-88 | a new cut has no leaves, signature 0 and data 0 |
| Cuts.Cut.Copy | include/database/cut/cut.hpp:90-96 | the copy has the same leaves, length, signature and data as the original |
| Cuts.Cut.Assign | include/database/cut/cut.hpp:212-223 | after assignment the cut's leaves, signature and data are those the other cut had, also when assigning a cut to itself |
| Cuts.Cut.SetLeaves | include/database/cut/cut.hpp:226-237 | the cut holds exactly the given leaves, its length is their number, its signature is the or of 1 << (leaf mod 64) over them and fits in 64 bits, and the data is unchanged |
| Cuts.Cut.Dominates | include/database/cut/cut.hpp:246-282 | returns true exactly when every leaf of this cut is a leaf of the other |
| Cuts.SubsetScan | include/database/cut/cut.hpp:265-281 | the walk over two strictly increasing leaf lists returns true exactly when every leaf of the first occurs in the second |
| Cuts.Cut.Merge | include/database/cut/cut.hpp:284-305 | succeeds exactly when the union of the two leaf lists has at most cut_size leaves (and fits res's leaf array); on success res holds the sorted union with the or of the signatures, and on failure res's length and signature are unchanged and a quick rejection writes nothing |
| Cuts.MergeOverflowExample | include/database/cut/cut.hpp:287-296 | {1, 2, 3, 4} and {65, 66, 67, 68}, both consistent, pass the early test with cut_size 4 and have an eight-leaf union that set_union writes into a seven-slot leaf array |
| Cuts.LessStrictWeakOrder | include/database/cut/cut.hpp:194-199 | comparing two cuts by their number of leaves is irreflexive and transitive, and two cuts are tied exactly when they have the same size |
| CutSets.View | include/database/cut/cut_set.hpp:240-244 | the cuts of a set are the cuts the pointer array's entries point to, one per entry, in order |
| CutSets.PermutedSlotsOk | include/database/cut/cut_set.hpp:142-182 | rearranging the pointer array keeps it a set of distinct slots of the cut storage |
| CutSets.ViewAppend | include/database/cut/cut_set.hpp:240-244 | the cuts behind two consecutive runs of pointers are the cuts of the first run followed by those of the second |
| CutSets.ViewUpdate | include/database/cut/cut_set.hpp:162-164 | overwriting a cut no pointer of the set refers to leaves the set's cuts unchanged |
| CutSets.LowerBound | include/database/cut/cut_set.hpp:146 | the position std::lower_bound returns lies within the searched range |
| CutSets.LowerBoundSorted | include/database/cut/cut_set.hpp:146 | on cuts sorted by size, every cut before the position found is smaller than c and none from it on is |
| CutSets.InsertKeepsSorted | include/database/cut/cut_set.hpp:142-182 | insert keeps the cuts of the set sorted by number of leaves |
| CutSets.InsertAtSorted | include/database/cut/cut_set.hpp:146-174 | putting a cut where the cuts before it are smaller and those after it are not keeps the set sorted |
| CutSets.InsertKeepsDominanceFree | include/database/cut/cut_set.hpp:142-182 | inserting a cut that no stored cut dominates into a set in which no cut dominates another leaves a set in which no cut dominates another |
| CutSets.InsertBounded | include/database/cut/cut_set.hpp:149-160 | insert never makes a set hold more cuts than its capacity |
| CutSets.InsertContains | include/database/cut/cut_set.hpp:142-182 | when the set has room after the dominated cuts are removed, the inserted cut is in it and the set has one cut more than the kept ones |
| CutSets.InsertExample | test/test_cutset.cpp:13-30 | inserting {3, 6} and then {1, 2, 3} into an empty set gives two cuts, smaller first, neither dominating the other, and {1, 2, 3, 8} is then dominated |
| CutSets.InsertKeepsConsistent | include/database/cut/cut_set.hpp:162-164 | insert stores the cut's leaves with their own signature, so every stored cut stays consistent |
| CutSets.Rotated | include/database/cut/cut_set.hpp:166-174 | moving the entry at hi down to lo and the ones between up by one is a permutation that leaves the entries outside lo..hi in place |
| CutSets.RotateDown | include/database/cut/cut_set.hpp:166-174 | the swap loop of insert leaves the pointer array rotated as Rotated describes |
| CutSets.FillIdentity | include/database/cut/cut_set.hpp:54-56 | after the loop of clear, entry i points at storage slot i for every i |
| CutSets.ViewRotated | include/database/cut/cut_set.hpp:166-174 | rotating the pointers rotates the cuts the set holds in the same way |
| CutSets.PlaceView | include/database/cut/cut_set.hpp:162-179 | storing a cut in the first free slot and rotating that slot down to ipos inserts the cut at position ipos of the set's cuts |
| CutSets.MoveToFront | include/database/cut/cut_set.hpp:184-192 | the shift loop of update_best moves the entry at index to the front and the earlier ones up by one |
| CutSets.RotatedUp | include/database/cut/cut_set.hpp:209-219 | moving the entry at lo up to hi and the ones between down by one is a permutation that leaves the entries outside lo..hi in place |
| CutSets.ViewRemoved | include/database/cut/cut_set.hpp:209-219 | moving the entry at index behind the first n - 1 entries leaves as the first n - 1 cuts the first n without the one at index |
| CutSets.MoveToBack | include/database/cut/cut_set.hpp:209-219 | the shift loop of remove, with the removed pointer stored at the freed end, rotates the pointer array as RotatedUp describes |
| CutSets.CutSet.constructor | include/database/cut/cut_set.hpp:41-57 | a new set holds no cut and has MaxCuts empty storage slots |
| CutSets.CutSet.Clear | include/database/cut/cut_set.hpp:49-57 | clear empties the set, points every entry at its own storage slot and leaves the storage unchanged |
| CutSets.CutSet.AddCut | include/database/cut/cut_set.hpp:118-127 | add_cut appends one cut holding the given leaves and their signature to the set, keeps the data the slot held, and returns the new cut's position |
| CutSets.CutSet.SetFuncId | include/database/cut/cut_set.hpp:118-127 | writing the data of the cut add_cut returned changes that cut's data and nothing else |
| CutSets.CutSet.IsDominated | include/database/cut/cut_set.hpp:132-135 | is_dominated holds exactly when some cut of the set dominates the given cut |
| CutSets.CutSet.UpdateBest | include/database/cut/cut_set.hpp:184-192 | update_best moves the cut at index to the front and keeps the order of the others |
| CutSets.CutSet.Remove | include/database/cut/cut_set.hpp:209-219 | remove takes the cut at index out of the set, keeps the order of the others and keeps every storage slot reachable |
| CutSets.CutSet.Partition | include/database/cut/cut_set.hpp:145 | the stable partition of insert removes exactly the cuts the new cut dominates and keeps the order of the others |
| CutSets.CutSet.Place | include/database/cut/cut_set.hpp:162-181 | the new cut is stored in the first free slot and appears at position ipos of the set's cuts |
| CutSets.CutSet.Insert | include/database/cut/cut_set.hpp:142-182 | the set's cuts after insert are InsertResult of the old cuts: dominated cuts removed, the cut placed at its lower_bound position, the last cut dropped when the set is full, nothing stored when the new cut would be last in a full set |
| CutSets.CutSet.Limit | include/database/cut/cut_set.hpp:197-204 | a set of more than size cuts keeps only its first size - 1; a smaller set is unchanged |
| CutSets.CutSet.Resize | include/database/cut/cut_set.hpp:224-228 | the set ends at position size; when it shrinks it keeps its first size cuts |
| CutSets.RemoveAsWritten | include/database/cut/cut_set.hpp:209-219 | remove as written shifts the entries after index down by one and keeps the array length, without storing the removed pointer anywhere |
| CutSets.RemoveAsWrittenLosesSlot | include/database/cut/cut_set.hpp:209-219 | removing position 1 of a full set of four leaves slot 3 at two positions and slot 1 at none, so the next add_cut overwrites the cut now third |
| CutEnumeration.DefaultParams | include/database/cut/cut_enumeration.hpp:39-43 | the default parameters allow cuts of at most 4 leaves and at most 25 cuts a node |
| CutEnumeration.FindFrom | include/database/cut/cut_enumeration.hpp:240 | std::find from a start position returns the first position at or after it holding the value, or the end when there is none |
| CutEnumeration.Support | include/database/cut/cut_enumeration.hpp:232-245 | one position is reported per leaf of the sub-cut |
| CutEnumeration.TruthTableSupport | include/database/cut/cut_enumeration.hpp:232-245 | the loop of compute_truth_table_support returns, for each leaf of sub in order, its position in sup, each search starting where the previous one stopped |
| CutEnumeration.OccursAfter | include/database/cut/cut_enumeration.hpp:238-242 | when sub is sorted and a subset of sup, each later leaf of sub occurs after the position where the first was found, so no search runs past the end |
| CutEnumeration.SupportExample | include/database/cut/cut_enumeration.hpp:228-230 | the support of {1, 3, 6} within {0, 1, 2, 3, 6, 7} is {1, 3, 4} |
| CutEnumeration.CandidateConsistent | include/database/cut/cut_enumeration.hpp:668 | a merged candidate of two consistent cuts, one of them non-empty, is consistent and non-empty |
| CutEnumeration.StepGood | include/database/cut/cut_enumeration.hpp:664-690 | one step of a cross product (merge, skip if too large or dominated, insert) keeps the node's cuts sorted by size, free of dominance, consistent, within cut_size leaves and within max_cut_num cuts |
| CutEnumeration.InsertSizes | include/database/cut/cut_set.hpp:142-182 | inserting a non-empty cut no stored cut dominates leaves a set of at most max_cut_num cuts, each stored cut being one of the old cuts or the new one |
| CutEnumeration.MergedGood | include/database/cut/cut_enumeration.hpp:640-751 | after the three cross products of merge_cuts2 the node's cuts are sorted by size, no cut dominates another, each is consistent and has at most cut_size leaves, and there are at most max_cut_num of them |
| CutEnumeration.LimitedRoom | include/database/cut/cut_enumeration.hpp:753-754 | with cut_limit below max_cut_num, limiting to cut_limit - 1 keeps a prefix of the cuts and leaves a free slot for the unit cut |
| CutEnumeration.UnitCutConsistent | include/database/cut/cut_enumeration.hpp:473-481 | the unit cut of a node is consistent and has exactly one leaf |
| CutEnumeration.MergeOutcomeMergeable | include/database/cut/cut_enumeration.hpp:753-761 | the cut set merge_cuts2 leaves is again sorted, consistent and within bounds, so it can serve as a fanin's cuts |
| CutEnumeration.MergeRow | include/database/cut/cut_enumeration.hpp:666-689 | the inner loop merges one cut with each cut of the other list in turn, leaving the set the Row specification computes |
| CutEnumeration.MergePairs | include/database/cut/cut_enumeration.hpp:664-690 | the outer loop merges every cut of one list with every cut of the other, leaving the set the Pairs specification computes |
| CutEnumeration.AppendUnit | include/database/cut/cut_enumeration.hpp:473-481 | add_unit_cut appends the cut {index} with function id 2 |
| CutEnumeration.AppendZero | include/database/cut/cut_enumeration.hpp:463-471 | add_zero_cut appends the cut with no leaves and function id 0 |
| CutEnumeration.MergeAll | include/database/cut/cut_enumeration.hpp:656-751 | clearing the node's set and running the three cross products leaves the Merged specification of the fanins' cuts and best cuts |
| CutEnumeration.MergeInto | include/database/cut/cut_enumeration.hpp:640-762 | merge_cuts2 leaves the merged cuts limited to cut_limit - 1 entries, followed by the unit cut unless the set is just one single-leaf cut, and counts the limited cuts |
| CutEnumeration.DefaultLimitLeavesNoRoom | include/database/cut/cut_enumeration.hpp:43 | the default cut_limit of 25 is not below max_cut_num 12 (which the constructor asserts it must be), and limiting to 24 never shortens a set of at most 12 cuts, so a full set has no slot for the unit cut |
| CutEnumeration.Incr32 | include/database/cut/cut_enumeration.hpp:282-285 | an incremented 32-bit counter stays below 2^32 |
| CutEnumeration.Decr32 | include/database/cut/cut_enumeration.hpp:287-290 | a decremented 32-bit counter stays below 2^32 |
| CutEnumeration.IncrDecrInverse | include/database/cut/cut_enumeration.hpp:282-290 | decrementing undoes incrementing and the other way round, the wrap-around at 0 and 2^32 - 1 included |
| CutEnumeration.Add32 | include/database/cut/cut_enumeration.hpp:200-208 | a 32-bit sum stays below 2^32 and is the plain sum when that fits |
| CutEnumeration.RunStep | include/database/cut/cut_enumeration.hpp:548-616 | handling node k changes only node k's cuts, so the earlier nodes stay handled |
| CutEnumeration.NewSets | include/database/cut/cut_enumeration.hpp:156-159 | one fresh, empty cut set is made for every node |
| CutEnumeration.NetworkCuts.constructor | include/database/cut/cut_enumeration.hpp:156-166 | network_cuts(size) has an empty cut set, an empty best-cut set and a zero reference counter for each of size nodes, and every total 0 |
| CutEnumeration.NetworkCuts.ClearRefs | include/database/cut/cut_enumeration.hpp:267-270 | every reference counter becomes 0 and nothing else changes |
| CutEnumeration.NetworkCuts.SetRef | include/database/cut/cut_enumeration.hpp:277-280 | node n's counter becomes v and nothing else changes |
| CutEnumeration.NetworkCuts.IncrRef | include/database/cut/cut_enumeration.hpp:282-285 | node n's counter goes up by one modulo 2^32, the new value is returned, nothing else changes |
| CutEnumeration.NetworkCuts.DecrRef | include/database/cut/cut_enumeration.hpp:287-290 | node n's counter goes down by one modulo 2^32, the new value is returned, nothing else changes |
| CutEnumeration.NetworkCuts.AddZeroCut | include/database/cut/cut_enumeration.hpp:463-471 | only node index's cuts change, gaining the empty cut at the end |
| CutEnumeration.NetworkCuts.AddUnitCut | include/database/cut/cut_enumeration.hpp:473-481 | only node index's cuts change, gaining the cut {index} at the end |
| CutEnumeration.NetworkCuts.PushToCapsule | include/database/cut/cut_enumeration.hpp:179 | only node index's best cuts change, as cut_set's insert of c leaves them |
| CutEnumeration.NetworkCuts.CutsAt | include/database/cut/cut_enumeration.hpp:169-170 | returns the cuts of node n |
| CutEnumeration.NetworkCuts.BestAt | include/database/cut/cut_enumeration.hpp:175-176 | returns the best cuts of node n |
| CutEnumeration.NetworkCuts.IncreTotalTuples | include/database/cut/cut_enumeration.hpp:205-208 | total_tuples goes up by size modulo 2^32 and nothing else changes |
| CutEnumeration.NetworkCuts.IncreTotalCuts | include/database/cut/cut_enumeration.hpp:200-203 | total_cuts goes up by size and nothing else changes |
| CutEnumeration.NetworkCuts.MergeAt | include/database/cut/cut_enumeration.hpp:656-762 | only node index's cuts change, becoming the merge outcome of its fanins' cuts and best cuts, and the number of limited cuts is returned |
| CutEnumeration.NetworkCuts.MergeCuts2 | include/database/cut/cut_enumeration.hpp:640-762 | gate index's cuts become the merge outcome of fanins f0 and f1; total_tuples grows by the product of the fanins' cut counts and total_cuts by the number of cuts kept; the other nodes' cuts are unchanged |
| CutEnumeration.NetworkCuts.Visit | include/database/cut/cut_enumeration.hpp:553-614 | one node of run: the constant gets the zero cut and an input its unit cut on the first iteration, a gate the merge of its fanins' cuts on every iteration, and only that node's cuts change |
| CutEnumeration.NetworkCuts.Run | include/database/cut/cut_enumeration.hpp:548-617 | the iteration counter goes up modulo 256; every node is handled in order as Visit says; every gate's cuts end sorted, consistent and within bounds |
| TruthTableCache.Not | include/utils/truth_table_cache.hpp:136 | the complement of a table has the same length and every bit inverted |
| TruthTableCache.NotNot | include/utils/truth_table_cache.hpp:107-137 | complementing twice gives the table back |
| TruthTableCache.Normalize | include/utils/truth_table_cache.hpp:111-116 | the normalised table has bit 0 clear and is the table or its complement |
| TruthTableCache.IndexOf | include/utils/truth_table_cache.hpp:118-122 | the index found holds the table and no earlier index does |
| TruthTableCache.InsertedRoundTrip | include/utils/truth_table_cache.hpp:107-137 | the literal insert returns names a stored table, and reading that literal gives back the inserted table |
| TruthTableCache.InsertedGrows | include/utils/truth_table_cache.hpp:118-128 | insert only appends, at most one table, so earlier literals keep naming the same tables |
| TruthTableCache.InsertedKeepsStore | include/utils/truth_table_cache.hpp:111-128 | a store of distinct normal tables stays one after insert |
| TruthTableCache.InsertedNewIndex | include/utils/truth_table_cache.hpp:125-128 | a table whose normal form is not yet stored gets index the old size, and the store grows by one |
| TruthTableCache.InsertedIdempotent | include/utils/truth_table_cache.hpp:118-122 | inserting a table a second time returns the same literal and stores nothing |
| TruthTableCache.InsertedComplement | include/utils/truth_table_cache.hpp:111-128 | a table and its complement share one stored entry and get literals that differ only in the complement bit |
| TruthTableCache.CutDatabaseTables | include/database/cut/cut_enumeration.hpp:161-165 | the constant-0 table of no variable gets literal 0 and the projection x0 gets literal 2 in an empty cache, the function ids of the zero and unit cuts |
| TruthTableCache.Cache.constructor | include/utils/truth_table_cache.hpp:99-104 | a new cache stores no table |
| TruthTableCache.Cache.Get | include/utils/truth_table_cache.hpp:132-137 | operator[] returns the stored table for an even literal and its complement for an odd one, so the result is normal exactly when the literal is even |
| TruthTableCache.Cache.Insert | include/utils/truth_table_cache.hpp:106-130 | the cache's store and the returned literal are those Inserted computes from the old store |
| MappingView.AppendRecord | include/database/views/mapping_view.hpp:163-184 | appending a record of leaf count and leaves and pointing entry n at it gives n exactly those leaves and keeps every other root's leaves |
| MappingView.View.constructor | include/database/views/mapping_view.hpp:120-138 | a new view has every mapping entry 0, no cell, and every node's function the constant-0 table |
| MappingView.View.HasMapping | include/database/views/mapping_view.hpp:140-143 | has_mapping holds exactly when some node is a cell root |
| MappingView.View.NumCells | include/database/views/mapping_view.hpp:157-160 | num_cells is the number of nodes that are cell roots |
| MappingView.View.CellFanins | include/database/views/mapping_view.hpp:211-218 | the fanins visited for a cell are the leaves its record holds, in order |
| MappingView.View.ClearMapping | include/database/views/mapping_view.hpp:150-155 | every entry becomes 0, the cell count 0, and the functions are unchanged |
| MappingView.View.AddToMapping | include/database/views/mapping_view.hpp:163-184 | n becomes a cell root with exactly the given leaves, the count grows by one only when n was not a root, and every other node keeps its root status and leaves |
| MappingView.View.RemoveFromMapping | include/database/views/mapping_view.hpp:186-196 | n's entry becomes 0 and the count drops by one exactly when n was a root |
| MappingView.View.SetCellFunction | include/database/views/mapping_view.hpp:199-208 | n's cell function becomes the given table and every other node's function is unchanged |
| DepthView.Max | include/database/views/depth_view.hpp:218-229 | std::max: the result is one of the two and at least both |
| DepthView.LevelAboveFanins | include/database/views/depth_view.hpp:192-216 | in a topologically ordered network a gate of positive cost has a level strictly above each fanin's |
| DepthView.BalancedAnd4Levels | include/database/views/depth_view.hpp:192-229 | the balanced AND of four inputs under unit cost has gate levels 1, 1 and 2 and depth 2 |
| DepthView.View.constructor | include/database/views/depth_view.hpp:120-139 | the view starts with levels and depth computed: the depth is the largest output level and every output's node is marked |
| DepthView.View.UpdateLevels | include/database/views/depth_view.hpp:170-177 | after update_levels the traversal id is one higher, the depth is the largest output level, unvisited nodes have level 0, marked nodes hold their exact levels and no node was computed twice |
| DepthView.View.ComputeLevels | include/database/views/depth_view.hpp:218-229 | after the output loop every output's cone is computed and the depth is the largest output level |
| DepthView.View.AddOutput | include/database/views/depth_view.hpp:221-228 | one output step computes its cone's levels and raises the depth to the output's level, with the complement bump |
| DepthView.View.ComputeLevelsAt | include/database/views/depth_view.hpp:192-216 | compute_levels(n) returns n's level (the largest fanin level, plus one for a complemented fanin when counted, plus n's cost; 0 for constants and inputs), stores it, and computes each node at most once per traversal |
| DepthView.View.ComputeGateLevel | include/database/views/depth_view.hpp:205-215 | the gate case of compute_levels stores and returns the largest fanin level plus the node's cost |
| DepthView.View.CreatePo | include/database/views/depth_view.hpp:184-190 | the output is added and the depth becomes the larger of the old depth and the driver's stored level; the depth stays exact when no complement bump applies |
| DepthView.View.AddAnd | include/database/views/depth_view.hpp:260-275 | on_add gives the new gate the largest stored fanin level (with the complement bump) plus its cost, exact when its fanins' levels are, and keeps the other levels |
| DepthView.View.LevelOf | include/database/views/depth_view.hpp:150-153 | the stored level of a node computed in the current traversal is its exact level |
| DepthView.View.DepthOf | include/database/views/depth_view.hpp:145-148 | depth() returns the stored depth |
| NetworkStorage.MatchPos | include/database/network/details/storage.hpp:70-73 | the position where the chain walk of hash_find stops lies within the chain |
| NetworkStorage.ChainedIsInTable | include/database/network/details/storage.hpp:95-105 | every node linked into a chain is found in the chain of the bucket its children hash to |
| NetworkStorage.InsertOk | include/database/network/details/storage.hpp:101-104 | prepending a node that is not yet chained to the chain of its bucket keeps the hash table well formed |
| NetworkStorage.EraseOk | include/database/network/details/storage.hpp:117-124 | unlinking one node of a chain, from the head or through its predecessor, keeps the hash table well formed |
| NetworkStorage.TableFrame | include/database/network/details/storage.hpp:130-136 | changing node data other than children and links keeps the table well formed and the same nodes chained |
| NetworkStorage.Storage.SetData | include/database/network/details/storage.hpp:130 | writing the state words of node i changes that node's state words only; the chained nodes stay the same |
| NetworkStorage.Storage.PushInput | include/database/network/aig_network.hpp:189-190 | the input index is appended to inputs and num_pis grows by one; nothing else changes |
| NetworkStorage.Storage.PushOutput | include/database/network/aig_network.hpp:203-204 | the output pointer is appended to outputs and num_pos grows by one; nothing else changes |
| NetworkStorage.Storage.HashLink | include/database/network/details/storage.hpp:101-104 | the node becomes the head of its bucket's chain, the chained nodes are the old ones plus it, num_entries grows by one and the node contents stay the same |
| NetworkStorage.Storage.HashUnlink | include/database/network/details/storage.hpp:117-125 | the node at cur leaves the chained nodes, the others stay chained, num_entries drops by one and the node contents stay the same |
| AigNetwork.NodeSignal | include/database/network/aig_network.hpp:333 | the signal {index, 0} denotes node index uncomplemented |
| AigNetwork.IncrFanoutState | include/database/network/aig_network.hpp:773-776 | the state word after h1++ is again a valid state word and the second word is untouched |
| AigNetwork.DecrFanoutState | include/database/network/aig_network.hpp:778-781 | the state word after --h1 is again a valid state word and the second word is untouched |
| AigNetwork.AndNode | include/database/network/aig_network.hpp:306-322 | the node create_and hashes has its children in index order, fresh state words and no link |
| AigNetwork.Aig.IncrFanouts | include/database/network/aig_network.hpp:350-352 | each child's fanout count grows by one, their dead flags stay, and no other node changes |
| AigNetwork.Aig.AddAnd | include/database/network/aig_network.hpp:336-345 | a new node with the two children, fanout 0 and not dead is appended at the old size and linked into the hash table; the older nodes are unchanged |
| AigNetwork.Aig.ReleaseFanins | include/database/network/aig_network.hpp:570-580 | the fanin loop of take_out_node: the first fanin's positive fanout drops (by one, and again if the second fanin's removal releases it) and the second fanin's positive fanout drops by exactly one; every gate whose counter reached 0 is dead; only nodes below n change |
| AigNetwork.FaninStart | include/database/network/aig_network.hpp:570 | before the fanin loop no counter has moved |
| AigNetwork.FaninStep | include/database/network/aig_network.hpp:570-580 | one round of the fanin loop on fanin i dereferences exactly that fanin and cannot reach the larger second fanin before its turn |
| AigNetwork.FaninDone | include/database/network/aig_network.hpp:570-580 | after both rounds the first fanin's positive counter has dropped and the second's has dropped by exactly one |
| AigNetwork.DerefTakenOut | include/database/network/aig_network.hpp:576-578 | a counter dropped to 0 and the node then taken out leaves every zeroed gate dead |
| AigNetwork.TakeOutSteps | include/database/network/aig_network.hpp:558-580 | marking the gate dead and then running the fanin loop together release only nodes up to n, kill every zeroed gate and release both fanins |
| AigNetwork.FaninsReleasedAfterMark | include/database/network/aig_network.hpp:558-560 | marking the gate dead does not touch its fanins' counters |
| AigNetwork.ZeroedDeadTrans | include/database/network/aig_network.hpp:552-581 | "every gate whose counter reached 0 is dead" composes over successive releases |
| AigGraph.EvalAppend | include/database/network/aig_network.hpp:336-345 | appending nodes leaves the value of every existing node unchanged |
| AigWithChoice.ChainAppend | include/operations/algorithms/aig_with_choice.hpp:106-126 | linking a node with no list of its own after the tail of a list appends it to that list |
| AigWithChoice.ClosedPaths | include/operations/algorithms/aig_with_choice.hpp:280-298 | when check_tfi_rec finished without finding a mark, every node reached by a path from a visited node is visited and unmarked |
| AigWithChoice.ChoiceAig.VisitFanins | include/operations/algorithms/aig_with_choice.hpp:290-296 | the calls on both fanins either find a marked node reachable from n or leave both fanins visited with the visited set closed |
| AigWithChoice.ChoiceAig.Visit | include/operations/algorithms/aig_with_choice.hpp:280-298 | one recursive call either finds a marked node reachable from n or leaves its target visited with the visited set closed |
| Cuts.SigBound | include/database/cut/cut.hpp:226-237 | a signature fits in 64 bits |
| CutSets.PartitionSlots | include/database/cut/cut_set.hpp:145 | the kept and the dropped slots of the stable partition are together a rearrangement of the slots |
| CutSets.KeptMembers | include/database/cut/cut_set.hpp:145 | the kept cuts are exactly the cuts of the set that the new cut does not dominate |
| CutSets.LowerBoundBelow | include/database/cut/cut_set.hpp:146 | on size-sorted cuts every cut before the position found is smaller than c |
| CutSets.LowerBoundAbove | include/database/cut/cut_set.hpp:146 | on size-sorted cuts no cut from the position found on is smaller than c |
| CutSets.KeptSorted | include/database/cut/cut_set.hpp:145 | the partition keeps a size-sorted set sorted |
| CutSets.KeptDominanceFree | include/database/cut/cut_set.hpp:145 | the partition keeps a set free of dominance |
| CutEnumeration.SupportOfSubset | include/database/cut/cut_enumeration.hpp:232-245 | when sub's leaves all occur in sup, both sorted, each reported position holds the corresponding leaf of sub |
| CutEnumeration.RowGood | include/database/cut/cut_enumeration.hpp:666-689 | the inner loop keeps the node's cuts sorted, free of dominance, consistent and within bounds |
| CutEnumeration.PairsGood | include/database/cut/cut_enumeration.hpp:664-690 | a whole cross product keeps the node's cuts sorted, free of dominance, consistent and within bounds |
| MappingView.CountRootsUpdate | include/database/views/mapping_view.hpp:163-196 | setting one entry changes the number of roots by one exactly when the node's root status changes |
| MappingView.CountRootsAppend | include/database/views/mapping_view.hpp:174-183 | appending leaf records behind the node entries leaves the number of roots unchanged |
| MappingView.CountRootsPositive | include/database/views/mapping_view.hpp:140-143 | the number of roots is positive exactly when some node is a root, so has_mapping agrees with the entries |
| MappingView.CountRootsZero | include/database/views/mapping_view.hpp:150-155 | an all-zero mapping has no root |
| DepthView.DepthIsMax | include/database/views/depth_view.hpp:218-229 | the depth bounds every output's level, is reached by one of them, and is 0 without outputs |
| DepthView.UnitLevelBound | include/database/views/depth_view.hpp:192-216 | under unit cost without counted complements a node's level is at most its index |
| DepthView.LevelAppend | include/database/views/depth_view.hpp:260-275 | adding a node leaves the levels of the existing nodes unchanged |
| DepthView.DepthPrefix | include/database/views/depth_view.hpp:184-190 | adding outputs leaves the depth over the earlier outputs unchanged |
| RefDeref.IncDec | include/database/network/aig_network.hpp:1209-1217 | the 32-bit increment and decrement of a node's value undo each other, a decrement gives 0 exactly from 1, and both stay below 2^32 |
| RefDeref.InputTerm | include/operations/algorithms/ref_deref.hpp:52-63 | the default termination condition holds exactly at the constant and the primary inputs |
| RefDeref.Deref | include/operations/algorithms/ref_deref.hpp:20-33 | the counters after a dereference are as many as before |
| RefDeref.DerefEdge | include/operations/algorithms/ref_deref.hpp:27-30 | the counters after one fanin edge of a dereference are as many as before |
| RefDeref.Ref | include/operations/algorithms/ref_deref.hpp:36-49 | the counters after a reference are as many as before |
| RefDeref.RefEdge | include/operations/algorithms/ref_deref.hpp:43-46 | the counters after one fanin edge of a reference are as many as before |
| RefDeref.DerefThenRef | include/operations/algorithms/ref_deref.hpp:88-95 | referencing a node after dereferencing it returns the same value and restores every counter, so the assert of derefed_size holds |
| RefDeref.RefThenDeref | include/operations/algorithms/ref_deref.hpp:97-104 | dereferencing a node after referencing it returns the same value and restores every counter, so the assert of refed_size holds |
| RefDeref.Contained | include/operations/algorithms/ref_deref.hpp:68-86 | the counters after the traversal of ref_node_recursive_contained are as many as before |
| RefDeref.ContainedEdge | include/operations/algorithms/ref_deref.hpp:76-84 | the counters after one fanin step of that traversal are as many as before |
| RefDeref.ContainedAsWrittenIsZero | include/operations/algorithms/ref_deref.hpp:74-85 | as written, with the value starting at 0 and only summing the recursive results, ref_node_recursive_contained returns 0 for every node |
| RefDeref.ContainedAsWrittenExample | include/operations/algorithms/ref_deref.hpp:68-86 | for gate 2 = 1 & !1 over input 1 with counter 2, the code as written returns 0 while the MFFC size under unit cost is 1 |
| RefDeref.ContainedIsDeref | include/operations/algorithms/ref_deref.hpp:68-86 | with each freed node counting 1, the traversal returns the value and counters of deref_node_recursive under unit cost |
| RefDeref.UnitCtx | include/operations/algorithms/ref_deref.hpp:88 | the unit-cost context keeps the network's nodes and is well formed |
| RefDeref.Network.constructor | include/database/network/aig_network.hpp:1199-1207 | a network view whose every value counter is 0 |
| RefDeref.Network.DecrValue | include/database/network/aig_network.hpp:1214-1217 | decr_value decrements node m's counter modulo 2^32 and returns the new value, which is 0 exactly when the old one was 1 |
| RefDeref.Network.IncrValue | include/database/network/aig_network.hpp:1209-1212 | incr_value increments node m's counter modulo 2^32 and returns the old value |
| RefDeref.DerefNodeRecursiveCond | include/operations/algorithms/ref_deref.hpp:20-33 | the value returned and the counters left are those of Deref |
| RefDeref.RefNodeRecursiveCond | include/operations/algorithms/ref_deref.hpp:36-49 | the value returned and the counters left are those of Ref |
| RefDeref.DerefNodeRecursive | include/operations/algorithms/ref_deref.hpp:51-56 | deref_node_recursive is Deref with the traversal stopping at the constant and the inputs |
| RefDeref.RefNodeRecursive | include/operations/algorithms/ref_deref.hpp:58-63 | ref_node_recursive is Ref with the traversal stopping at the constant and the inputs |
| RefDeref.DerefedSize | include/operations/algorithms/ref_deref.hpp:88-95 | derefed_size returns the dereference value and leaves every counter as it was |
| RefDeref.RefedSize | include/operations/algorithms/ref_deref.hpp:97-104 | refed_size returns the reference value and leaves every counter as it was |
| RefDeref.RefNodeRecursiveContained | include/operations/algorithms/ref_deref.hpp:68-86 | with each freed node counting 1, the value is the MFFC size and the counters are those of deref_node_recursive; contains holds whenever the replaced node is n or one of its fanins |
| RefDeref.ContainedFanin | include/operations/algorithms/ref_deref.hpp:76-84 | one fanin step decrements the fanin's counter and descends into it when the counter reaches 0, as ContainedEdge says |
| RefDeref.DerefFrame | include/operations/algorithms/ref_deref.hpp:20-33 | a dereference of n only changes counters of nodes below n, and keeps counters within 32 bits |
| RefDeref.RefFrame | include/operations/algorithms/ref_deref.hpp:36-49 | a reference of n only changes counters of nodes below n, and keeps counters within 32 bits |
| RefDeref.DerefEdgeCommute | include/operations/algorithms/ref_deref.hpp:26-31 | dereferencing the two fanin edges in either order leaves the same counters and the same total value |
| RefDeref.RefEdgeCommute | include/operations/algorithms/ref_deref.hpp:42-47 | referencing the two fanin edges in either order leaves the same counters and the same total value |
| RefDeref.DerefThenRefEdge | include/operations/algorithms/ref_deref.hpp:20-49 | dereferencing one fanin edge and then referencing it restores the counters and gives the same value |
| RefDeref.RefThenDerefEdge | include/operations/algorithms/ref_deref.hpp:20-49 | referencing one fanin edge and then dereferencing it restores the counters and gives the same value |
| AndBalance.EdgeOf | include/database/network/aig_network.hpp:66-112 | the fanin edge of a signal has the signal's node index and is complemented exactly when the signal is |
| AndBalance.SigOf | include/database/network/aig_network.hpp:66-112 | the signal of a fanin edge denotes that edge again |
| AndBalance.EvalSigNot | include/database/network/aig_network.hpp:66-112 | complementing a signal keeps its node and negates its value |
| AndBalance.EvalSigExtend | include/operations/optimization/and_balance.hpp:216 | a network that is only extended at the end evaluates its existing signals as before |
| AndBalance.AllSigExtend | include/operations/optimization/and_balance.hpp:216 | the AND of existing signals is unchanged when the network is extended at the end |
| AndBalance.InsertSig | include/operations/optimization/and_balance.hpp:123 | inserting a signal into a list adds exactly that signal to its elements |
| AndBalance.InsertSorted | include/operations/optimization/and_balance.hpp:123 | inserting a signal into a sorted list keeps it sorted |
| AndBalance.SortSignals | include/operations/optimization/and_balance.hpp:123 | std::sort on signals returns a sorted permutation of its input |
| AndBalance.DedupProps | include/operations/optimization/and_balance.hpp:126-148 | removing adjacent duplicates from a sorted list leaves a strictly increasing list with the same elements |
| AndBalance.ClashIffPair | include/operations/optimization/and_balance.hpp:134-138 | in a sorted list a signal and its complement are neighbours, so the neighbour test finds a complement pair exactly when there is one |
| AndBalance.NeighbourPair | include/operations/optimization/and_balance.hpp:134-138 | a sorted list holding a signal and, later, its complement has such a pair at adjacent positions |
| AndBalance.SortedSameElements | include/operations/optimization/and_balance.hpp:123 | sorting keeps the set of elements |
| AndBalance.UnifiedProps | include/operations/optimization/and_balance.hpp:118-149 | balance_unify leaves a strictly increasing list that is empty exactly when the input is empty or holds a signal with its complement, and otherwise holds exactly the input's signals |
| AndBalance.UnifiedValue | include/operations/optimization/and_balance.hpp:118-149 | an emptied list means the AND of the input is false; otherwise the unified list has the same AND as the input |
| AndBalance.DedupAt | include/operations/optimization/and_balance.hpp:127-147 | one step of the compacting loop keeps the current signal unless it equals the next |
| AndBalance.BalanceUnify | include/operations/optimization/and_balance.hpp:118-149 | the sort and the compacting loop return the unified list |
| AndBalance.Compact | include/operations/optimization/and_balance.hpp:126-148 | the compacting loop over a sorted list returns the empty list when neighbours clash and the list without duplicates otherwise |
| AndBalance.KeepStep | include/operations/optimization/and_balance.hpp:139-142 | keeping the last signal of a run of equal ones extends the compacted prefix as Dedup says |
| AndBalance.ConeLeaves | include/operations/optimization/and_balance.hpp:151-173 | the collected inputs are at least one, each on a non-constant node below the root and not above the start signal |
| AndBalance.ConeLeavesStop | include/operations/optimization/and_balance.hpp:153-165 | every collected input met the stop condition (complemented, an input, more than one fanout, or the size bound) when it was collected |
| AndBalance.ConeLeavesValue | include/operations/optimization/and_balance.hpp:151-173 | the value of the start signal is the AND of the collected inputs |
| AndBalance.Supergate | include/operations/optimization/and_balance.hpp:104-116 | every supergate input of gate n lies on a non-constant node below n |
| AndBalance.SupergateValue | include/operations/optimization/and_balance.hpp:104-116 | an empty supergate means the gate is constant 0; otherwise the gate's value is the AND of its supergate inputs |
| AndBalance.ExtendsTrans | include/operations/optimization/and_balance.hpp:216 | extending a network twice extends it |
| AndBalance.FindGate | include/database/network/aig_network.hpp:324-334 | the search finds a node with the given children among the first k, or reports that there is none |
| AndBalance.InsertByLevel | include/operations/optimization/and_balance.hpp:180-195 | inserting into a list by level adds exactly that signal |
| AndBalance.InsertByLevelSorted | include/operations/optimization/and_balance.hpp:180-195 | inserting by level keeps a list ordered by the comparator |
| AndBalance.SortByLevel | include/operations/optimization/and_balance.hpp:180-195 | the sort of build_super returns a permutation ordered by the comparator: higher level first, larger index first on equal levels |
| AndBalance.SortedByLevelNonIncreasing | include/operations/optimization/and_balance.hpp:180-195 | a list ordered by the comparator has non-increasing levels |
| AndBalance.Swap | include/operations/optimization/and_balance.hpp:277-278 | swapping two positions is a permutation |
| AndBalance.SwapInRun | include/operations/optimization/and_balance.hpp:255-314 | swapping two signals of one run of equal levels keeps the levels non-increasing |
| AndBalance.PermuteInRun | include/operations/optimization/and_balance.hpp:255-314 | a permutation by balance_permute is a permutation that keeps the levels non-increasing |
| AndBalance.AllSigByIndex | include/operations/optimization/and_balance.hpp:175-222 | the AND of a list holds exactly when every signal of it evaluates to true |
| AndBalance.AllSigPointwise | include/operations/optimization/and_balance.hpp:84-89 | two lists whose signals evaluate alike position by position have the same AND |
| AndBalance.NonIncreasingExtend | include/operations/optimization/and_balance.hpp:216 | extending the level table keeps the levels of a list non-increasing |
| AndBalance.SoundExtend | include/operations/optimization/and_balance.hpp:216 | extending the new network keeps the cache of rebuilt nodes sound |
| AndBalance.SoundCache | include/operations/optimization/and_balance.hpp:99 | caching a signal that computes its old node keeps the cache sound |
| AndBalance.AllSigSingle | include/operations/optimization/and_balance.hpp:92-95 | the AND of one signal is that signal |
| AndBalance.CacheSet | include/operations/optimization/and_balance.hpp:99 | filling an empty cache entry extends the cache and keeps the later entries |
| AndBalance.CountPis | include/operations/optimization/and_balance.hpp:43-45 | the number of inputs among the first k nodes is at most k |
| AndBalance.CountPisMono | include/operations/optimization/and_balance.hpp:43-45 | an input between m and n makes the count up to n larger than the count up to m |
| AndBalance.MapInputs | include/operations/optimization/and_balance.hpp:40-45 | the new network holds the constant and one input per old input, in index order, and old2new maps node 0 to the constant and each input to its new input |
| AndBalance.TrivialAndValue | include/database/network/aig_network.hpp:314-322 | a folded AND evaluates to the AND of its operands and its level is at most one above theirs |
| AndBalance.AppendGate | include/database/network/aig_network.hpp:336-352 | appending and(a, b) with its level keeps the new network well formed and the new node computes the AND, one level above the deeper operand |
| AndBalance.GateValue | include/database/network/aig_network.hpp:324-334 | an existing gate with the ordered children of a and b computes their AND and sits one level above the deeper of them |
| AndBalance.InsertElements | include/operations/optimization/and_balance.hpp:335-348 | a list with x inserted holds exactly the old elements and x |
| AndBalance.PushPreservesOrder | include/operations/optimization/and_balance.hpp:335-348 | inserting x after every higher-or-equal level and before every lower one keeps the levels non-increasing |
| AndBalance.InsertIndex | include/operations/optimization/and_balance.hpp:335-348 | the positions of a list with x inserted are the old positions shifted around x |
| AndBalance.AllSigSame | include/operations/optimization/and_balance.hpp:84-89 | lists with the same elements have the same AND |
| AndBalance.GetBalanceConeRec | include/operations/optimization/and_balance.hpp:151-173 | the recursion appends to the list exactly the inputs ConeLeaves computes |
| AndBalance.AppendAssoc | include/operations/optimization/and_balance.hpp:170-171 | appending is associative |
| AndBalance.ConeStep | include/operations/optimization/and_balance.hpp:166-172 | below a signal the search does not stop at, the cone splits into those of the two fanins |
| AndBalance.AllSigSplit | include/operations/optimization/and_balance.hpp:204-208 | the AND of a list is the AND of all but its last two signals with those two |
| AndBalance.PrefixNonIncreasing | include/operations/optimization/and_balance.hpp:204-208 | popping signals off the end keeps the levels non-increasing |
| AndBalance.AllSigSameElements | include/operations/optimization/and_balance.hpp:216-217 | the AND of a list holding exactly the signals of rest and x is the AND of rest with x |
| AndBalance.CacheExtendsTrans | include/operations/optimization/and_balance.hpp:65-102 | extending the cache twice extends it |
| AndBalance.XorBoolValue | include/operations/optimization/and_balance.hpp:84-89 | s ^ c computes the old signal when s computes its node |
| AndBalance.TranslatedExtend | include/operations/optimization/and_balance.hpp:84-89 | extending the new network keeps the already rebuilt inputs computing their old signals |
| AndBalance.OutputsPush | include/operations/optimization/and_balance.hpp:54-59 | appending a signal that computes old output k extends the rebuilt outputs by one |
| AndBalance.OutputsExtend | include/operations/optimization/and_balance.hpp:54-59 | extending the new network keeps the rebuilt outputs computing the old ones |
| AndBalance.Balancer.constructor | include/operations/optimization/and_balance.hpp:37-47 | the new network starts with the constant and one input per old input in index order; node 0 maps to the constant, each old input to its new input, and nothing else is mapped |
| AndBalance.Balancer.FindAnd | include/database/network/aig_network.hpp:306-334 | find_and holds exactly when and(a, b) folds or a gate with the same ordered children exists |
| AndBalance.Balancer.CreateAnd | include/database/network/aig_network.hpp:306-352 | create_and returns a signal computing the AND of a and b at most one level above them; it folds the trivial cases, reuses an existing gate, and adds a node exactly when find_and fails |
| AndBalance.Balancer.HashAnd | include/database/network/aig_network.hpp:324-352 | for operands that do not fold, the result is an uncomplemented gate with the ordered children, one level above the deeper operand, new exactly when find_and fails |
| AndBalance.Balancer.AddAnd | include/database/network/aig_network.hpp:336-352 | one gate and(a, b) is appended, one level above its deeper operand, and computes the AND |
| AndBalance.Balancer.BalanceFindLeft | include/operations/optimization/and_balance.hpp:224-253 | 0 for fewer than three signals; otherwise the leftmost position of the run of equal levels that ends at the second-to-last signal |
| AndBalance.Balancer.BalancePermute | include/operations/optimization/and_balance.hpp:255-314 | the list is unchanged, or the second-to-last signal is swapped with the rightmost signal between left and it that already shares a gate with the last signal |
| AndBalance.Balancer.PushUniqueByLevel | include/operations/optimization/and_balance.hpp:316-351 | a signal already present is not added; otherwise it is inserted after every signal of at least its level and before every lower one, so non-increasing levels stay so |
| AndBalance.Balancer.InsertFromBack | include/operations/optimization/and_balance.hpp:335-348 | the swapping loop places x after every signal of at least its level and before every lower one |
| AndBalance.Balancer.FindLeftAndPermute | include/operations/optimization/and_balance.hpp:201-203 | finding the left bound and permuting keeps the list a permutation with non-increasing levels |
| AndBalance.Balancer.PairLastTwo | include/operations/optimization/and_balance.hpp:198-219 | one round pairs the last two signals and pushes their AND back: the list shrinks, keeps non-increasing levels, and its AND is unchanged |
| AndBalance.Balancer.BuildSuper | include/operations/optimization/and_balance.hpp:175-222 | build_super returns a signal of the new network computing the AND of all the supergate's signals |
| AndBalance.Balancer.GetBalanceCone | include/operations/optimization/and_balance.hpp:104-116 | get_balance_cone returns the unified supergate of gate n |
| AndBalance.Balancer.BalanceRec | include/operations/optimization/and_balance.hpp:65-102 | balance_rec returns a signal of the new network that computes the old node under corresponding inputs, returns the cached signal when there is one, and caches its result |
| AndBalance.Balancer.BalanceFresh | include/operations/optimization/and_balance.hpp:73-101 | on a node not yet rebuilt, the result computes the old node and is cached |
| AndBalance.Balancer.CacheConstant | include/operations/optimization/and_balance.hpp:76-80 | an empty supergate caches and returns constant 0, which computes the old node |
| AndBalance.Balancer.BalanceSupergate | include/operations/optimization/and_balance.hpp:82-101 | a nonempty supergate's inputs are rebuilt; one input is returned uncached, more are built into a tree and cached; the result computes the old node |
| AndBalance.Balancer.BuildAndCache | include/operations/optimization/and_balance.hpp:97-101 | the built supergate computes the old node and is cached for it |
| AndBalance.Balancer.BalanceLeaves | include/operations/optimization/and_balance.hpp:84-89 | each supergate input is replaced by its rebuilt signal, complemented as the input was, which computes the old input |
| AndBalance.Balancer.RunStep | include/operations/optimization/and_balance.hpp:54-59 | output k is rebuilt and its new signal, complemented as the output was, is appended and computes the old output |
| AndBalance.Balancer.Run | include/operations/optimization/and_balance.hpp:52-62 | one new output per old output is appended, each computing the old output's value under corresponding inputs |
| SopRefactoring.LitWord | include/operations/optimization/detail/sop_refactoring.hpp:171 | the one-literal word 1 << lit has exactly bit lit set |
| SopRefactoring.AndWord | include/operations/optimization/detail/sop_refactoring.hpp:201 | c & d on 64-bit words has exactly the bits set in both |
| SopRefactoring.OrWord | include/operations/optimization/detail/sop_refactoring.hpp:364 | c \| d on 64-bit words has exactly the bits set in either |
| SopRefactoring.DiffWord | include/operations/optimization/detail/sop_refactoring.hpp:208 | c & ~d on 64-bit words has exactly the bits of c not in d |
| SopRefactoring.HasLitBit | include/operations/optimization/detail/sop_refactoring.hpp:37-43 | cube_has_lit holds exactly when bit lit of the cube is set |
| SopRefactoring.CoversBits | include/operations/optimization/detail/sop_refactoring.hpp:322 | (c & d) == d holds exactly when every bit of d is set in c |
| SopRefactoring.SopLitsAppend | include/operations/optimization/detail/sop_refactoring.hpp:179-189 | the literal count of two SOPs put together is the sum of their counts |
| SopRefactoring.CubeCountLit | include/operations/optimization/detail/sop_refactoring.hpp:45-57 | cube_count_lit returns the number of set bits of the cube, at most 64 |
| SopRefactoring.SopCountLit | include/operations/optimization/detail/sop_refactoring.hpp:179-189 | sop_count_lit returns the total number of literals of the SOP's cubes |
| SopRefactoring.OccIn | include/operations/optimization/detail/sop_refactoring.hpp:59-82 | at most n of the first n cubes contain a literal |
| SopRefactoring.CountOcc | include/operations/optimization/detail/sop_refactoring.hpp:64-72 | the counting loop returns the number of cubes that contain the literal |
| SopRefactoring.SopLitOccur | include/operations/optimization/detail/sop_refactoring.hpp:59-82 | sop_lit_occur returns -1 exactly when no literal below lit_num occurs in two cubes, and otherwise the first literal that does |
| SopRefactoring.SopLeastLit | include/operations/optimization/detail/sop_refactoring.hpp:84-108 | sop_least_lit returns -1 exactly when no literal occurs at least twice (and below 2^32 - 1 times); otherwise a literal with the fewest such occurrences, the first on ties |
| SopRefactoring.SopMostLit | include/operations/optimization/detail/sop_refactoring.hpp:114-140 | sop_most_lit returns -1 exactly when no literal of the cube occurs in two cubes; otherwise the cube's most frequent literal, the first on ties |
| SopRefactoring.SopBestLit | include/operations/optimization/detail/sop_refactoring.hpp:167-172 | when some literal of the cube occurs twice, the one-literal cube of the most frequent one is appended; otherwise the source shifts by -1 and the model reports None |
| SopRefactoring.GetMostLit | include/operations/optimization/detail/sop_refactoring.hpp:146-165 | get_most_lit holds exactly when the literal occurs in at least two cubes, and the output cube is the intersection of the cubes that contain it |
| SopRefactoring.CommonCube | include/operations/optimization/detail/sop_refactoring.hpp:197-202 | the common cube has exactly the literals present in every cube |
| SopRefactoring.FindCommonCube | include/operations/optimization/detail/sop_refactoring.hpp:197-202 | the and-loop over the cubes returns the common cube |
| SopRefactoring.CubeFreeMask | include/operations/optimization/detail/sop_refactoring.hpp:215-225 | an SOP is cube free exactly when its common cube is 0 |
| SopRefactoring.SopMakeCubeFree | include/operations/optimization/detail/sop_refactoring.hpp:195-210 | sop_make_cube_free leaves in place the SOP with the common cube removed from every cube |
| SopRefactoring.SopIsCubeFree | include/operations/optimization/detail/sop_refactoring.hpp:215-225 | sop_is_cube_free holds exactly when no literal is common to all cubes |
| SopRefactoring.MakeCubeFreeBits | include/operations/optimization/detail/sop_refactoring.hpp:195-210 | exactly the literals common to all cubes are removed and the number of cubes is kept |
| SopRefactoring.MakeCubeFreeRestore | include/operations/optimization/detail/sop_refactoring.hpp:195-210 | multiplying the common cube back into a cube-free cube gives the original cube |
| SopRefactoring.MakeCubeFreeIsFree | include/operations/optimization/detail/sop_refactoring.hpp:195-210 | a non-empty SOP is cube free after sop_make_cube_free |
| SopRefactoring.MakeCubeFreeIdempotent | include/operations/optimization/detail/sop_refactoring.hpp:195-210 | a second sop_make_cube_free changes nothing |
| SopRefactoring.Times | include/operations/optimization/detail/sop_refactoring.hpp:248-269 | multiplying the quotient by the divisor cube gives one cube per quotient cube |
| SopRefactoring.DivideRecombines | include/operations/optimization/detail/sop_refactoring.hpp:248-269 | division by a cube is exact: quotient times divisor together with the remainder is the dividend, up to order |
| SopRefactoring.DivideParts | include/operations/optimization/detail/sop_refactoring.hpp:248-269 | quotient cubes share no literal with the divisor, remainder cubes do not contain it, and every dividend cube goes to exactly one of them |
| SopRefactoring.DivideLits | include/operations/optimization/detail/sop_refactoring.hpp:248-269 | division by a cube keeps the literal count: quotient literals, one copy of the divisor per quotient cube and remainder literals add up to the dividend's |
| SopRefactoring.DivideByLitIsQuotient | include/operations/optimization/detail/sop_refactoring.hpp:230-242 | dividing by a literal is dividing by its one-literal cube, and leaves one cube per occurrence of the literal |
| SopRefactoring.SopDivideByLit | include/operations/optimization/detail/sop_refactoring.hpp:230-242 | sop_divide_by_lit compacts the cubes containing the literal, with it cleared, to the front and returns their number; the positions after them keep their old cubes |
| SopRefactoring.SopDivideByCube | include/operations/optimization/detail/sop_refactoring.hpp:248-269 | the quotient holds the cubes containing the divisor cube, with it removed, and the remainder the other cubes, both in order |
| SopRefactoring.SopDivideByCubeNoReminder | include/operations/optimization/detail/sop_refactoring.hpp:275-288 | the quotient is that of sop_divide_by_cube |
| SopRefactoring.MarkIsBit63 | include/operations/optimization/detail/sop_refactoring.hpp:364 | the scratch mark is bit 63: setting it is the or with 1 << 63 and clearing it (as the remainder loop does) is the and with its complement |
| SopRefactoring.FindDivisor | include/operations/optimization/detail/sop_refactoring.hpp:319-324 | the div_i loop returns the first divisor cube contained in c, or the divisor's size when there is none, which is FirstDivisor |
| SopRefactoring.FindMatch | include/operations/optimization/detail/sop_refactoring.hpp:341-351 | the c2 loop returns the first unmarked dividend cube that yields quotient q for the divisor cube, or the end, which is FirstMatch |
| SopRefactoring.AllDivisorsMatch | include/operations/optimization/detail/sop_refactoring.hpp:333-356 | the search holds exactly when quotient q is obtained from every divisor cube other than copies of the one found |
| SopRefactoring.MarkCovered | include/operations/optimization/detail/sop_refactoring.hpp:364-382 | the marking loop leaves exactly MarkMatches of the old dividend: for each divisor cube other than copies of the one found, its first unmarked match for q is marked; every mark set is on a cube some divisor cube is contained in |
| SopRefactoring.SopDivide | include/operations/optimization/detail/sop_refactoring.hpp:295-398 | a single-cube divisor is sop_divide_by_cube; otherwise the quotient and the covered cubes are those of the greedy selection Select on the old dividend, the remainder is the uncovered cubes in order and the marks are cleared again; on an unmarked dividend with a divisor without repeated cubes, quotient times divisor plus remainder is the dividend up to order (both branches) |
| SopRefactoring.SelectQuotient | include/operations/optimization/detail/sop_refactoring.hpp:311-383 | the division loop returns the quotient and leaves the marked dividend that Select computes, and every quotient cube is obtained from every divisor cube |
| SopRefactoring.DivideAt | include/operations/optimization/detail/sop_refactoring.hpp:313-382 | one round of the division loop at cube i returns the quotient cubes and leaves the dividend that DivideStep gives; each quotient cube is obtained from every divisor cube of the original dividend |
| SopRefactoring.FirstDivisor | include/operations/optimization/detail/sop_refactoring.hpp:319-324 | the first divisor cube from e on that c contains, or the size: no earlier one is contained in c |
| SopRefactoring.FirstMatchFirst | include/operations/optimization/detail/sop_refactoring.hpp:341-351 | FirstMatch passes over no matching cube |
| SopRefactoring.MarkMatches | include/operations/optimization/detail/sop_refactoring.hpp:364-382 | the marking loop as a function keeps the number of cubes |
| SopRefactoring.DivideStep | include/operations/optimization/detail/sop_refactoring.hpp:313-382 | one round adds at most one quotient cube and keeps the number of cubes |
| SopRefactoring.Select | include/operations/optimization/detail/sop_refactoring.hpp:311-383 | the division loop as a function keeps the number of cubes |
| SopRefactoring.Product | include/operations/optimization/detail/sop_refactoring.hpp:295-398 | quotient times divisor has one cube per quotient cube and divisor cube |
| SopRefactoring.ProductSingle | include/operations/optimization/detail/sop_refactoring.hpp:248-269 | for a one-cube divisor the product is the one sop_divide_by_cube recombines with |
| SopRefactoring.MarkMatchesAdds | include/operations/optimization/detail/sop_refactoring.hpp:364-382 | with distinct divisor cubes the marking loop marks exactly q times every divisor cube other than the one found, taken from the original dividend |
| SopRefactoring.MarkRound | include/operations/optimization/detail/sop_refactoring.hpp:370-381 | one round of the marking loop marks q times that divisor cube (or nothing for the found one) and leaves every later divisor cube still obtainable |
| SopRefactoring.SelectAdds | include/operations/optimization/detail/sop_refactoring.hpp:311-383 | the division loop marks exactly the cubes of quotient times divisor, taken from the original dividend |
| SopRefactoring.SelectRecombines | include/operations/optimization/detail/sop_refactoring.hpp:295-398 | on an unmarked dividend and a divisor without repeated cubes, quotient times divisor plus the uncovered cubes is the dividend, up to order |
| SopRefactoring.CubeDivisionRecombines | include/operations/optimization/detail/sop_refactoring.hpp:300-304 | with a one-cube divisor, quotient times divisor plus remainder is the dividend, up to order |
| SopRefactoring.CollectRemainder | include/operations/optimization/detail/sop_refactoring.hpp:385-397 | unmarked cubes go to the remainder in order and marked ones lose their mark |
| SopRefactoring.RemainderFacts | include/operations/optimization/detail/sop_refactoring.hpp:385-397 | on the marked dividend the unmarked cubes are the uncovered original cubes |
| SopRefactoring.QuotientProduced | include/operations/optimization/detail/sop_refactoring.hpp:333-362 | a quotient cube accepted by the search is produced by every divisor cube |
| SopRefactoring.CoveredFlags | include/operations/optimization/detail/sop_refactoring.hpp:361-382 | a cube without the covered flag was unmarked in the original dividend; a flagged cube was marked already or contains some divisor cube |
| SopRefactoring.DecodeEncode | include/operations/optimization/detail/sop_refactoring.hpp:521 | the literal 2i + polarity decodes back to variable i and its polarity |
| SopRefactoring.EncodeDecode | include/operations/optimization/detail/sop_refactoring.hpp:521 | every literal number is the encoding of its variable and polarity |
| SopRefactoring.ProductLiterals | include/operations/optimization/detail/sop_refactoring.hpp:518-522 | each masked variable of a cube gives exactly one literal of the product, of the cube's polarity, and unmasked variables give none |
| SopRefactoring.CubeToProduct | include/operations/optimization/detail/sop_refactoring.hpp:517-522 | the product of one cube has exactly the literals of its masked variables below num_vars; with at most 31 variables bit 63 stays clear |
| SopRefactoring.CubesToSop | include/operations/optimization/detail/sop_refactoring.hpp:506-526 | cubes_to_sop returns one product per cube in order, each with exactly its cube's literals; with at most 31 variables no product carries the bit-63 mark |
| WriteAiger.Encode | include/operations/io/detail/write_aiger.hpp:32-43 | encode appends the 7-bit-group encoding of lit to the buffer |
| WriteAiger.ReadVarIntRoundTrip | include/operations/io/detail/write_aiger.hpp:32-43 | decoding an encoded integer, as the AIGER binary format's reader does, gives it back and leaves the bytes after it untouched |
| WriteAiger.VarIntShape | include/operations/io/detail/write_aiger.hpp:34-42 | the encoding has at least one byte, its last byte is below 0x80 and every other byte has 0x80 set |
| WriteAiger.Dec | include/operations/io/detail/write_aiger.hpp:86 | a number printed with %u is a non-empty string of decimal digits |
| WriteAiger.DecRoundTrip | include/operations/io/detail/write_aiger.hpp:86 | reading the printed digits back gives the number |
| WriteAiger.LiteralDecodes | include/operations/io/detail/write_aiger.hpp:92 | the literal 2 * index + complement gives back the node index and the complement flag |
| WriteAiger.WriteAigerStream | include/operations/io/detail/write_aiger.hpp:66-150 | write_aiger writes the header aig M I 0 O A with M = inputs + gates, one output literal per line, the encoded gates, and ends with the comment marker c |
| WriteAiger.WriteOutputs | include/operations/io/detail/write_aiger.hpp:90-93 | the output loop writes each output's literal in decimal on its own line |
| WriteAiger.EncodeGates | include/operations/io/detail/write_aiger.hpp:96-115 | the gate loop orders each gate's fanin literals so that rhs0 >= rhs1 and encodes lhs - rhs0 and then rhs0 - rhs1 |
| WriteAiger.EncodeGate | include/operations/io/detail/write_aiger.hpp:98-115 | one gate appends exactly its two deltas, 2n - rhs0 then rhs0 - rhs1 with the larger fanin literal as rhs0; any other node appends nothing |
| WriteAiger.PutBytes | include/operations/io/detail/write_aiger.hpp:117-120 | the gate bytes are copied to the stream unchanged |
| WriteAiger.ReadGateRoundTrip | include/operations/io/detail/write_aiger.hpp:113-115 | reading the two deltas of a gate gives its two fanin literals back |
| WriteAiger.ReadGatesRoundTrip | include/operations/io/detail/write_aiger.hpp:96-115 | a reader that numbers the gates consecutively gets back every gate's fanin literals, larger first |
| WriteAiger.ReadGatesFromStep | include/operations/io/detail/write_aiger.hpp:97-115 | one gate is read back and then the gates after it |
| WriteAiger.FaninsOrdered | include/operations/io/detail/write_aiger.hpp:106-113 | in a network whose gates only use earlier nodes, the larger fanin literal comes first and is below the gate's own literal, so the assert holds and both deltas are non-negative |
| ChoiceComputation.SimEqualEquivalence | include/operations/algorithms/choice_computation.hpp:304-321 | equal is reflexive, symmetric and transitive, whatever the phases |
| ChoiceComputation.ConstsAreEqual | include/operations/algorithms/choice_computation.hpp:285-321 | two nodes that is_const accepts are equal to each other |
| ChoiceComputation.ConstIsEqualToZero | include/operations/algorithms/choice_computation.hpp:285-321 | is_const holds exactly when the node is equal to an all-zero node of phase 0 |
| ChoiceComputation.KeepMovedPartition | include/operations/algorithms/choice_computation.hpp:124-132 | the kept and moved members partition the class: each member lands in exactly one of them, as often as it occurs |
| ChoiceComputation.Relabel | include/operations/algorithms/choice_computation.hpp:137-141 | after the loop every moved member has the new head as its representative and every other node keeps its own |
| ChoiceComputation.SplitOnce | include/operations/algorithms/choice_computation.hpp:133-142 | one split keeps the class tables well shaped |
| ChoiceComputation.Refined | include/operations/algorithms/choice_computation.hpp:120-149 | refine_one_class keeps the class tables well shaped |
| ChoiceComputation.SplitShrinks | include/operations/algorithms/choice_computation.hpp:133-146 | the split-off class holds its head, is no larger than the class it came from and is smaller when that class held the representative, so the recursion ends; nothing outside the class changes |
| ChoiceComputation.RefinedNone | include/operations/algorithms/choice_computation.hpp:133-134 | when every member agrees with the representative nothing changes and the result is 0 |
| ChoiceComputation.RefinedOnce | include/operations/algorithms/choice_computation.hpp:136-148 | without recursion, or with a new class of at most one member, one split is made and 1 is returned |
| ChoiceComputation.RefinedAgain | include/operations/algorithms/choice_computation.hpp:144-147 | with recursion and a new class of two or more members the result is 1 plus the splits of the new class |
| ChoiceComputation.RefinedNoSplit | include/operations/algorithms/choice_computation.hpp:120-149 | refine_one_class returns 0 exactly when every member agrees with the representative, and then the tables are unchanged |
| ChoiceComputation.RefinedCount | include/operations/algorithms/choice_computation.hpp:120-149 | the number of splits is at most the class size, one less when the representative is in its own class |
| ChoiceComputation.RefinedKeepsRepr | include/operations/algorithms/choice_computation.hpp:120-149 | the representative's class ends up as exactly its agreeing members in their order, and nodes outside the class keep their class and representative |
| ChoiceComputation.KeepAll | include/operations/algorithms/choice_computation.hpp:131-134 | when no member is moved the kept part is the whole class |
| ChoiceComputation.Comparison | include/operations/algorithms/choice_computation.hpp:127 | the comparison used by the split is reflexive on every node |
| ChoiceComputation.ComparisonMeans | include/operations/algorithms/choice_computation.hpp:127 | the comparison is equal for simulation and equal_cex on resimulation |
| ChoiceComputation.CandEquivClasses.constructor | include/operations/algorithms/choice_computation.hpp:61-70 | each node is its own representative and every class is empty |
| ChoiceComputation.CandEquivClasses.SetSimulation | include/operations/algorithms/choice_computation.hpp:169-196 | a simulation run replaces the simulation words (one list per node, computed outside the class) and leaves the classes and representatives as they were |
| ChoiceComputation.CandEquivClasses.Equal | include/operations/algorithms/choice_computation.hpp:304-321 | equal holds exactly when all words agree for equal phases, or every word of n1 is the complement of n2's for different phases |
| ChoiceComputation.CandEquivClasses.IsConst | include/operations/algorithms/choice_computation.hpp:285-301 | is_const holds exactly when every word is 0, or every word is all ones when the phase is set |
| ChoiceComputation.CandEquivClasses.RefineOneClass | include/operations/algorithms/choice_computation.hpp:120-149 | refine_one_class leaves the classes, representatives and count of the Refined specification |
| ChoiceComputation.CandEquivClasses.Split | include/operations/algorithms/choice_computation.hpp:136-142 | the swaps leave the agreeing members under repr and the others as the class of their first member, which becomes their representative |
| ChoiceComputation.CandEquivClasses.Partition | include/operations/algorithms/choice_computation.hpp:122-132 | the loop collects the members equal to the representative and the others, each in class order |
| ChoiceComputation.CandEquivClasses.PointAt | include/operations/algorithms/choice_computation.hpp:137-141 | every moved member gets the new head as its representative and nothing else changes |
| ChoiceComputation.CandidateIsPrime | include/operations/algorithms/choice_computation.hpp:334-359 | every accepted number of at least 3 is prime |
| ChoiceComputation.PrimeIsCandidate | include/operations/algorithms/choice_computation.hpp:334-359 | every odd prime is accepted |
| ChoiceComputation.SmallCandidates | include/operations/algorithms/choice_computation.hpp:341-356 | 1 is accepted and 0 and 2 are not |
| ChoiceComputation.OddTrial | include/operations/algorithms/choice_computation.hpp:343-353 | the trial-division loop sets pn exactly when no odd i from 3 with i * i <= p divides p |
| ChoiceComputation.AbcPrimeCudd | include/operations/algorithms/choice_computation.hpp:334-359 | Abc_PrimeCudd returns an accepted number: the first one from p up, or, when none below 2^32 exists, 1 after the unsigned counter wraps |
| ChoiceComputation.VectorPushUnique | include/operations/algorithms/choice_computation.hpp:725-732 | vector_push_unique appends n only when it is absent, so the contents gain exactly n and a list without duplicates keeps none |
| ChoiceMiter.Insert | include/operations/algorithms/choice_miter.hpp:99 | std::map insert adds the pair only when the key is absent; every other key keeps its image |
| ChoiceMiter.PiMap | include/operations/algorithms/choice_miter.hpp:93-101 | after the input loop each id map sends exactly the inputs 1..n to themselves |
| ChoiceMiter.AndOfInjective | include/database/network/aig_network.hpp:306-345 | the hashed gate determines its unordered pair of fanins |
| ChoiceMiter.MapEdgeInjective | include/operations/algorithms/choice_miter.hpp:196-201 | through an injective id map, equal miter fanins come from equal fanins |
| ChoiceMiter.NonZero | include/operations/algorithms/choice_miter.hpp:195-203 | in a consistent id map only the constant maps to the miter's constant |
| ChoiceMiter.NoFold | include/operations/algorithms/choice_miter.hpp:196-203 | the mapped fanins of an AND node never hit a trivial case of create_and, so a gate is always hashed for them |
| ChoiceMiter.EntrySound | include/operations/algorithms/choice_miter.hpp:192-239 | every mapped node computes in the miter the function it computes in its own network |
| ChoiceMiter.EntrySoundStep | include/operations/algorithms/choice_miter.hpp:196-203 | a translated gate computes the AND of its translated fanins |
| ChoiceMiter.AndGateValue | include/database/network/aig_network.hpp:322-345 | a gate hashed for a and b computes their AND |
| ChoiceMiter.EntryExtends | include/operations/algorithms/choice_miter.hpp:203 | growing the miter at the end keeps an id map consistent |
| ChoiceMiter.NotAnImage | include/operations/algorithms/choice_miter.hpp:203-206 | a gate already in the miter for the fanins of x is the image of no other node |
| ChoiceMiter.TranslateStep | include/operations/algorithms/choice_miter.hpp:236-237 | create_node then set_visited maps AND node x to the gate hashed for its fanins' images and keeps the map consistent |
| ChoiceMiter.FreshImage | include/operations/algorithms/choice_miter.hpp:203-206 | the gate chosen for x is the image of no mapped node |
| ChoiceMiter.TranslatedAfterInsert | include/operations/algorithms/choice_miter.hpp:206 | mapping a new node keeps every other translated node translated and translates the new one |
| ChoiceMiter.PoStep | include/operations/algorithms/choice_miter.hpp:252 | operator[] on the id map gives a missing key (only ever the constant) the image 0 and keeps the map consistent |
| ChoiceMiter.WellFormedAppend | include/database/network/aig_network.hpp:322-345 | appending the gate of two mapped fanins that do not fold keeps the miter well formed |
| ChoiceMiter.InitialEntry | include/operations/algorithms/choice_miter.hpp:93-101 | after the input loop every id map is the input map, nothing is visited, and the miter is well formed |
| ChoiceMiter.KeptRow | include/operations/algorithms/choice_miter.hpp:107-119 | after q full rows, the first k outputs of a new row keep exactly the row's first output |
| ChoiceMiter.RowAppended | include/operations/algorithms/choice_miter.hpp:107-119 | a whole row of n outputs adds its first output to the kept ones |
| ChoiceMiter.NextByte | include/operations/algorithms/choice_miter.hpp:97 | the uint8_t counter j + 1 stays below 256, wrapping to 0 after 255 |
| ChoiceMiter.ByteCounterNeverExits | include/operations/algorithms/choice_miter.hpp:97-100 | with 256 or more networks the byte counter never reaches the count, so the input loop does not end |
| ChoiceMiter.DfsLoopsOnConstant | include/operations/algorithms/choice_miter.hpp:215-239 | in a network with no primary inputs and cleared marks, the walk as written does not stop at the constant node, and an output tied to the constant recurses on the constant again with nothing changed |
| ChoiceMiter.Find | include/operations/algorithms/choice_miter.hpp:157-163 | the first entry holding the network, compared by pointer, or none when it was never added |
| ChoiceMiter.FindIsFirst | include/operations/algorithms/choice_miter.hpp:176-183 | the search lands on the first entry holding the network |
| ChoiceMiter.Mark | include/database/network/aig_network.hpp:1231-1234 | after set_visited every entry holding the network sees its new marks |
| ChoiceMiter.Cleared | include/operations/algorithms/choice_miter.hpp:85-90 | after clear_visited on every network all marks are cleared |
| ChoiceMiter.InsertGrown | include/operations/algorithms/choice_miter.hpp:180 | inserting into one network's map only adds a key |
| ChoiceMiter.StillUnvisited | include/operations/algorithms/choice_miter.hpp:224-233 | an unvisited AND node stays unvisited while the walk only maps smaller nodes |
| ChoiceMiter.InitialState | include/operations/algorithms/choice_miter.hpp:85-101 | after the input loop the marks are cleared, every map is the input map and the miter holds the constant and the inputs |
| ChoiceMiter.GateStep | include/operations/algorithms/choice_miter.hpp:236-237 | an unvisited AND node whose fanins are mapped is marked and mapped to its gate, keeping the entry consistent and the miter well formed |
| ChoiceMiter.DfsStep | include/operations/algorithms/choice_miter.hpp:236-237 | the same step keeps the invariant over every network of the list |
| ChoiceMiter.OthersStep | include/operations/algorithms/choice_miter.hpp:236-237 | the entries of the other networks stay consistent when the miter grows, and only this network's marks and map change |
| ChoiceMiter.PoState | include/operations/algorithms/choice_miter.hpp:252 | the output step keeps the invariant |
| ChoiceMiter.InputAig.constructor | include/database/network/aig_network.hpp:1221-1224 | a network of the list starts with every visited mark cleared |
| ChoiceMiter.InputAig.ClearVisited | include/database/network/aig_network.hpp:1221-1224 | clear_visited resets every mark |
| ChoiceMiter.Miter.constructor | include/operations/algorithms/choice_miter.hpp:46-48 | the default constructor holds no networks |
| ChoiceMiter.Miter.FromList | include/operations/algorithms/choice_miter.hpp:50-56 | the list constructor adds each network in turn, each with an empty id map |
| ChoiceMiter.Miter.AddAig | include/operations/algorithms/choice_miter.hpp:63-68 | add_aig appends the network with an empty id map and changes nothing else |
| ChoiceMiter.Miter.Clear | include/operations/algorithms/choice_miter.hpp:144-147 | clear empties the list and keeps the miter being built |
| ChoiceMiter.Miter.GetIdInMiter | include/operations/algorithms/choice_miter.hpp:155-166 | get_id_in_miter returns the image in the map of the first entry holding the network, or all ones when it was never added |
| ChoiceMiter.Miter.UpdateIdMap | include/operations/algorithms/choice_miter.hpp:174-184 | update_id_map inserts into the first matching entry's map without replacing an existing image, and changes nothing for an unknown network |
| ChoiceMiter.Miter.CreateAnd | include/database/network/aig_network.hpp:306-345 | create_and orders the fanins, folds the trivial cases, reuses a hashed gate and otherwise appends one, only ever growing the miter |
| ChoiceMiter.Miter.CreateNode | include/operations/algorithms/choice_miter.hpp:192-207 | create_node rebuilds the AND node from the images of its fanins with their complement flags and records its image |
| ChoiceMiter.Miter.VisitNode | include/operations/algorithms/choice_miter.hpp:236-237 | create_node then set_visited maps the node and keeps the invariant |
| ChoiceMiter.Miter.SetVisited | include/database/network/aig_network.hpp:1231-1234 | set_visited marks the node, seen by every entry holding the network |
| ChoiceMiter.Miter.DfsRecursionPo | include/operations/algorithms/choice_miter.hpp:215-239 | the walk rebuilds fanins before the node and a visited node never again; only the network's first entry's map grows, by keys up to index, index among them |
| ChoiceMiter.Miter.PushPo | include/operations/algorithms/choice_miter.hpp:252 | the output is added on the image of its node, and operator[] adds a missing key with image 0 |
| ChoiceMiter.Miter.CreateCell | include/operations/algorithms/choice_miter.hpp:251-252 | network j is rebuilt from its output i and that output added |
| ChoiceMiter.Miter.CreateRow | include/operations/algorithms/choice_miter.hpp:249-253 | output i of every network is added in list order, the first network's first |
| ChoiceMiter.Miter.CreateInternalNodes | include/operations/algorithms/choice_miter.hpp:245-255 | of every row of outputs, one per network, the first is the first network's output |
| ChoiceMiter.Miter.RemoveRedundantPos | include/operations/algorithms/choice_miter.hpp:107-119 | the erase loop keeps exactly the outputs at positions 0, n, 2n, ... |
| ChoiceMiter.Miter.CreatePi | include/database/network/aig_network.hpp:182-194 | create_pi appends an input node and counts it |
| ChoiceMiter.Miter.InsertPi | include/operations/algorithms/choice_miter.hpp:97-100 | input i + 1 maps to node i + 1 in every id map, without replacing an existing image |
| ChoiceMiter.Miter.CopyPis | include/operations/algorithms/choice_miter.hpp:93-101 | the miter gets the constant and np inputs, and every id map becomes the input map |
| ChoiceMiter.Miter.ClearAll | include/operations/algorithms/choice_miter.hpp:85-90 | clear_visited on every network of the list |
| ChoiceMiter.Miter.MergeAigsToMiter | include/operations/algorithms/choice_miter.hpp:75-138 | a single network is returned unchanged; otherwise the inputs are shared, the miter is well formed, it has as many outputs as each network, and output k computes what output k of the first network computes |
| NetworkToKlut.TrueNode | include/operations/algorithms/network_to_klut.hpp:112 | the constant-true node is node 1 when the network has a separate one, else node 0 |
| NetworkToKlut.Row | include/operations/algorithms/network_to_klut.hpp:164 | the row of a cell function selected by its leaves' values lies inside the table |
| NetworkToKlut.LutOutNot | include/operations/algorithms/network_to_klut.hpp:168 | the complemented cell function gives the complemented output on every row |
| NetworkToKlut.EvalAppend | include/operations/algorithms/network_to_klut.hpp:164 | appending LUTs does not change what earlier nodes compute |
| NetworkToKlut.PoStep | include/operations/algorithms/network_to_klut.hpp:59-73 | none becomes pos or neg by polarity, pos with a complemented output and neg with a plain one become mixed, and mixed stays mixed |
| NetworkToKlut.PoStepClassify | include/operations/algorithms/network_to_klut.hpp:58-74 | one step keeps the type equal to the classification of the outputs seen so far |
| NetworkToKlut.DriverOf | include/operations/algorithms/network_to_klut.hpp:57-87 | after both passes a node is mixed exactly when outputs use it both ways or complemented while a cell uses it, neg when only complemented outputs use it, pos when only plain outputs use it, and none when no output uses it |
| NetworkToKlut.DriverTypes | include/operations/algorithms/network_to_klut.hpp:57-87 | the driver types hold the DriverOf of every node |
| NetworkToKlut.InitialDriverTypes | include/operations/algorithms/network_to_klut.hpp:58-74 | after the output pass each node's type classifies the outputs on it |
| NetworkToKlut.MarkLeaves | include/operations/algorithms/network_to_klut.hpp:81-86 | each leaf of one cell whose type is neg becomes mixed and nothing else changes |
| NetworkToKlut.MarkCellFanins | include/operations/algorithms/network_to_klut.hpp:77-87 | the leaves of every cell root that are neg become mixed |
| NetworkToKlut.Klut.constructor | include/operations/algorithms/network_to_klut.hpp:393 | a new k-LUT network holds the two constants and no inputs or outputs |
| NetworkToKlut.Klut.GetConstant | include/operations/algorithms/network_to_klut.hpp:97 | get_constant returns the constant node of that value |
| NetworkToKlut.Klut.CreatePi | include/operations/algorithms/network_to_klut.hpp:125 | create_pi appends an input and counts it |
| NetworkToKlut.Klut.CreateNode | include/operations/algorithms/network_to_klut.hpp:164 | create_node appends a LUT over the children with the function |
| NetworkToKlut.Klut.CreateNot | include/operations/algorithms/network_to_klut.hpp:131 | create_not appends a one-input LUT with the NOT function |
| NetworkToKlut.Klut.CreatePo | include/operations/algorithms/network_to_klut.hpp:184-188 | create_po appends the output |
| NetworkToKlut.NotValue | include/operations/algorithms/network_to_klut.hpp:131 | a NOT node computes the complement of its input |
| NetworkToKlut.AllTranslatedGrow | include/operations/algorithms/network_to_klut.hpp:117-176 | appending nodes without touching a done node keeps every done node translated |
| NetworkToKlut.AddConstantToMap | include/operations/algorithms/network_to_klut.hpp:90-109 | the constant of value maps to the constant of value, of !value when neg, and a mixed constant also gets the opposite constant |
| NetworkToKlut.MapPi | include/operations/algorithms/network_to_klut.hpp:118-146 | exactly one input is created per source input; neg maps to its negation and mixed records the negation as the opposite |
| NetworkToKlut.MapPis | include/operations/algorithms/network_to_klut.hpp:117-146 | after the input pass the constants and every input are translated right |
| NetworkToKlut.CellChildren | include/operations/algorithms/network_to_klut.hpp:154-157 | the children are the translations of the cell's leaves, in order |
| NetworkToKlut.MapCell | include/operations/algorithms/network_to_klut.hpp:151-175 | one cell root becomes a LUT with the cell function, its complement when neg, and both when mixed |
| NetworkToKlut.CellValue | include/operations/algorithms/network_to_klut.hpp:164-173 | a new LUT over translations of a cell's leaves computes the cell, or its complement |
| NetworkToKlut.CellStep | include/operations/algorithms/network_to_klut.hpp:150-176 | once every leaf of a cell root is translated, the LUTs made for it translate it too |
| NetworkToKlut.MapCells | include/operations/algorithms/network_to_klut.hpp:148-176 | on a complete mapping, after the node pass every cell root is translated right |
| NetworkToKlut.MapNode | include/operations/algorithms/network_to_klut.hpp:150-176 | one node of the pass: a cell root gets its LUTs appended and becomes translated on top of the nodes done before it, any other node changes nothing; earlier LUTs are kept |
| NetworkToKlut.LeavesDone | include/operations/algorithms/network_to_klut.hpp:149-157 | the leaves of a cell root are translated before it, and it is not |
| NetworkToKlut.OutputSound | include/operations/algorithms/network_to_klut.hpp:179-189 | a complemented output of a mixed driver uses the opposite, any other the plain translation, and either way it computes the output |
| NetworkToKlut.CreateOutputs | include/operations/algorithms/network_to_klut.hpp:178-198 | one new output per source output in order, each computing it |
| NetworkToKlut.ComputeDriverTypes | include/operations/algorithms/network_to_klut.hpp:57-87 | both passes leave the DriverTypes of the network |
| NetworkToKlut.MapConstants | include/operations/algorithms/network_to_klut.hpp:111-115 | the constant false, and true when it is a node of its own, are translated right |
| NetworkToKlut.TranslateNodes | include/operations/algorithms/network_to_klut.hpp:40-176 | every pass before the outputs: one input per source input, and on a complete mapping every cell root translated right |
| NetworkToKlut.Run | include/operations/algorithms/network_to_klut.hpp:40-199 | on a complete mapping the new outputs compute the source's outputs, the k-th source input being the k-th new input |
| NetworkToKlut.NetworkToKlut | include/operations/algorithms/network_to_klut.hpp:383-397 | none exactly when there is no mapping and there are gates, otherwise a fresh k-LUT network computing the source's outputs |
| NetworkToKlut.NetworkToKlutInto | include/operations/algorithms/network_to_klut.hpp:399-412 | false, leaving the network untouched, exactly when there is no mapping and there are gates; otherwise the collapse is added to it |
| Range.Fold1Append | include/utils/range.hpp:27-33 | the left fold of a concatenation combines the folds of its parts when the operation is associative |
| Range.TreeReduceSmall | include/utils/range.hpp:21-26 | tree_reduce returns init for an empty range and the element itself for a singleton |
| Range.TreeReduceIgnoresInit | include/utils/range.hpp:16-36 | init is never combined into the result of a non-empty range |
| Range.TreeReduceIsFold | include/utils/range.hpp:16-36 | for an associative operation the balanced reduction, split at half the length, equals the left fold |
| Range.FoldAppend | include/utils/range.hpp:55-59 | the left fold of f over a concatenation is f of the folds of its parts when f is associative with unit e |
| Range.FoldSmall | include/utils/range.hpp:45-52 | the left fold of up to three elements, written out, as the small cases of ternary_tree_reduce compare to it |
| Range.TernaryTreeReduceIsFold | include/utils/range.hpp:38-63 | when the ternary operation applies an associative f with unit init twice, the ternary reduction split into len/3, (len - len/3)/2 and the rest equals the left fold of f |
| Range.MaxElementAsWritten | include/utils/range.hpp:65-79 | the as-written selection is an index into the range or its end |
| Range.MaxElementUnary | include/utils/range.hpp:65-79 | the loop as written, which stores the boolean comparison as the new maximum, returns the as-written selection |
| Range.MaxElementAsWrittenCounterexample | include/utils/range.hpp:72-75 | on [5, 3] with the identity image and init 0 the as-written loop returns index 1, although 5 is the maximum |
| Range.MaxElementUnaryFixed | include/utils/range.hpp:65-79 | the loop storing the image as the maximum returns the end exactly when no image exceeds init, and otherwise the first index of a maximal image |
| Range.RangeValues | include/utils/range.hpp:81-102 | range(b, e) yields b, b + 1, ..., e - 1 |
| Range.RangeTo | include/utils/range.hpp:104-108 | range(e) starts at 0 and yields e values |
| Util.EndsWith | include/utils/util.hpp:27-42 | ends_with holds exactly when suffix is a suffix of str; an empty suffix gives true and a longer one false |
| Util.AccumulateJoin | include/utils/util.hpp:49-52 | the accumulation with a string separator appends the separator and each mapped element to the accumulator |
| Util.MapAndJoinIsJoin | include/utils/util.hpp:47-53 | with a string separator the result is the mapped elements joined by the separator |
| Util.MapAndJoinForms | include/utils/util.hpp:44-61 | the function-separator form with a function that inserts the separator agrees with the string form |
| Reader.ToEscapedIdentifier | include/operations/io/reader.hpp:55-63 | a simple name is returned unchanged, any other becomes a backslash, the name and a terminating blank, as an escaped identifier of section 3.7.1 of IEEE 1364-2005 |
| Reader.UnescapeEscape | include/operations/io/reader.hpp:55-63 | removing the escape gives the name back, so escaping never loses a name |
| Reader.EscapedIsWellFormed | include/operations/io/reader.hpp:48-63 | the escaped result is a simple identifier or starts with a backslash |
| Reader.DigitNamesAreEscaped | include/operations/io/reader.hpp:43-63 | x0 is escaped, because digits are not simple characters |
| Reader.EscapeNotIdempotent | include/operations/io/reader.hpp:43-63 | escaping an escaped name escapes it again, because the backslash and blank are not simple |
| Foreach.ForeachElement | include/database/network/details/foreach.hpp:36-85 | the loop over the elements returns the position and the callback calls of the Visit specification |
| Foreach.VisitShape | include/database/network/details/foreach.hpp:55-66 | the walk stops right after the first callback answering false; the calls are the consumed prefix with indices counting up from the offset, modulo 2^32 |
| Foreach.VisitAll | include/database/network/details/foreach.hpp:67-84 | with a callback that returns nothing every element is visited and end is returned |
| Foreach.ForeachElementIf | include/database/network/details/foreach.hpp:87-157 | the loop with a predicate returns the position and calls of the VisitIf specification |
| Foreach.VisitIfIsVisitOfFilter | include/database/network/details/foreach.hpp:112-128 | skipped elements neither reach the callback nor consume an index: the calls are those of foreach_element over the filtered sequence |
| Foreach.ForeachElementTransform | include/database/network/details/foreach.hpp:159-209 | the callback sees transform(x) instead of x: position and calls are those of foreach_element over the transformed sequence |
| Reporter.OfValue | regression/main_test/scripts/reporter.py:5-14 | each value from 0 to TOTAL - 1 is the value of exactly the status that has it |
| Reporter.ToString | regression/main_test/scripts/reporter.py:16-20 | to_string returns the first attribute name whose value is v, scanning the attributes in order |
| Reporter.FirstNamedAt | regression/main_test/scripts/reporter.py:18-20 | the scan finds the first attribute holding v, and nothing when none does |
| Reporter.NameOfValues | regression/main_test/scripts/reporter.py:5-20 | each status value maps back to its own name, 6 to TOTAL, and any other value to nothing |
| Reporter.ClassifyIsFirstMarker | regression/main_test/scripts/reporter.py:35-47 | a log gets status s exactly when the marker of s occurs in it and no marker looked for before it does, in the order PASS, exit code, nonequivalent, post check failure, worse QoR, worse performance |
| Reporter.ClassifyNone | regression/main_test/scripts/reporter.py:35-47 | a log gets no status exactly when it holds none of the markers |
| Reporter.Bucket | regression/main_test/scripts/reporter.py:48 | a bucket holds at most one entry per case |
| Reporter.BucketsPartition | regression/main_test/scripts/reporter.py:29-48 | every classified case lands in exactly one bucket, so the bucket sizes add up to the number of cases |
| Reporter.Bucketize | regression/main_test/scripts/reporter.py:29-48 | the loop fails exactly when some log has no status, and otherwise bucket v holds the cases of status v in case order |
| Reporter.Indented | regression/main_test/scripts/reporter.py:60 | one indented line per case |
| Reporter.StatusLines | regression/main_test/scripts/reporter.py:59-60 | a failed status's block is its name followed by one line per case |
| Reporter.AppendIndented | regression/main_test/scripts/reporter.py:60 | extend appends the indented lines of the bucket |
| Reporter.AppendFailureLines | regression/main_test/scripts/reporter.py:57-60 | the loop over the failed statuses appends the block of every non-empty bucket, in status order |
| Reporter.AppendStatus | regression/main_test/scripts/reporter.py:58-60 | a non-empty bucket appends its status name with a colon and then each of its cases indented by four spaces; an empty bucket appends nothing |
| Reporter.Report | regression/main_test/scripts/reporter.py:28-68 | report raises TypeError exactly when a log has no status and ZeroDivisionError exactly when there are no cases; otherwise it returns the summary with the total, total minus the PASS count as failed, the pass rate and the failed blocks |
| Reporter.FailureLinesStep | regression/main_test/scripts/reporter.py:57-60 | the failed blocks from status v are the block of v, if non-empty, followed by the rest |
| Reporter.FailureHeaders | regression/main_test/scripts/reporter.py:57-60 | the summary lists a status exactly when it is not PASS and its bucket is non-empty |
| Reporter.HeadersDistinct | regression/main_test/scripts/reporter.py:59 | headers of different statuses differ |
| Reporter.HeaderNotIndented | regression/main_test/scripts/reporter.py:59-60 | no header is mistaken for an indented case line |
| RegressionCase.CreateCase | regression/main_test/scripts/case.py:20-35 | create_case builds the case class named by the flow in force, the global flow winning over the case's and yosys the default; any other name fails an assertion |
| RegressionCase.CreateCaseNames | regression/main_test/scripts/case.py:26-33 | every flow is reached from its name, the global name wins, and with no name the flow is yosys |
| RegressionCase.LogTextAppend | regression/main_test/scripts/case.py:54 | the log of two record lists is the log of the first followed by that of the second |
| RegressionCase.LogContains | regression/main_test/scripts/case.py:144-146 | a phrase without newline occurs in the log exactly when it occurs in one of its records |
| RegressionCase.RunRecords | regression/main_test/scripts/utilities.py:39-45 | run_subprocess logs two records: the error text and a failure line, or the output and a success line |
| RegressionCase.CecCheck | regression/main_test/scripts/case.py:141-148 | one cec check logs its command's records, and fails, logging its note, exactly when the command exits with 0 and the searched text holds Networks are NOT EQUIVALENT |
| RegressionCase.IfpgaVerify | regression/main_test/scripts/case.py:136-192 | the three cec checks each fail only on a zero exit with a reported difference; when none failed and formality is enabled, the formality run decides, failing on a non-zero exit or when the log lacks Verification SUCCEEDED |
| RegressionCase.CheckTwoNeverFires | regression/main_test/scripts/case.py:150-158 | the second check as written searches only the rest of the logged command line after merged.v, so it never reports whatever the tool printed |
| RegressionCase.CommandLog | regression/main_test/scripts/case.py:150-155 | the log after a cec command's records, cut around its second file name |
| RegressionCase.CheckThreeOnlyCommand | regression/main_test/scripts/case.py:160-168 | the third check as written searches only what follows choice.v on its own command line, which holds the phrase only when the command does |
| RegressionCase.OperatorVerify | regression/main_test/scripts/case.py:233-248 | the operator check fails exactly when its cec run exits with 0 and the whole log reports a difference |
| RegressionCase.OperatorQorCheck | regression/main_test/scripts/case.py:250-257 | the QoR check passes exactly when no metric exceeds its golden number (equal passes); the first metric that does fails it, and an error reading a metric propagates |
| RegressionCase.Leading | regression/main_test/scripts/case.py:205-214 | the counts read for fanin 1, 2, ... stop at the first fanin without a line |
| RegressionCase.LutAreaAppend | regression/main_test/scripts/case.py:215 | one more LUT size adds its count times its weight: 1 for up to six inputs, then 2^(i - 7) for i inputs, so 1 for seven and 2 for eight |
| RegressionCase.IfpgaExtractQor | regression/main_test/scripts/case.py:194-217 | level is the max delay, an assertion failing without it; area weighs the leading LUT counts; any other metric leaves the value unbound |
| RegressionCase.LeadingUnique | regression/main_test/scripts/case.py:205-214 | the read loop returns the leading counts |
| RegressionCase.RunCasePasses | regression/main_test/scripts/case.py:56-90 | a case passes exactly when it exits with 0, is verified or skips verification, and passes the QoR check; a yosys case with verification raises TypeError |
| RegressionCase.AbnormalExitStops | regression/main_test/scripts/case.py:59-63 | a non-zero exit decides the case before any later stage runs |
| RegressionCase.VerificationSkipped | regression/main_test/scripts/case.py:66-68 | with verification disabled the verifier plays no part |
| RegressionCase.NonequivalentStops | regression/main_test/scripts/case.py:69-71 | a failed verification decides the case before the QoR stage |
| RegressionCase.ClassifyLast | regression/main_test/scripts/reporter.py:35-47 | a log whose earlier records are quiet and whose last record holds the marker of a status, and no earlier one, gets that status |
| RegressionCase.ClassifyQuiet | regression/main_test/scripts/reporter.py:35-47 | a log without markers gets no status |
| RegressionCase.ReportedStatus | regression/main_test/scripts/case.py:56-90 | the reporter's status for a case's log is the stage it ended in: PASS exactly when it passed, then abnormal exit, nonequivalent or worse QoR, and no status when a stage raised |
| RegressionCase.ReportedAbnormalExit | regression/main_test/scripts/case.py:61-63 | an abnormal exit is logged and reported as ABNORMAL_EXIT |
| RegressionCase.ReportedNonequivalent | regression/main_test/scripts/case.py:69-71 | a failed verification is logged and reported as NONEQUIVALENT |
| RegressionCase.ReportedAfterVerification | regression/main_test/scripts/case.py:75-90 | after verification a raised QoR error leaves no status, worse QoR is reported as WORSE_QOR and a pass as PASS |
| RegressionCase.ExitMarks | regression/main_test/scripts/case.py:62 | the exit message holds exit code and not the PASS marker |
| RegressionCase.NonequivalentMarks | regression/main_test/scripts/case.py:70 | the nonequivalence message holds nonequivalent and neither earlier marker |
| RegressionCase.WorseQorMarks | regression/main_test/scripts/case.py:77 | the worse-QoR message, with its cae typo, holds worse QoR and no marker looked for earlier |
| RegressionCase.FinishedMarks | regression/main_test/scripts/case.py:89 | the final message holds the PASS marker |
| RegressionCase.SkipSilent | regression/main_test/scripts/case.py:68 | the skip message holds no marker |
| RegressionCase.EquivalenceSilent | regression/main_test/scripts/case.py:73 | the equivalence message holds no marker |
| RegressionCase.QorPassSilent | regression/main_test/scripts/case.py:80 | the QoR pass message holds no marker |
| Text.Find | regression/main_test/scripts/reporter.py:36 | the search returns the first occurrence at or after from, or nothing when there is none |
| Text.FindDecides | regression/main_test/scripts/reporter.py:36 | in holds exactly when the search from the start finds an occurrence |
| Text.AfterLastSuffix | regression/main_test/scripts/case.py:155 | split(sep)[-1] is a suffix of the text without the separator, and is the whole text or follows a separator |
| Text.AfterLastNoSeparator | regression/main_test/scripts/case.py:155 | text without the separator is its own last piece |
| Text.AfterLastInTail | regression/main_test/scripts/case.py:155 | after a separator followed by z, what the last piece contains the separator and z contain |
| Decimal.NatToString | regression/main_test/scripts/case.py:62 | the decimal text of a number is digits only, without a leading zero |
| Decimal.IntToString | regression/main_test/scripts/case.py:62 | the decimal text of an integer is digits with a leading minus sign when negative |
| Decimal.ParseNatToString | regression/mapper_test/mapper_test.py:200 | reading back the printed text gives the number |
| Decimal.NatToStringInjective | regression/main_test/scripts/case.py:62 | different numbers print differently |
| MapperTest.TotalUpdate | regression/mapper_test/mapper_test.py:171 | adding one to an entry adds one to the histogram's total |
| MapperTest.Bin | regression/mapper_test/mapper_test.py:162-170 | a line without assign, or with a constant 1'b, or a buffer (one identifier and no ~) is skipped; otherwise its bin is the number of distinct identifiers right of the last = |
| MapperTest.Slot | regression/mapper_test/mapper_test.py:171 | lut_nums[n - 1] is entry n - 1 for 1 <= n <= w, the last entry for n = 0 (index -1), and an IndexError past the end or in an empty list |
| MapperTest.Histogram | regression/mapper_test/mapper_test.py:157-171 | the histogram has one entry per LUT size, or the IndexError of the first overflowing line |
| MapperTest.HistogramPrefixErr | regression/mapper_test/mapper_test.py:162-171 | an IndexError on a prefix of the lines stops the whole loop |
| MapperTest.HistogramFails | regression/mapper_test/mapper_test.py:162-171 | the loop raises exactly when some counted line overflows the list |
| MapperTest.HistogramCounts | regression/mapper_test/mapper_test.py:162-171 | each entry counts exactly the lines that land in it |
| MapperTest.HistogramTotal | regression/mapper_test/mapper_test.py:173 | the histogram's total is the number of counted lines |
| MapperTest.AreaWeights | regression/mapper_test/mapper_test.py:173-175 | with K = 7 the last count is added twice, otherwise the area is the total |
| MapperTest.LutAreaCounts | regression/mapper_test/mapper_test.py:162-175 | ABC's area counts every counted line once and, with K = 7, each 7-input one twice |
| MapperTest.LutStatistics | regression/mapper_test/mapper_test.py:153-176 | __lut_statistics returns the histogram of the lines and its area, or the IndexError of the loop |
| MapperTest.MaxOfIsMax | regression/mapper_test/mapper_test.py:137-140 | the level bounds every Level = n match and is one of them, or 0 when there is none |
| MapperTest.MaxLevel | regression/mapper_test/mapper_test.py:138-140 | the level loop returns the maximum of the matches, starting from 0 |
| MapperTest.ExtractAbcReport | regression/mapper_test/mapper_test.py:134-151 | the histogram comes first; a missing peak memory or total time line raises AttributeError; a histogram with both lines present always gives figures, and the figures are the histogram, its area, the level, the memory and the time |
| MapperTest.ExtractIfpgaReport | regression/mapper_test/mapper_test.py:193-221 | a missing max delay returns the failure pair ('0', '0'); a missing count is 0; a missing peak memory or mapping time raises AttributeError; otherwise the counts, the area with the K = 7 rule and the level |
| MapperTest.RunIfpgaAsWritten | regression/mapper_test/mapper_test.py:188-191 | as written, output on stderr gives no metrics, and the failure pair plus the run time, a tuple plus a list, raises TypeError |
| MapperTest.MissingDelayStopsScript | regression/mapper_test/mapper_test.py:191-208 | a report without max delay stops the script as written, and only skips the case as intended |
| MapperTest.RunIfpga | regression/mapper_test/mapper_test.py:178-191 | as intended, no metrics exactly on stderr output or a missing max delay; otherwise the report's figures and the run time |
| MapperTest.VerdictOf | regression/mapper_test/mapper_test.py:269-272 | worse exactly when iFPGA's area and delay both exceed ABC's, better exactly when neither does, otherwise neither |
| MapperTest.AreaTextZero | regression/mapper_test/mapper_test.py:244 | the area text is 0 exactly when the area is zero |
| MapperTest.CollectVerdicts | regression/mapper_test/mapper_test.py:234-272 | the worse and better lists name exactly the kept rows with those verdicts, and every kept row has a non-zero ABC area |
| MapperTest.CollectPrefixErr | regression/mapper_test/mapper_test.py:234-272 | an error on an earlier benchmark stops the loop |
| MapperTest.CompareCases | regression/mapper_test/mapper_test.py:224-272 | the loop over the benchmarks collects the rows and verdicts of the Collect specification, stopping at the first error, including the ZeroDivisionError of a zero iFPGA run time, map time, peak memory, area or level |
| MapperTest.StepDivisions | regression/mapper_test/mapper_test.py:243-265 | for a benchmark with a non-zero ABC area and iFPGA metrics, the step raises ZeroDivisionError exactly when one of the five divisors (run time, map time, peak memory, area, level) is zero; a row that is added has all of them non-zero |
| MapperTest.AbcCells | regression/mapper_test/mapper_test.py:240-245 | a row begins with the name, ABC's counts, area, level, map time, run time and memory |
| MapperTest.KeyIsLut5 | regression/mapper_test/mapper_test.py:290 | with five or more LUT sizes column 5 is the 5-input LUT count, not the area |
| MapperTest.KeyIsAreaForK4 | regression/mapper_test/mapper_test.py:290 | with four LUT sizes column 5 is the area |
| MapperTest.SizeOf | regression/mapper_test/mapper_test.py:290-313 | small below 1000, medium from 1000 to 5000 inclusive, large above 5000 |
| MapperTest.SizeFilterPartition | regression/mapper_test/mapper_test.py:290-313 | every row lands in exactly one of the three sizes |
| MapperTest.SizeFilterSizes | regression/mapper_test/mapper_test.py:290-313 | every row kept has the size asked for |
| MapperTest.BucketSizes | regression/mapper_test/mapper_test.py:290-313 | every row of a bucket has that bucket's size |
| MapperTest.BucketsPartition | regression/mapper_test/mapper_test.py:290-313 | the three buckets together hold every row exactly once |
| MapperTest.AverageBetween | regression/mapper_test/mapper_test.py:292-293 | the mean of values between lo and hi lies between lo and hi |
| MapperTest.PositiveNonEmpty | regression/mapper_test/mapper_test.py:294 | some map-time score is kept exactly when some score is above zero |
| MapperTest.PositiveAverage | regression/mapper_test/mapper_test.py:294-295 | the mean of the positive scores is above zero exactly when there is one, and never negative |
| MapperTest.MapTimes | regression/mapper_test/mapper_test.py:294 | the map-time score of each row, in order |
| MapperTest.BucketAveragesAsWritten | regression/mapper_test/mapper_test.py:286-295 | as written, an empty bucket keeps its averages at 0, and a non-empty bucket without a positive map-time score divides by zero |
| MapperTest.ZeroMapTimesRaise | regression/mapper_test/mapper_test.py:294-295 | a non-empty bucket whose map-time scores are all zero raises ZeroDivisionError |
| MapperTest.BucketAverages | regression/mapper_test/mapper_test.py:286-295 | as intended, an empty bucket keeps 0, and the map-time average is above zero exactly when some score is |
| MapperTest.BucketAveragesAgree | regression/mapper_test/mapper_test.py:286-295 | where the as-written version does not raise, both versions agree |
| MapperTest.Summarize | regression/mapper_test/mapper_test.py:283-323 | the summary fails exactly when column 5 of some row is not an integer or there are no rows; otherwise the three buckets' averages |
| WriteVerilog.NumberedInjective | include/operations/io/detail/write_verilog.hpp:176 | different numbers give different names under one prefix |
| WriteVerilog.PortBits | include/operations/io/detail/write_verilog.hpp:122-133 | a scalar port (width 0) gives its own name, a vector port of width w gives name[0] to name[w-1] |
| WriteVerilog.PortNames | include/operations/io/detail/write_verilog.hpp:120 | one declared name per port |
| WriteVerilog.AllBitsLength | include/operations/io/detail/write_verilog.hpp:117-134 | there are as many bit names as the ports declare bits |
| WriteVerilog.AllBitsAt | include/operations/io/detail/write_verilog.hpp:118-134 | bit i of port j sits at port j's offset plus i, so the ports partition the bit names in order |
| WriteVerilog.DefaultNames | include/operations/io/detail/write_verilog.hpp:111-112 | the default names are prefix0 to prefix{count-1} |
| WriteVerilog.DefaultNamesDistinct | include/operations/io/detail/write_verilog.hpp:111-112 | default names never repeat |
| WriteVerilog.BumpCounts | include/operations/io/detail/write_verilog.hpp:121-124 | the uint32 counter adds the port's bit count, 1 for a scalar, modulo 2^32 |
| WriteVerilog.DefaultBitNames | include/operations/io/detail/write_verilog.hpp:111-112 | the loop yields the default names |
| WriteVerilog.AppendVectorBits | include/operations/io/detail/write_verilog.hpp:129-132 | the inner loop appends name[0] to name[w-1] |
| WriteVerilog.DeclaredBitNames | include/operations/io/detail/write_verilog.hpp:117-134 | the loop over the declared ports yields their bit names, their names and the wrapped bit count |
| WriteVerilog.PortBitNames | include/operations/io/detail/write_verilog.hpp:108-139 | without declared ports the bit names are the defaults and the declared names are those bits; with declared ports a bit count different from the number of inputs only raises the error flag |
| WriteVerilog.Wires | include/operations/io/detail/write_verilog.hpp:174-177 | one wire n<index> per gate, in index order |
| WriteVerilog.GatesExact | include/operations/io/detail/write_verilog.hpp:175 | the gates listed are exactly the gate nodes, in increasing order |
| WriteVerilog.WiresDistinct | include/operations/io/detail/write_verilog.hpp:174-177 | no two wire names coincide |
| WriteVerilog.NameNodes | include/operations/io/detail/write_verilog.hpp:222-238 | the false constant is named 1'b0, a distinct true constant 1'b1, input i its bit name, each gate the topological walk visits n<index>, and every other node keeps the empty name; too few bit names is an error |
| WriteVerilog.NameInputs | include/operations/io/detail/write_verilog.hpp:227-229 | for distinct inputs, input i ends up named xs[i] and every node that is not an input keeps its name |
| WriteVerilog.NameGates | include/operations/io/detail/write_verilog.hpp:231-238 | every gate the topological order visits is named n<index>, and every other node keeps its name |
| WriteVerilog.AssignOutputs | include/operations/io/detail/write_verilog.hpp:311-313 | output i is assigned to ys[i] from its driver's name with its complement flag; too few output names is an error |
| WriteVerilog.NameNetwork | include/operations/io/detail/write_verilog.hpp:108-313 | the naming of write_verilog: the port bits are the declared partition's bit names (or x0, x1, … / y0, y1, … without one) with the mismatch flags; the port lists are the declared names, or the bit names without a declaration; the wires are n followed by the index of each gate, in index order; the constants are named 1'b0 and 1'b1, each input its bit name, each gate in topological order n followed by its index, and every other node the empty name; one assignment per output from its driver's name and complement; and the naming fails exactly when a partition has fewer bits than the ports |
| WriterLut.Flip | include/operations/io/detail/writer_lut.hpp:128 | flipping variable i keeps the table's size |
| WriterLut.RowBit | include/operations/io/detail/writer_lut.hpp:125-129 | bit i of the row the inputs select is the value of variable i |
| WriterLut.RowFlip | include/operations/io/detail/writer_lut.hpp:128 | negating variable i moves to the row with bit i flipped |
| WriterLut.FlipComputes | include/operations/io/detail/writer_lut.hpp:128 | the flipped table reads at any input what the table reads with variable i negated |
| WriterLut.Adjust | include/operations/io/detail/writer_lut.hpp:124-129 | folding in the complemented fanins keeps the table's size |
| WriterLut.Toggled | include/operations/io/detail/writer_lut.hpp:125-129 | negating the values of the complemented fanins keeps one value per fanin |
| WriterLut.AdjustComputes | include/operations/io/detail/writer_lut.hpp:124-129 | the adjusted LUT on the plain fanin values computes the node's function on its possibly complemented fanins |
| WriterLut.TaggedInjective | include/operations/io/detail/writer_lut.hpp:84 | different node indices give different default names |
| WriterLut.PortNames | include/operations/io/detail/writer_lut.hpp:79-115 | by default one name per input or output, all different; with declared ports one name per port whatever its width |
| WriterLut.BindLookup | include/operations/io/detail/writer_lut.hpp:95-98 | pi_map holds exactly the input nodes, each under its own name |
| WriterLut.FaninNamesSpec | include/operations/io/detail/writer_lut.hpp:125-138 | every fanin is named by the wire of an earlier gate or the name of an input, and naming fails at the first fanin that is neither |
| WriterLut.Compl | include/operations/io/detail/writer_lut.hpp:126 | one complement flag per fanin |
| WriterLut.Gates | include/operations/io/detail/writer_lut.hpp:119-122 | the gates among the first n nodes, in index order |
| WriterLut.LutsOk | include/operations/io/detail/writer_lut.hpp:117-142 | after n nodes the wires are the gates among them and there is one instance per gate, in order, numbered from 0 |
| WriterLut.LutsFail | include/operations/io/detail/writer_lut.hpp:119-142 | writing the instances stops exactly when some gate has a fanin that cannot be named |
| WriterLut.GateLutNames | include/operations/io/detail/writer_lut.hpp:123-141 | the k-th instance is named name<k>, drives _w<x>_ and reads the wire of each gate fanin and the name of each input fanin |
| WriterLut.GateLutComputes | include/operations/io/detail/writer_lut.hpp:124-187 | the instance computes on its plain fanin nets what gate x computes on its fanin signals, and its INIT literal is 1 << (number of fanins) bits wide |
| WriterLut.ConstantDriver | include/operations/io/detail/writer_lut.hpp:192-197 | an output on a constant is assigned the bit literal 1'b<index>, which is the constant's value in a k-LUT network |
| WriterLut.ResolvesReadable | include/operations/io/detail/writer_lut.hpp:131-136 | with enough input names, a fanin is named exactly when it is an input or an earlier gate |
| WriterLut.WrittenFails | include/operations/io/detail/writer_lut.hpp:77-215 | writing fails exactly when there are fewer input names than inputs, a gate reads a constant or a later gate, or there are fewer output names than outputs |
| WriterLut.WrittenShape | include/operations/io/detail/writer_lut.hpp:144-212 | the header lists the inputs then the outputs, a wire is declared for every gate and nothing else, one instance per gate, and every output is assigned under its own name |
| WriterLut.WrittenDriver | include/operations/io/detail/writer_lut.hpp:191-212 | an output is driven by its constant's literal, its input's name or its gate's wire |
| WriterLut.WrittenLut | include/operations/io/detail/writer_lut.hpp:117-189 | the k-th instance belongs to the k-th gate: named name<k>, driving _w<x>_, reading its fanins' nets and computing what x computes on its possibly complemented fanins |
| WriterLut.NamePis | include/operations/io/detail/writer_lut.hpp:79-94 | vec_pis holds the default input names or the declared port names |
| WriterLut.NamePos | include/operations/io/detail/writer_lut.hpp:100-115 | vec_pos holds the default output names or the declared port names |
| WriterLut.MapPis | include/operations/io/detail/writer_lut.hpp:95-98 | pi_map maps input i's node to vec_pis[i]; reading past the end of vec_pis stops writing |
| WriterLut.MakeLut | include/operations/io/detail/writer_lut.hpp:123-141 | one instance folds each complemented fanin into the function and names each fanin, in fanin order |
| WriterLut.BuildLuts | include/operations/io/detail/writer_lut.hpp:117-142 | every gate in index order joins the wires and then yields its instance |
| WriterLut.LutsErrStays | include/operations/io/detail/writer_lut.hpp:119-142 | once writing the instances has stopped, more nodes do not resume it |
| WriterLut.AssignOutputs | include/operations/io/detail/writer_lut.hpp:191-212 | the output assignments in output order; reading past the end of vec_pos stops writing |
| WriterLut.WriteLut | include/operations/io/detail/writer_lut.hpp:77-215 | write_lut produces the Written netlist of the network, or why it cannot be written |

## Left out

- Process execution, timeouts and process-tree killing: `Subprocess.run`, `run_subprocess`, the `chdir` decorator, file copies and logger setup. These are operating-system I/O. Exit codes and log text are inputs to the models.
- The worker pool of the regression runner and the OpenMP mapped-graph checker. Their point is concurrency.
- Python's regular-expression engine. Each extractor is given the first match, or all matches, of its pattern as input. Python's Unicode `\w` class is not modelled.
- Floating point:
  - the score ratios and bucket averages of `mapper_test.py`, apart from the integer bucket sums and the division guard;
  - `.2f` formatting, the printed table headers and the sort of the result rows;
  - the `klut_mapping` mapper and the float flow helpers of `cut_enumeration.hpp`.
  - The pass rate is kept as the pair (passed cases, all cases).
- Capacity growth by the 3.1415 factor in `create_and` and `hash_insert`. Vector capacity has no effect on the model. The bucket count after a rehash is only "some larger count".
- The SAT prover of `choice_computation.hpp`, random simulation (`perform_random_simulation`, `prepare`, `resimulate`) and the loop that refines classes by simulation. They depend on a solver and a random generator. The simulation words are inputs.
- `substitute_nodes` and the event callbacks. They dispatch through handlers outside this model.
- Node and port names set through `set_name`/`set_output_name`, and the symbol table that `write_aiger` writes. The model carries no names.
- The text that the lorina-based writers produce. `write_verilog` is modelled as the names it assigns to ports, wires and outputs, without its gate expressions (and, or, xor, maj). `write_lut` is modelled as a netlist record of LUTs, wires and port assignments rather than a character stream. Hexadecimal printing of INIT values is not modelled; INIT is kept as a number.
- `cleanup_dangling` after AND balancing, whose code is not part of this model.
- The critical-path marks of the depth view (`set_critical_path`, `is_on_critical_path`).
- `sop_kernels_rec`, `sop_best_kernel_rec` and `sop_good_divisor` (kernel search driven by a cost heuristic), and the `sop_factoring` class (kitty truth tables).
- `choice_to_klut` is not modelled separately. It drives the same conversion members as `network_to_klut`.
- NetworkToKlut.Run: visits nodes in index order, not in the depth-first order of `topo_view`. Cells unreachable from an output are therefore still converted.
- NetworkToKlut.Klut.CreateNode: every create appends a node. The k-LUT network's structural hashing (`klut_network.hpp`) is not part of this model.
- AigNetwork.Aig.CreateAnd: the new node's index is not shown to stay below 2^63, the limit of the signal word.
- AigNetwork.Aig.IncrFanout, AigNetwork.Aig.CreatePo, AigNetwork.Aig.CreateAnd, AigNetwork.Aig.CreateAndTwice, AigNetwork.Aig.AddAndGate and AigNetwork.Aig.IncrFanouts require the fanout counts they raise to be below 0x7FFFFFFF. The source's `h1++` would carry into the dead bit past that count; that overflow is not modelled.
- MapperTest.Summarize: the overall area, level and score2 averages (mapper_test.py:320-323) are not computed; only their division by the number of rows, which fails on no rows, is modelled.
- MapperTest.Step: the map-time and memory readings are given as numbers. The ValueError that `float()` raises on text that is not a number is not modelled.
- CutEnumeration.NetworkCuts.Run: requires that the constant's and the inputs' cut lists are empty whenever the 8-bit `_uCount_iter` wraps round to 1. The source would push a second zero cut or unit cut onto those lists on the 257th run; that run on lists left from earlier runs is not modelled.
- SopRefactoring.SopCountLit: the 32-bit literal counters of the SOP helpers are unbounded integers here.
- ChoiceComputation.AbcPrimeCudd: the `(int)` cast and the overflow of `i * i` for very large arguments are not modelled.
- AigWithChoice.ChoiceAig.SetChoice: requires that `n` has no equivalence link yet, and that an input `n` is not already in `r`'s list. The source only asserts these after linking.
- RefDeref.Deref: the per-node `value` counters and traversal marks live in arrays separate from the node records, not inside `data[0]`/`data[1]`.
- AndBalance.Balancer.BalancePermute: the contract allows either an unchanged list or the one swap with the rightmost signal that shares a gate with the last signal. It does not pin down which of the two outcomes occurs.

## Findings

| source | as written | input that shows it | evidently intended | confidence | as-written member | corrected member |
|---|---|---|---|---|---|---|
| include/database/cut/cut.hpp:287-296 | `merge` only rejects early by length and signature popcount, then writes the whole `set_union` into the leaf array | cuts {1,2,3,4} and {65,66,67,68} with cut_size 4: the signatures collide, the check passes and eight leaves are written into seven slots | reject every union larger than the leaf array before writing it | not executed | Cuts.MergeOverflowExample | Cuts.Cut.Merge |
| include/database/cut/cut_set.hpp:209-219 | `remove` shifts the pointers left but never stores the removed pointer at the end | removing position 1 of a full set of four cuts | the removed slot returns to the free end of the pointer array | not executed | CutSets.RemoveAsWrittenLosesSlot | CutSets.CutSet.Remove |
| include/database/cut/cut_enumeration.hpp:43 | the default `cut_limit` is 25, but the enumerator asserts `cut_limit < max_cut_num` (12) | default parameters | a default below 12 | not executed | CutEnumeration.DefaultLimitLeavesNoRoom | CutEnumeration.MergeInto |
| include/operations/algorithms/ref_deref.hpp:68-86 | `ref_node_recursive_contained` starts its value at 0 and only adds recursive results | any node | count the node's own cost like `deref` does | not executed | RefDeref.ContainedAsWrittenIsZero | RefDeref.RefNodeRecursiveContained |
| include/operations/algorithms/choice_miter.hpp:97-100 | the input loop counts networks with a `uint8_t` | 256 networks to merge | a counter as wide as the network count | not executed | ChoiceMiter.ByteCounterNeverExits | ChoiceMiter.Miter.CopyPis |
| include/operations/algorithms/choice_miter.hpp:215-239 | the DFS stops at inputs but not at the constant node | an output driven by constant 0 in a network with no primary inputs | stop at the constant node as at inputs | not executed | ChoiceMiter.DfsLoopsOnConstant | ChoiceMiter.Miter.DfsRecursionPo |
| regression/main_test/scripts/case.py:150-168 | checks 2 and 3 search only the text after the last `merged.v` / `choice.v` of the whole log, and that text is the logged command line | a cec run that prints `Networks are NOT EQUIVALENT` for the merged network | search the output of that check's own cec run | not executed | RegressionCase.CheckTwoNeverFires | RegressionCase.IfpgaVerify |
| regression/mapper_test/mapper_test.py:191-208 | on a missing `max delay` line the failure value `('0', '0')` is a tuple, and `run_ifpga` adds it to a list, which raises TypeError | an ifpga report without a `max delay` line | skip the case | not executed | MapperTest.MissingDelayStopsScript | MapperTest.RunIfpga |
| regression/mapper_test/mapper_test.py:294-295 | the map-time average divides by `len(valid_small_cases)`, the number of positive map-time scores, which is 0 when none is positive | a non-empty bucket whose map-time scores are all zero | leave the average at 0, as for an empty bucket | not executed | MapperTest.ZeroMapTimesRaise | MapperTest.BucketAverages |
| include/utils/range.hpp:65-79 | `max_element_unary` stores the boolean comparison instead of the image in `max` | [5, 3] with the identity image and init 0 returns index 1 | keep the largest image seen so far | not executed | Range.MaxElementAsWrittenCounterexample | Range.MaxElementUnaryFixed |
