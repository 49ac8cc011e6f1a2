# Verified model of the eager and dynamic-shape bridge

The bridge compiles single PyTorch calls and whole traced graphs for an accelerator. This project
models, in Dafny, the parts of it whose correctness is an argument and not a lookup, and proves them.

* **Eager calls.** A call on tensors that may be strided views of larger buffers becomes a one-op graph
  over the base buffers: `as_strided` on reads, `strided_insert` on writes, the in-place op replaced by its
  out-of-place twin, duplicate inputs merged, and the result cached under a key and patched on a hit.
  Tensors are `(storage, sizes, strides, offset)`, graphs are SSA node lists with a denotation over
  arbitrary operator kernels, and the theorems are about what the graph computes and what memory it leaves.
* **Dynamic shapes.** Each op encodes its parameters once, with the stack index of every symbolic entry;
  later launches patch only those. The theorems say that any launch, after any others, puts on the launch
  list what recording again would put there on the paths first chosen, that the list can be laid out in one chunk, and that the
  kernels take the payloads apart again: strided kernels address the launch's own elements, slices select
  Python's indices, repeats and ranges are those of the launch.
* **The pipeline.** Three single-worker FIFO threads, tasks that skip stages, and an inline mode, as a step
  relation under arbitrary interleaving and with the flag read anew by every task.
* **Layout and index arithmetic.** Weight relayout, stride computation, memory checks, slices and pads.
* **Collectives and the tensor pool.** The chunk loop and the double-buffered pool with its refill thread.

## How it is organised

| part | modules, in order of dependence |
|---|---|
| strided views and layout | `IndexSpace`, `StridedViews`, `MemoryCheck`, `TensorLayout`, `WeightRelayout` |
| eager graphs | `JitGraph`, `ViewLowering`, `EagerGraph`, `LoweringMeaning`, `OpReplacement`, `StorageUpdate`, `EagerPass` |
| eager launches | `DuplicateInputs`, `CachePatch`, `OperatorKey`, `KeyEquality`, `KeyWords`, `ListNodes`, `CacheHits`, `PrunedHits`, `EagerLaunch`, `LaunchMeaning`, `MergedReads`, `CopyInsert` |
| dynamic shapes | `DynamicParams`, `DynamicLaunch`, `DynamicGraph`, `HostMemory`, `StrideLowering`, `KernelPayloads` |
| pipeline | `Pipeline` (step relation), `PipelineThreads` (the threads as an object) |
| arithmetic | `SliceInsert`, `DynamicPad`, `Collectives`, `TensorPool` |

Where the source changes things step by step (the passes, the launcher, the launch list, the relayout, the
host chunk, the pool) the model is a class or a method with a loop, proved equal to a function of its
inputs; the laws are then lemmas about that function.

The main results are `LoweringMeaning.ViewLoweringPreservesMeaning`, `LaunchMeaning.LaunchLeavesEagerMemory`,
`OpReplacement.OperatorDecided`, `KeyEquality.KeysEqualIff`,
`PrunedHits.CachedHitIsFreshIff`, `EagerLaunch.Launcher.Launch`, `DynamicGraph.DynamicLauncher.Launch`,
`StorageUpdate.LoweredMemoryIsEagerIff`, `MergedReads.PruningHarmlessIff`, `HostMemory.PatchDynamicTensors` with `HostMemory.PatchedReads`,
`StrideLowering.LowerBothWays`, `KernelPayloads.SliceLaunched`, `Pipeline.TracesArePrefixes` and `WeightRelayout.RelayoutKeepsTensor`.

## What the code does not do

These came out of the proofs. Each is stated as an equivalence or with a concrete input.

* A cache hit is a fresh build if and only if the stacks have as many arguments, no argument changes between
  a constant, an input and a list, no constant changes its type where constants are not patched, and lists
  keep their lengths (`CacheHits.HitIsFreshIff`; `PrunedHits.CachedHitIsFreshIff` for the pruned graph the cache holds). The key leaves these out: `None` and `[]` share a key, list
  boundaries vanish, overloads of one symbol may share a key (a list and a single tensor), and, with the
  recipe cache off, an absent and a present optional scalar may swap.
* `verifyViewMemoryAccess` multiplies the base sizes in an `int`; it is exact for every view if and only if
  the base has fewer than 2^31 elements (`MemoryCheck.CheckExactIffCountFitsInt`).
* A negative constant in a repeat, stride or offset would be read as a stack index when it is patched
  (`DynamicParams.RepeatPatchFailsIff`, `DynamicParams.StridesPatchFailsIff`, `DynamicParams.RandpermPatchFailsIff`);
  negative repeats and strides are refused before they are recorded.
* The ratio path divides the view's strides by the base's and so fails exactly where the ranks agree, no stride is
  below the base's and some base stride is zero (`DynamicLaunch.StrideRatios`); the minimum and maximum passes
  rebuild the recorded strides exactly where they are multiples of the base's (`DynamicLaunch.RebuiltIff`).
* A rank-0 `as_strided` records one stride and decodes to `[0]` (`DynamicGraph.StridesDecode`).
* The chunk is freed exactly once if and only if the first host tensor of the list has a non-empty payload
  (`HostMemory.FreedOnceIff`); an empty first payload shares its address with the next one
  (`HostMemory.EmptyPayloadFreesTwice`).
* Dynamic pad agrees with static pad if and only if every dimension's two pads have a sum that fits 32 bits
  (`DynamicPad.DynamicPadIsStaticIff`).
* A written view rebuilds its whole base from the old contents. The call leaves the eager memory, for all
  results, if and only if every position written before a view of the same storage is written again by that
  view or later (`StorageUpdate.SameMemoryIff`; `StorageUpdate.LoweredMemoryIsEagerIff` for the graph and all
  kernels that obey the laws). An in-place op on a list of the two halves of one buffer loses a write
  (`StorageUpdate.SharedStorageLosesAWrite`).
* A duplicate input is merged into its parent by address, sizes and strides alone. The two hold the same
  buffer exactly when both are lowered as views, neither is, or the window is the whole base
  (`LaunchMeaning.SameBufferIff`); otherwise one is given the other's buffer. For a call that only reads, this
  is harmless under all kernels if and only if every merged input shows the same from its parent's buffer
  (`MergedReads.PruningHarmlessIff`), which a lowered alias of a plain parent does exactly when the parent
  read through the window once more is itself (`MergedReads.AliasUnseenIff`), for a contiguous one at offset
  zero only (`MergedReads.ContiguousSelfContainedIff`). At offset one it is read from a buffer that is too
  small (`LaunchMeaning.NarrowParentMisread`).
* With a slice buffer smaller than one element the collective loop does not end
  (`Collectives.LoopEndsIff`); with a pool size of zero the first `get_tensor` pops an empty deque
  (`TensorPool.EmptyPoolPopsNothing`).
* A fixed slice that is empty at the end of a non-empty dimension is refused by the slice validator
  (`SliceInsert.FixedSliceValidates`).

## Model

| member | source | states |
|---|---|---|
| StridedViews.InsertThenViewIffInjective | habana_eager/eager_view.cpp:200-243 | reading a strided_insert back gives the inserted data, for every buffer and data, if and only if the view's index map is injective |
| StridedViews.InsertThenView | habana_eager/eager_view.cpp:200-243 | put-get for an injective view |
| StridedViews.ViewThenInsert | habana_eager/eager_view.cpp:97-243 | inserting what was read changes nothing, injective or not |
| StridedViews.InsertTwice | habana_eager/eager_view.cpp:200-243 | the second of two inserts through one view wins at every position |
| StridedViews.InsertsCommute | habana_eager/eager_view.cpp:200-243 | inserts through views that share no position commute |
| StridedViews.InsertFrame | habana_eager/eager_view.cpp:200-243 | an insert leaves every position outside the view alone |
| StridedViews.InsertAt | habana_eager/eager_view.cpp:200-243 | after an insert a covered position holds the same whatever the buffer held before, any other keeps its element |
| StridedViews.FitsIffLastFits | habana_kernels/basic_kernels.cpp:1536-1558 | every multi-index of a view lands in the buffer iff the view is empty or its last element does |
| MemoryCheck.CountElements | habana_kernels/basic_kernels.cpp:972-994 | the base size as it is counted: products wrapped to a signed 32-bit number and widened |
| MemoryCheck.VerifyViewMemoryAccess | habana_kernels/basic_kernels.cpp:1536-1558 | returns true iff every multi-index of the view lands below the base's element count, when that is positive and below 2^31 |
| MemoryCheck.ExactBelowInt | habana_kernels/basic_kernels.cpp:972-994 | the same about the specification, empty views included |
| MemoryCheck.CheckExactIffCountFitsInt | habana_kernels/basic_kernels.cpp:972-994 | the check is exact for all views if and only if the base has fewer than 2^31 elements |
| MemoryCheck.MisledBeyondInt | habana_kernels/basic_kernels.cpp:972-994 | for every larger base some view is judged wrongly |
| MemoryCheck.CountWrapsToZero | habana_kernels/basic_kernels.cpp:972-994 | a concrete one: a 65536 x 65536 base accepts an access past its end |
| TensorLayout.CalculateStrides | backend/habana_operator.cpp:93-119 | the strides of either branch, for channels-last [h*w*c, 1, w*c, c] and its three-dimensional form; their multi-index-to-offset map is a bijection onto [0, numel) for any rank |
| TensorLayout.SuffixProducts | backend/habana_operator.cpp:93-119 | the backward loop over the permuted sizes leaves suffix products |
| TensorLayout.ShiftedProducts | backend/habana_operator.cpp:93-119 | the backward loop over the shifted sizes leaves the products of the later sizes |
| TensorLayout.ChannelsLastIsDense | backend/habana_operator.cpp:93-119 | channels-last strides enumerate the buffer exactly once |
| IndexSpace.ContiguousIsDense | backend/habana_operator.cpp:93-119 | row-major strides enumerate the buffer exactly once |
| WeightRelayout.PermuteDataToRSCK | habana_eager/graph_weight_permute.cpp:110-141 | the nested loops leave at counter ((r*S+s)*C+c)*K+k the weight element of that index, and nothing past the tensor changes |
| WeightRelayout.FillKernels2D | habana_eager/graph_weight_permute.cpp:125-134 | its channel and kernel loops |
| WeightRelayout.PermuteDataToQRSCK | habana_eager/graph_weight_permute.cpp:143-175 | the five-dimensional analogue |
| WeightRelayout.FillKernels3D | habana_eager/graph_weight_permute.cpp:158-168 | its channel and kernel loops |
| WeightRelayout.CopyBack | habana_eager/graph_weight_permute.cpp:139-140 | the copy over the tensor's own storage |
| WeightRelayout.RelayoutKeepsTensor | habana_eager/graph_weight_permute.cpp:110-175 | reading the result with the new strides gives the logical tensor there was before |
| WeightRelayout.RelayoutKeepsElements | habana_eager/graph_weight_permute.cpp:110-175 | for a dense weight the buffer holds the same multiset of elements |
| JitGraph.RedirectMeaning | habana_eager/eager_view.cpp:106-137 | inserting a block and moving the later uses of v to its result runs the old graph with v replaced from there on |
| JitGraph.RedirectInputMeaning | habana_eager/eager_view.cpp:132-137 | the same for a graph input nothing earlier reads |
| JitGraph.RedirectWellFormed | habana_eager/eager_view.cpp:132-137 | the edit keeps the SSA list well formed |
| JitGraph.MergeMeaning | habana_eager/eager_exec.cpp:870-889 | moving all uses of one input to another that holds the same value changes nothing |
| ViewLowering.AddViewMeaning | habana_eager/eager_view.cpp:97-137 | after insert_strided_view_node the graph sees the view where it saw the base |
| ViewLowering.AddInsertMeaning | habana_eager/eager_view.cpp:200-243 | after insert_strided_insert_node output k is the base with the view's positions replaced, the other outputs as before |
| ViewLowering.AddCastedInsertMeaning | habana_eager/eager_view.cpp:69-95 | with the cast node the stored value is the cast of output 0 |
| ViewLowering.ReadyStep | habana_eager/eager_view.cpp:292-381 | one tensor handled: the op's unhandled outputs are still graph outputs and every remaining input is still read only where its slot says |
| ViewLowering.LowerMeaning | habana_eager/eager_view.cpp:292-381 | all tensors handled: the graph runs the original on viewed inputs and stores result k through the k-th written tensor, by the cumulative numbering |
| EagerGraph.CreatedWellFormed | habana_eager/eager_exec.cpp:519-609 | create_eager_graph gives a well-formed list with the op node last |
| EagerGraph.SlotPlaced | habana_eager/eager_exec.cpp:519-609 | each tensor of the stack is read at one input of one node, and only there |
| EagerGraph.CreatedReady | habana_eager/eager_exec.cpp:519-609 | the fresh graph meets what the view pass relies on |
| EagerGraph.CreatedMeaning | habana_eager/eager_exec.cpp:519-609 | the fresh graph applies the op to its argument values |
| LoweringMeaning.LowerCounts | habana_eager/eager_view.cpp:329-366 | the counters hold the number of inserts and of ordinary in-place inputs |
| LoweringMeaning.ReplacedMeaning | habana_eager/eager_view.cpp:155-198 | replacing the op runs the old graph with the twin's kernel on the arguments without the outs |
| LoweringMeaning.OutViewCounted | habana_eager/eager_view.cpp:318-381 | a lowered out argument always counts as an insert, so the op is never left reading a base in its place |
| LoweringMeaning.WrittenAt | habana_eager/eager_view.cpp:318-327 | output k belongs to the k-th written tensor and is stored iff that is a view |
| LoweringMeaning.OpComputesEager | habana_eager/eager_view.cpp:648-665 | whichever way the replacement decision goes, the op or its twin computes the eager results, given what the kernels promise about this call |
| LoweringMeaning.PromotionObeysLaws | habana_eager/eager_view.cpp:32-60 | the promises hold of a dtype-promoting op whose result takes the dtype of the tensor it is written to |
| LoweringMeaning.FillingObeysLaws | habana_eager/eager_view.cpp:28-43 | and of an op that ignores the contents of its first tensor and returns a tensor of its sizes |
| LoweringMeaning.FillingListObeysLaws | habana_eager/eager_view.cpp:28-43 | and of one that does so for every tensor of a list |
| LoweringMeaning.LoweredRun | habana_eager/eager_view.cpp:545-666 | the outputs of the finished graph in terms of the op or of its twin |
| LoweringMeaning.ViewLoweringPreservesMeaning | habana_eager/eager_view.cpp:545-666 | for any mix of views, ordinary tensors, lists, outs and in-place inputs, output k on base buffers is the eager result k, placed in the old base where the k-th written tensor is a view |
| OpReplacement.OperatorDecided | habana_eager/eager_view.cpp:648-665 | the only operator of the lowered graph is the out-of-place twin when a view is written, no plain tensor is updated in place, the op reads its first argument and has at most one out; otherwise it is the op itself |
| OpReplacement.ReplacedIff | habana_eager/eager_view.cpp:327-366 | the two counters decide exactly that, said of the arguments |
| OpReplacement.PlainWrittenByOp | habana_eager/eager_view.cpp:328-337 | where a plain tensor is written, in place or as an out, the op itself stays in the graph |
| OpReplacement.WrittenAsEager | habana_eager/eager_view.cpp:316-326 | the tensors that get an output are those of the in-place arguments and the outs, in argument order |
| OpReplacement.ViewsDecided | habana_eager/eager_view.cpp:342-350 | the lowered graph has one as_strided for every lowered tensor but a lone out, for metadata only exactly where the op ignores the elements |
| StorageUpdate.LoweredPlainUpdated | hpu_ops/backend/op_backend.cpp:251-310 | a plain tensor shares its memory with the output of the op itself, and the pass never leaves one to the twin |
| StorageUpdate.SameMemory | habana_eager/eager_view.cpp:363-381 | outputs as the lowering theorem states them, bound in order, leave the eager memory when no write is lost |
| StorageUpdate.SameMemoryIff | habana_eager/eager_view.cpp:363-381 | lowered and eager execution leave the same memory for all results if and only if every position written before a view of the same storage is written again by that view or later |
| StorageUpdate.LostWrite | habana_eager/eager_view.cpp:363-381 | where a position is not written again, results that differ from its old element leave another memory |
| StorageUpdate.CallLosesAWrite | habana_eager/eager_view.cpp:545-666 | for every call with such a position there are kernels that obey the laws under which the lowered graph leaves another memory |
| StorageUpdate.UpdatesRelate | habana_eager/eager_view.cpp:363-381 | position by position, after any number of writes: eager execution keeps what nothing covers, lowered execution has forgotten what was written before the last view |
| StorageUpdate.LoweredMemoryIsEager | habana_eager/eager_view.cpp:545-666 | the lowered graph, in which a plain tensor is written only if the op itself runs, leaves every storage as the eager op does, when every position written before a view of the same storage is written again by it or later |
| StorageUpdate.LoweredMemoryIsEagerIff | habana_eager/eager_view.cpp:545-666 | for a call on given memory: the lowered graph leaves the eager memory under all kernels that obey the laws if and only if every position written before a view of the same storage is written again by it or later |
| StorageUpdate.SharedStorageLosesAWrite | habana_eager/eager_view.cpp:363-381 | such a call: an in-place foreach op on a list of the two halves of one buffer |
| EagerPass.Pass.CreateEagerGraph | habana_eager/eager_exec.cpp:519-609 | the object holds the fresh graph and the metadata parameters |
| EagerPass.Pass.ReplaceUsesFrom | habana_eager/eager_view.cpp:132-137 | node by node, then the graph outputs: exactly the later uses are renamed |
| EagerPass.Pass.InsertStridedView | habana_eager/eager_view.cpp:97-137 | three constants and the as_strided before the reader, and three map entries |
| EagerPass.Pass.InsertStridedInsert | habana_eager/eager_view.cpp:200-243 | two constants and the strided_insert at the end, two map entries, and the cast for promoting ops |
| EagerPass.Pass.HandleTensor | habana_eager/eager_view.cpp:292-381 | one tensor in place, ready for the rest of the argument list |
| EagerPass.Pass.HandleList | habana_eager/eager_view.cpp:613-641 | the inner loop over a tensor list |
| EagerPass.Pass.ReplaceWithOutOfPlaceOp | habana_eager/eager_view.cpp:155-198 | the op node becomes the twin without the trailing outs, in place |
| EagerPass.Pass.LowerArguments | habana_eager/eager_view.cpp:584-642 | the loop over all arguments |
| EagerPass.Pass.HandleInputOutputViews | habana_eager/eager_view.cpp:545-666 | the whole pass, with the replacement decision, equals the specified graph and parameter map |
| DuplicateInputs.HasAllStorages | habana_eager/eager_exec.cpp:788-798 | the early exit: some tensor has no storage |
| DuplicateInputs.FindDuplicateInStack | habana_eager/eager_exec.cpp:780-843 | the parent of a tensor is the first earlier one with its address, and only if sizes and strides match |
| DuplicateInputs.ParentsAreUnique | habana_eager/eager_exec.cpp:780-843 | a parent is smaller and has itself no parent |
| DuplicateInputs.SameAddressSameView | habana_eager/eager_exec.cpp:822-829 | with disjoint storages, equal address, sizes and strides mean the same window of the same storage |
| DuplicateInputs.EraseDuplicates | habana_eager/eager_exec.cpp:854-863 | erasing back to front leaves exactly the survivors in order |
| DuplicateInputs.PruneDuplicateGraphInputs | habana_eager/eager_exec.cpp:865-910 | uses merged front to back, inputs erased back to front |
| DuplicateInputs.MergeKeepsMeaning | habana_eager/eager_exec.cpp:870-889 | the merged graph computes the same |
| DuplicateInputs.PruningPreservesMeaning | habana_eager/eager_exec.cpp:854-910 | the pruned graph on the pruned stack computes what the original computes on the original stack |
| CachePatch.ProcessNodeParams | habana_eager/eager_exec.cpp:254-309 | the new constants; it asserts exactly when some recorded entry has no argument of its kind |
| CachePatch.CreatedPatched | habana_eager/eager_exec.cpp:519-609 | a fresh graph patched for another stack of its shape is that stack's fresh graph |
| CachePatch.LowerPatched | habana_eager/eager_view.cpp:342-374 | patching commutes with the whole view pass: every varying constant is in the map |
| CachePatch.LowerParamsFit | habana_eager/eager_view.cpp:342-374 | every entry the pass records names an argument of its kind in any stack of the shape |
| CachePatch.PatchMerge | habana_eager/eager_exec.cpp:865-910 | patching commutes with input pruning |
| CachePatch.PatchedIsFresh | habana_eager/eager_exec.cpp:354-439 | a graph built from one stack and patched for another of its shape is the other's own graph, node for node, with the same map |
| CachePatch.PatchedPrunedIsFresh | habana_eager/eager_exec.cpp:354-439 | the same for the pruned graph that is cached |
| OperatorKey.SectionsCanonical | habana_eager/eager_exec.cpp:666-707 | two inputs share a section id iff they share a non-null base address, and ids are dense in order of first occurrence |
| OperatorKey.CanonicalUnique | habana_eager/eager_exec.cpp:666-707 | there is only one such numbering |
| OperatorKey.SectionsIgnoreAddresses | habana_eager/eager_exec.cpp:626-627 | an injective renaming of non-null addresses leaves the ids unchanged |
| OperatorKey.SectionsFixSharing | habana_eager/eager_exec.cpp:666-707 | conversely, equal ids mean the same sharing |
| OperatorKey.FindSection | habana_eager/eager_exec.cpp:674-704 | the linear scan and push_back for one tensor |
| OperatorKey.CalculateOperatorKey | habana_eager/eager_exec.cpp:611-778 | one pass over the stack computes the structured key; constants and scalars of agnostic ops are skipped only while the recipe cache is off |
| KeyEquality.KeysEqualIff | habana_eager/eager_exec.cpp:611-778 | two calls have one key exactly when op, number of outputs, deterministic flag and duplicates agree, their stacks leave the same words (windows with the recipe cache on, ranks otherwise), and their tensors share storages, and have none, in the same places |
| KeyEquality.EntryIff | habana_eager/eager_exec.cpp:629-778 | an entry has exactly these words and its section id |
| KeyEquality.KeyIgnoresAddresses | habana_eager/eager_exec.cpp:626-707 | moving the storages to other addresses leaves the key unchanged |
| OperatorKey.AtomsInjective | habana_eager/eager_exec.cpp:636-654 | among values of one type the hashed words determine the value |
| OperatorKey.EntriesFixShape | habana_eager/eager_exec.cpp:721-778 | stacks with one key and the same argument kinds agree in every view decision and every unpatched constant, with the recipe cache on or off |
| KeyWords.StreamIff | habana_eager/eager_exec.cpp:611-778 | as a flat stream of words: entries of the same frames leave the same words if and only if they are equal |
| KeyWords.EntriesWellSized | habana_eager/eager_exec.cpp:721-764 | a tensor's window is in its entry exactly with the recipe cache on and a lowered or non-contiguous tensor, and well-formed tensors have as many strides as sizes there |
| KeyWords.KeyFromWords | habana_eager/eager_exec.cpp:611-778 | so for stacks whose entries have the same frames the words agree exactly when the keys do |
| KeyWords.StreamsCollide | habana_eager/eager_exec.cpp:636-654 | with other lengths an index word may be taken for an element: [1, 7] then [], and [] then [7, 1] |
| CacheHits.HitIsFreshIff | habana_eager/eager_exec.cpp:354-439 | of any two stacks with one key, the patched cached graph is the fresh graph if and only if the argument kinds agree |
| CacheHits.KindsShow | habana_eager/eager_exec.cpp:611-709 | a difference in kind under one key shows in the graphs: a number that is an input of one only, another constant or another list node |
| ListNodes.BuiltLists | habana_eager/eager_exec.cpp:564-583 | the list nodes of a built graph, with their lengths, are those of its arguments |
| ListNodes.ListShows | habana_eager/eager_exec.cpp:564-583 | a list against a list of another length, another argument or none gives another list node |
| CacheHits.DifferentGraphs | habana_eager/eager_exec.cpp:254-309 | and patching cannot repair it |
| CacheHits.NoneSharesKeyWithEmptyList | habana_eager/eager_exec.cpp:636-654 | None and [] leave the same key |
| CacheHits.AbsentScalarSharesKey | habana_eager/eager_exec.cpp:629-665 | with the recipe cache off, an absent and a present optional scalar of an agnostic op may swap places |
| CacheHits.ListsShareKey | habana_eager/eager_exec.cpp:633-635 | lists are flattened without their boundaries |
| CacheHits.OverloadsShareKey | habana_eager/eager_exec.cpp:611-634 | overloads share the symbol: a list and a single tensor in one place leave the same key |
| PrunedHits.CachedHitIsFreshIff | habana_eager/eager_exec.cpp:354-439 | the same of the pruned graphs the cache holds: of two stacks with one key the patched one is the other's own if and only if the argument kinds agree |
| PrunedHits.DifferentCachedGraphs | habana_eager/eager_exec.cpp:865-910 | merging and erasing duplicates hides no such difference |
| PrunedHits.ScalarSurvives | habana_eager/eager_exec.cpp:854-863 | a number that is an input of one graph only is still one after duplicates are erased |
| EagerLaunch.PrepareInputStack | habana_eager/eager_exec.cpp:912-926 | scalars and tensors in order, lists flattened, metadata dropped |
| EagerLaunch.ItemsAlignWithInputs | habana_eager/eager_exec.cpp:912-926 | the stack and the graph inputs have the same length |
| LaunchMeaning.StackIsBuffers | habana_eager/eager_exec.cpp:912-926 | the prepared stack hands the device, at the place of each graph input, the number or the tensor's buffer the call has there |
| EagerLaunch.NoStorageNoDuplicates | habana_eager/eager_exec.cpp:788-798 | if one tensor of the call has no storage, nothing is a duplicate |
| EagerLaunch.Launcher.constructor | habana_eager/eager_exec.cpp:332-439 | an empty cache meets the cache invariant |
| EagerLaunch.Launcher.Launch | habana_eager/eager_exec.cpp:332-439 | over any sequence of launches every cached graph is the fresh graph of the stack it came from; a hit runs the graph a miss would build if and only if the kinds agree, a miss stores only its own key |
| EagerLaunch.Launcher.Build | habana_eager/eager_exec.cpp:393-432 | the miss path: create, lower, prune |
| EagerLaunch.Launcher.Serve | habana_eager/eager_exec.cpp:354-439 | hit or miss by key, with the new cache in either case |
| EagerLaunch.Launcher.PatchCached | habana_eager/eager_exec.cpp:358-391 | the hit path, when it asserts, and that it runs the fresh graph if and only if the kinds agree |
| EagerLaunch.Launcher.HitRunsFreshIff | habana_eager/eager_exec.cpp:354-391 | process_node_params does not assert and gives the pruned graph a miss would build if and only if the kinds agree |
| EagerLaunch.ScalarsUnmerged | habana_eager/eager_exec.cpp:800-843 | a number on the stack is never a duplicate |
| LaunchMeaning.DuplicateHoldsSame | habana_eager/eager_exec.cpp:817-830 | a duplicate's buffer is its parent's, where the two agree on being lowered or the window is the whole base |
| LaunchMeaning.SameBufferIff | habana_eager/eager_exec.cpp:817-830 | two names for one window hold the same buffer exactly when they agree on being lowered or the window is the whole base |
| LaunchMeaning.NarrowParentMisread | habana_eager/eager_exec.cpp:817-830 | otherwise: a lowered alias at offset 1, merged into a plain one-element tensor, is read out of range |
| LaunchMeaning.PrunedRun | habana_eager/eager_exec.cpp:332-439 | the launched graph, its inputs bound to the entries of the launched stack, computes what the lowered graph computes on all base buffers |
| LaunchMeaning.LaunchLeavesEagerMemory | habana_eager/eager_exec.cpp:332-439 | end to end: a launched graph on the launched stack leaves every storage as the eager op would |
| LaunchMeaning.LaunchAndRun | habana_eager/eager_exec.cpp:332-439 | the same of the launcher after any launches: on a miss, and on a hit from a stack of the same kinds |
| MergedReads.PrunedRunsMerged | habana_eager/eager_exec.cpp:854-910 | the pruned graph computes what the lowered graph computes when every duplicate is given its parent's buffer |
| MergedReads.SameRunsIff | habana_eager/eager_view.cpp:545-666 | no kernels tell two sets of buffers apart if and only if they give the op the same arguments |
| MergedReads.PruningHarmlessIff | habana_eager/eager_exec.cpp:865-910 | for a call that only reads: pruned and lowered graph compute the same under all kernels if and only if every merged input shows the same from its parent's buffer |
| MergedReads.AliasUnseenIff | habana_eager/eager_exec.cpp:817-830 | two names of one window show the same from the first one's buffer exactly when both or neither are lowered, a lowered parent is its whole base, or a plain parent read through the window is itself |
| MergedReads.ContiguousSelfContainedIff | habana_eager/eager_exec.cpp:817-830 | a contiguous non-empty tensor is that exactly at offset zero |
| CopyInsert.HandleOutputInsert | habana_eager/eager_view.cpp:459-543 | the copy pass in place; a null node would need a source view and a destination that is none, which the caller's choice excludes |
| CopyInsert.FindOperator | habana_eager/eager_view.cpp:474-491 | finds the only node that is neither a constant nor a list, and refuses two |
| CopyInsert.CopyMeaning | habana_eager/eager_view.cpp:245-283 | the rewritten copy returns the old base with exactly the destination's positions replaced by the source's elements |
| CopyInsert.CopyLeavesEagerMemory | habana_eager/eager_view.cpp:459-543 | memory as after the eager copy; reading back gives the source, nothing outside moves, shared storage included |
| CopyInsert.CopyPatched | habana_eager/eager_view.cpp:507-540 | the copy graph patched for another pair with the same view decisions is that pair's graph |
| CopyInsert.CopyHitIsFresh | habana_eager/eager_exec.cpp:611-778 | equal keys of two copies mean equal view decisions and the same form of copy, so the hit is fresh |
| DynamicParams.GetValueAndScalarIndexFromInput | habana_eager/graph_dynamic_ops.cpp:28-67 | the recorded value and index find the operand's value in every later stack, except a negative constant that stands where an index should |
| DynamicParams.GetValuesAndScalarIndexes | habana_eager/graph_dynamic_ops.cpp:198-219 | the same for a list, in order |
| DynamicParams.SetH2DTensorHostData | habana_eager/graph_dynamic_ops.h:104-130 | recorded words, element type and registered length, optionally reversed |
| DynamicParams.GetH2DTensorHostData | habana_eager/graph_dynamic.cpp:49-64 | the recorded words read back through an element type |
| DynamicParams.RecordRepeat | habana_eager/graph_dynamic_ops.cpp:377-426 | the reversed repeat payload with its stack indices |
| DynamicParams.RecordRandperm | habana_eager/strided_dynamic_ops.cpp:1417-1470 | [start, end, step] with the index of end |
| DynamicParams.RecordPad | habana_eager/strided_dynamic_ops.cpp:432-470 | before- and after-pads spread over ten slots, zero-filled, reversed twice |
| DynamicParams.RecordStrides | habana_eager/strided_dynamic_ops.cpp:1239-1268 | [n, offset, reversed strides, zeros] with the indices in the same order |
| DynamicParams.UpdateDynamicInputs | habana_eager/strided_dynamic_ops.cpp:1384-1415 | one patch loop: symbolic entries from the stack, constants from the recorded data, reversed where the record was |
| DynamicParams.CastThroughWord | habana_eager/graph_dynamic.cpp:49-64 | storing an element in a 64-bit word and reading it back never changes it modulo its width |
| DynamicParams.PatchIsRecord | habana_eager/graph_dynamic_ops.cpp:428-461 | for repeat, pad, randperm and all stride payloads: the patch equals the payload a fresh record of that stack stores, and fails exactly when a constant is negative and the op reads its mark as an index (repeat, randperm, strides) |
| DynamicParams.RepeatPatchFailsIff | habana_eager/graph_dynamic_ops.cpp:428-461 | a repeat has no patch exactly when one of its counts is a negative constant |
| DynamicParams.RandpermPatchFailsIff | habana_eager/strided_dynamic_ops.cpp:1384-1415 | a randperm exactly when its end is one |
| DynamicParams.StridesPatchFailsIff | habana_eager/strided_dynamic_ops.cpp:1336-1382 | a stride op exactly when a stride or the offset is one |
| DynamicParams.PadAlwaysPatches | habana_eager/strided_dynamic_ops.cpp:543-598 | a pad always has a patch |
| DynamicParams.NegativeConstantHasNoPatch | habana_eager/graph_dynamic_ops.cpp:428-461 | the failing case: a repeat of the constant -1 has no patch |
| DynamicLaunch.UpdateShapeTensorSize | habana_eager/graph_dynamic_ops.cpp:257-285 | the new sizes of a shape tensor; the first entry without a value empties it if negative and fails otherwise |
| DynamicLaunch.PatchShape | habana_eager/graph_dynamic_ops.cpp:257-285 | patched from whatever launch came last, the sizes are those recorded with this stack |
| DynamicLaunch.PatchRecordedPairs | habana_eager/strided_dynamic_ops.cpp:364-392 | (index, value) pairs recorded with one stack give the values of another |
| DynamicLaunch.IsStridedRatioUndefined | habana_eager/strided_dynamic_ops.cpp:601-614 | ranks differ or some new stride is below the base's |
| DynamicLaunch.StrideRatios | habana_eager/strided_dynamic_ops.cpp:1297-1303 | the ratios of the ratio path, or the division by a zero base stride |
| DynamicLaunch.RatioDefinedIff | habana_eager/strided_dynamic_ops.cpp:601-614 | over positive base strides the ratio path is taken exactly when every ratio is at least one |
| DynamicLaunch.RebuiltIff | habana_kernels/basic_kernels.cpp:1126-1157 | base strides times ratios are the view's strides exactly where those are multiples |
| DynamicLaunch.ComputeOutputShape | habana_kernels/index_kernels.cpp:1806-1848 | start and end clamped in place and the sliced size rounded up |
| DynamicGraph.RecordOp | habana_eager/strided_dynamic_ops.cpp:1175-1334 | what each op registers on the dynamic stack |
| DynamicGraph.PatchOp | habana_eager/strided_dynamic_ops.cpp:1336-1382 | the launch entries of an op, whatever launches came before, are those of recording with this stack |
| DynamicGraph.PatchArange | habana_eager/strided_dynamic_ops.cpp:364-415 | three bounds re-read as 32-bit words, with the size tensor behind them |
| DynamicGraph.PatchSlice | habana_eager/graph_dynamic_ops.cpp:779-848 | output sizes first, then the payload with the clamped start and the step |
| DynamicGraph.PatchStrides | habana_eager/strided_dynamic_ops.cpp:913-938 | payload, then the offset on the ratio path, then the sizes of an as_strided |
| DynamicGraph.PatchShapes | habana_eager/graph_dynamic_ops.cpp:358-375 | every shape tensor of an op in order |
| DynamicGraph.DynamicLauncher.constructor | habana_eager/graph_exec.cpp:310-322 | the first launch records every op |
| DynamicGraph.DynamicLauncher.Launch | habana_eager/passes/replace_dynamic_ops.cpp:341-396 | after any launches, the launch list is the one the record steps would give for this stack on the paths chosen at the first launch, and the next launch finds the ops as if recorded now |
| DynamicGraph.LaunchListPlaceable | habana_eager/graph_exec.cpp:101-124 | in every launch list a stride-carrying shape tensor directly follows a host tensor that holds strides and every payload has its registered length, so the assertion never fires |
| DynamicGraph.StrideOpInList | habana_eager/graph_exec.cpp:101-124 | in every launch list a stride op's own payload is at the op's position and, with ratios, its own offset right behind it |
| DynamicGraph.SegmentInList | habana_eager/passes/replace_dynamic_ops.cpp:363-387 | every op's entries are one contiguous piece of the list, in registration order |
| DynamicGraph.SizesInList | habana_eager/strided_dynamic_ops.cpp:913-938 | the sizes of an as_strided stand behind its payload and its offset, with this launch's values |
| DynamicGraph.ShapesInList | habana_eager/graph_dynamic_ops.cpp:358-375 | the shape tensors of an op stand in order, each with this launch's sizes |
| DynamicGraph.StridePayload | habana_eager/strided_dynamic_ops.cpp:1239-1268 | recorded or patched, the stride payload is [count, offset, reversed strides, zeros] |
| DynamicGraph.StridesDecode | habana_eager/graph_exec.cpp:113-123 | decoding inverts the encoding; only a rank-0 as_strided decodes to [0] |
| DynamicGraph.CarriedStridesAreOwn | habana_eager/graph_exec.cpp:105-123 | the strides carried by the offset tensor are the op's own, for every rank from 1 |
| DynamicGraph.DecodeActualStrides | habana_eager/graph_exec.cpp:113-123 | the copy loop and the reversal |
| HostMemory.UpdateHostData | backend/backend_meta.cpp:72-89 | the payload twice at the host pointer, the whole block copied to the compile pointer, every other byte unchanged |
| HostMemory.TotalRequired | habana_eager/graph_exec.cpp:54-66 | the size of the chunk is the sum of the blocks |
| HostMemory.PatchDynamicTensors | habana_eager/graph_exec.cpp:54-127 | the chunk is exactly the blocks one after another, and every tensor has its pointers or its sizes and strides |
| HostMemory.PlaceableMeans | habana_eager/graph_exec.cpp:101-124 | every launch list meets what the layout needs |
| HostMemory.BlocksDisjoint | habana_eager/graph_exec.cpp:77-100 | host and compile blocks are disjoint, in order and inside the chunk |
| HostMemory.BlocksHoldPayload | habana_eager/graph_exec.cpp:77-100 | all four halves of a tensor's blocks hold its payload, whatever was placed later |
| HostMemory.FreedOnceIff | backend/backend_meta.cpp:30-43 | exactly one tensor meets the free condition if and only if the first host tensor's payload is not empty |
| HostMemory.EmptyPayloadFreesTwice | backend/backend_meta.cpp:30-43 | the failing case: an empty repeat in front of another |
| HostMemory.DecodeEncode | habana_eager/graph_exec.cpp:88-100 | bytes written for a payload read back as it, modulo the element width |
| HostMemory.PatchedReads | habana_kernels/basic_kernels.cpp:1029-1089 | after patching every pass, dry or not, reads the launch's own payload |
| HostMemory.SetMin | backend/backend_meta.h:420-427 | the second half of the compile block, nothing else |
| HostMemory.SetMax | backend/backend_meta.h:412-418 | the first half of the compile block, nothing else |
| HostMemory.MinMaxHalves | backend/backend_meta.h:412-427 | set_min and set_max commute, keep each other's half and leave the host block alone |
| HostMemory.PassesReadMinMax | habana_kernels/basic_kernels.cpp:1041-1089 | after set_min and set_max the minimum pass of a dry run reads the minimum, the maximum pass the maximum, any other reading the host block as it was |
| StrideLowering.LowerFromPayload | habana_kernels/basic_kernels.cpp:1192-1229 | parameters with which the device, counting dimensions from the innermost, finds every index at the payload's offset plus its strides, or the failed range check |
| StrideLowering.LowerFromCarried | habana_kernels/basic_kernels.cpp:1230-1269 | the same from the carried strides and the offset tensor |
| StrideLowering.ParamsDenote | habana_kernels/basic_kernels.cpp:1256-1263 | strides written from the back address every index at offset plus the sum of its strides, the rest is zero |
| StrideLowering.DenotesEveryView | habana_kernels/basic_kernels.cpp:1256-1263 | and so every element of every view with these strides where the view has it |
| StrideLowering.StrideDataVector | habana_kernels/basic_kernels.cpp:1230-1243 | the payload the ratio path stores for the minimum and maximum passes |
| StrideLowering.PassPayloadDecodes | habana_kernels/basic_kernels.cpp:1230-1243 | that payload decodes to the strides it was made from |
| StrideLowering.DecodedParams | habana_kernels/basic_kernels.cpp:1649-1717 | parameters decoded from a payload address by the launch's strides and offset, rank zero included |
| StrideLowering.LowerBothWays | habana_kernels/basic_kernels.cpp:1192-1269 | for any launch list and any stride op in it: the whole list laid out and decoded, both paths give parameters with which the device finds every element of the op's view under this launch's stack |
| StrideLowering.StridesInChunk | habana_kernels/basic_kernels.cpp:1041-1089 | wherever a stride op is in the list, every pass reads its own payload from the chunk and its offset carries its own strides |
| StrideLowering.LaunchAndLower | habana_eager/graph_exec.cpp:324-345 | the same from the launcher, after any launches |
| KernelPayloads.SliceLaunched | habana_kernels/index_kernels.cpp:2008-2068 | wherever a slice is in the launch list, every pass reads a payload that, with the sizes in front of it, takes exactly Python's indices in the sliced dimension and all others whole and in order |
| KernelPayloads.SliceParamsDecode | habana_kernels/index_kernels.cpp:2055-2068 | get_start_tensor and get_step_tensor give start and step in the sliced dimension, 0 and 1 in the others |
| KernelPayloads.AcceptedSlices | habana_eager/graph_dynamic_ops.cpp:832-846 | sizes and payload of an accepted slice slice as Python does |
| KernelPayloads.RepeatCounts | habana_kernels/repeat.cpp:97-104 | the counts from the unsigned words, back to front |
| KernelPayloads.RepeatLaunched | habana_kernels/repeat.cpp:56-104 | every pass reads counts that are this launch's repeats, dimension by dimension |
| KernelPayloads.ArangeLaunched | hpu_ops/backend/arange_gen.cpp:88-108 | every pass reads start, limit and step of this launch |
| KernelPayloads.RandpermLaunched | hpu_ops/backend/randperm_gen.cpp:257-294 | the numbers every pass is given to permute are exactly those below this launch's end |
| Pipeline.StepKeepsInv | habana_eager/eager_pipeline_utils.h:78-137 | every step of every thread keeps: at each stage done, in flight and queued tasks are the submitted ones that need it, in order |
| Pipeline.RunKeepsInv | habana_eager/eager_pipeline_utils.h:78-137 | in every state of every interleaving |
| Pipeline.TracesArePrefixes | habana_eager/eager_pipeline_utils.h:78-137 | the lowering, compile and execute traces are prefixes of submission order restricted to the tasks that need the stage |
| Pipeline.StagesInOrder | habana_eager/eager_pipeline_utils.h:78-137 | a compiled task was lowered, an executed one compiled |
| Pipeline.InlineRunsAlone | habana_eager/eager_pipeline_utils.h:114-120 | while the inline mode calls compile and execute, both later stages are empty |
| Pipeline.QuiescentIsComplete | habana_eager/eager_pipeline_utils.h:78-137 | once idle, every stage has run all its tasks exactly once |
| Pipeline.WorkIsDone | habana_eager/eager_pipeline_utils.h:78-106 | once idle, no task's own function has been skipped at any stage |
| Pipeline.Progress | habana_eager/eager_pipeline_utils.h:114-120 | no deadlock, inline waits included |
| Pipeline.StepsDoWork | habana_eager/eager_pipeline_utils.h:78-137 | every thread step uses up remaining work, so any schedule drains |
| Pipeline.ExecuteFirstIsNotEnough | habana_eager/eager_pipeline_utils.h:114-120 | a run in which waiting for execute first would leave it busy again after compile |
| PipelineThreads.Threads.Enqueue | habana_eager/eager_pipeline_utils.h:78-137 | a submission is the step relation's submission |
| PipelineThreads.Threads.StepLowering | habana_eager/eager_pipeline_utils.h:111-125 | the lowering thread moves as the step relation says, or waits |
| PipelineThreads.Threads.StepCompile | habana_eager/eager_pipeline_utils.h:127-132 | the compile thread likewise |
| PipelineThreads.Threads.StepExecute | habana_eager/eager_pipeline_utils.h:134-136 | the execute thread likewise |
| PipelineThreads.Threads.Schedule | habana_eager/eager_pipeline_utils.h:78-137 | under an arbitrary choice of thread and flag some thread moves and work is used up |
| PipelineThreads.Threads.Drain | habana_eager/eager_pipeline_utils.h:78-137 | draining ends with every stage complete and in order |
| SliceInsert.FixSliceParams | habana_kernels/basic_kernels.cpp:590-626 | the clamped bounds, and exactly when the call is refused |
| SliceInsert.FixedSliceIsPython | habana_kernels/basic_kernels.cpp:590-626 | 0 <= start <= end <= size, and the selected indices are Python's: whole steps from the first index at or behind start, before end, a negative bound naming the index counted from the back |
| SliceInsert.LengthCounts | habana_kernels/basic_kernels.cpp:676-680 | ceil((end - start) / step) counts the selected indices |
| SliceInsert.ValidateSliceInsertInputs | habana_kernels/basic_kernels.cpp:665-690 | accepts iff every dimension is in bounds |
| SliceInsert.FixedSliceValidates | habana_kernels/basic_kernels.cpp:665-690 | a fixed slice validates iff it does not start at the end of a non-empty dimension, so every non-empty one does |
| SliceInsert.UpdateMaxPassSliceInputs | habana_kernels/basic_kernels.cpp:692-729 | both vectors updated in place and the lexicographic check of the minimum start |
| SliceInsert.LexLeIff | habana_kernels/basic_kernels.cpp:727-728 | a vector is at most another exactly when it is its front or smaller at the first difference |
| SliceInsert.MaxPassValidates | habana_kernels/basic_kernels.cpp:692-729 | a dimension with a positive output and a start not raised by the bucket rule validates; a raised one exactly when its end is inside |
| SliceInsert.InventedStartInside | habana_kernels/basic_kernels.cpp:692-729 | without buckets the invented start always passes the validator, and is non-negative iff the steps fit |
| DynamicPad.ComputeOutputShape | habana_kernels/embedding_kernels.cpp:41-81 | the static output shape, refused iff the pads are odd, too many or leave a padded size not positive |
| DynamicPad.UpdateShape | habana_eager/strided_dynamic_ops.cpp:572-597 | the dynamic output shape from the patched payload, pads re-read as signed 32-bit |
| DynamicPad.DynamicPadIsStaticIff | habana_eager/strided_dynamic_ops.cpp:543-598 | after record, patch and all reversals the dynamic shape is the static one, negative pads included, iff each dimension's pad sum fits 32 bits |
| Collectives.RunCollective | habana_kernels/hccl_kernels.cpp:561-585 | with a chunk of at least one element the loop ends, tiles the buffer and leaves what one collective over the whole buffer leaves, on every rank |
| Collectives.AfterSlice | habana_kernels/hccl_kernels.cpp:648-673 | reducing one more slice extends the reduced prefix |
| Collectives.CoveredOnce | habana_kernels/hccl_kernels.cpp:561-585 | every element is in exactly one slice |
| Collectives.LoopEndsIff | habana_kernels/hccl_kernels.cpp:561-585 | the loop ends if and only if a chunk holds an element or the buffer is empty |
| TensorPool.StepKeepsInv | habana_eager/eager_tensor.cpp:24-45 | every step of consumer and refill thread keeps the pool's invariant |
| TensorPool.RunKeepsInv | habana_eager/eager_tensor.cpp:24-45 | in every interleaving |
| TensorPool.NeverEmptyNeverTwice | habana_eager/eager_tensor.cpp:35-45 | for a positive size no pop finds an empty deque and no tensor is returned twice |
| TensorPool.NoSharedDeque | habana_eager/eager_tensor.cpp:28-45 | the two threads never touch one deque while both can move |
| TensorPool.SomeoneMoves | habana_eager/eager_tensor.cpp:35-45 | the consumer moves or waits for a refill that moves |
| TensorPool.EmptyPoolPopsNothing | habana_eager/eager_tensor.cpp:35-45 | with size zero the first call pops an empty deque |
| TensorPool.Pool.constructor | habana_eager/eager_tensor.cpp:24-26 | the pool starts with a refill under way |
| TensorPool.Pool.Refill | habana_eager/eager_tensor.cpp:28-33 | any part of a refill adds that many new tensors to the other deque |
| TensorPool.Pool.GetTensor | habana_eager/eager_tensor.cpp:35-45 | each call returns a tensor never returned before |

## Left out

- LaunchMeaning.LaunchLeavesEagerMemory: assumes resident storages with disjoint address ranges, harmless duplicates (`LaunchMeaning.AliasesHarmless`), no lost write, results of the written tensors' sizes, and what `LoweringMeaning.OpLaws` says of the kernels at this call's own arguments; kernels stay uninterpreted.
- StorageUpdate.LoweredMemoryIsEager: takes out arguments to be single tensors, as the op backend does when it shares their memory (hpu_ops/backend/op_backend.cpp:261-262).
- CacheHits.HitIsFreshIff: is about the key entry by entry; `KeyWords.StreamIff` takes it to the flat words where the entries have equal lengths and sections, and hash collisions are outside both. Memory permutation, format, layout and the tensor-meta view flag are further words of the source's key that the proof does not need.
- OperatorKey.CalculateOperatorKey: takes the tensors of a call to be distinct objects; the source hashes a repeated object once.
- EagerLaunch.Launcher.Launch: takes the op metadata as a function of the op's symbol and every tensor as being on the device (CPU scalars are converted before), and does not dispatch copies to `CopyInsert`; the two copy forms share a symbol, and `CopyInsert.CopyHitIsFresh` shows that the key separates them.
- MergedReads.PruningHarmlessIff: is about calls that write nothing; for calls that write, `LaunchMeaning.PrunedRun` gives one direction.
- EagerGraph.CreatedMeaning: undefined tensors are the constant None; value types, scopes and the deterministic attribute are not part of a node.
- LoweringMeaning.ReplacedMeaning: the replacement node keeps the names of the outputs it takes over, where the source makes new ones and moves all uses.
- CopyInsert.HandleOutputInsert: the two constants the source also appends to the call's input list are not modelled.
- JitGraph.RedirectMeaning: the SSA list is ordered by position only; owning blocks and sub-blocks are not modelled.
- StridedViews.InsertThenView: elements are integers in a sequence; dtypes are carried as tags.
- MemoryCheck.VerifyViewMemoryAccess: strides, sizes and offset are non-negative, as views are.
- WeightRelayout.PermuteDataToRSCK: loop counters are unbounded where the source's are int, so numel below 2^31 is taken for granted; the dtype dispatch, with its 5-D Half branch that uses the float template, is not modelled.
- TensorLayout.CalculateStrides: memory formats other than channels-last take the contiguous branch, as in the source.
- DynamicParams.PatchIsRecord: payload values are compared as the patch lists them, modulo the element width.
- DynamicParams.GetH2DTensorHostData: reads the recorded length; the source loops to the tensor's own size, twice that for stride tensors, and uses only the recorded part.
- DynamicParams.RecordStrides: requires at most SYN_MAX_TENSOR_DIM + 1 strides; above that the source's unsigned fill count wraps.
- DynamicGraph.DynamicLauncher.Launch: covers stacks for which every operand resolves and no negative constant is read as an index; the symbolic branch of as_strided and the host-tensor branch of slice only; the tensor-driven as_strided branch, the slice branch with shape tensors alone, and sizes of -1 in expand and view are not modelled.
- DynamicGraph.RecordOp: the division by a zero base stride on the ratio path is `DynamicLaunch.StrideRatios`; the recorded ratios are not part of the launch list.
- KernelPayloads.SliceLaunched: covers stacks whose slice is accepted (a positive step, an existing dimension), as compute_output_shape refuses the others; what the device does with start and step is one multiplication and addition per dimension.
- DynamicGraph.PatchArange: the number of arange elements is a parameter (it is a floating-point division in the source).
- DynamicGraph.DynamicLauncher.constructor: creating nodes and graph inputs, range expressions and removal of scalar inputs from the stack are not modelled; randperm's size tensor is one more shape-only op, and the pad's shape tensor, which is resized at once instead of through the launch list, is `DynamicPad.UpdateShape`.
- HostMemory.PatchDynamicTensors: the chunk is an array and pointers are offsets into it; allocation failure and the lifetime of the chunk after it is freed are not modelled. The queue of launch lists never holds more than one list and is left out.
- HostMemory.FreedOnceIff: is about the chunk of one launch; tensors that own their buffers separately free both.
- StrideLowering.LowerBothWays: the minimum and maximum passes of the ratio path are modelled by the payload they store and `DynamicLaunch.RebuiltIff`, not launch by launch.
- Pipeline.TracesArePrefixes: task bodies are opaque; queues are FIFO with one worker each, and a stage's call, its hand-over and its return are atomic steps.
- PipelineThreads.Threads.Drain: one object plays all threads, with the scheduler's choice as an argument; locks and condition variables are below it.
- SliceInsert.FixSliceParams: bounds are unbounded integers, without overflow near the 64-bit limits.
- DynamicPad.DynamicPadIsStaticIff: compares shapes; the static pad refuses sizes that are not positive and the dynamic one does not, as `DynamicPad.ComputeOutputShape` and `DynamicPad.UpdateShape` state.
- Collectives.RunCollective: the collective is an arbitrary element-wise combination of the ranks' columns, delivered to everyone or to one rank; pointers are offsets, and element sizes and stream calls are parameters or left out.
- TensorPool.Pool.GetTensor: tensors are numbers in order of creation, and the waiting consumer is modelled as the refill running to its end; the interleavings are in the step relation.
- Device, recipe compilation, stream and collective library calls, logging, graph dumps, environment flags and the caches' eviction are foreign or I/O.
- Op registration, schemas, kernel wrappers, CPU fallback and metadata getters and setters would add only easy members.
