# A verified model of aim's hard cores

A Dafny 4.11 model of the parts of aim that are easiest to get subtly wrong, with proofs of what they
promise. `dafny verify dfyconfig.toml` checks all of it.

**Sorting** (`SortOrder`, `Stability`, `SmallSorts`, `Partition`, `HeapSort`, `Introsort`). The port of
libc++'s introsort, in place on an array, for every strict weak order. The inner loops that have no bounds
test are shown safe from what earlier steps leave behind: the element before the range, and the element the
median of three or the ninther leaves not below the pivot. On finitely many elements a strict weak order is
the order of an integer rank (`SortOrder.RankRanks`), so the algorithms carry a ghost `key`. The order of
equals, which shows in serialized files, is kept below 24 elements, and so fixed
(`Stability.StableSortIsUnique`); above, each step says where it moves them.

**Binder receive buffers** (`ReceiveAllocator`). The best-fit allocator as a class. Its free map is at all
times exactly the set of maximal gaps between live buffers, so it is a function of the live buffers alone.

**Binder references** (`BinderState`, `BinderInvariant`, `BinderSteps`, `BinderLocals`, `BinderRelease`,
`BinderNotices`, `BinderRuns`, `BinderManager`, `BinderOrphans`, `BinderLostRelease`, `BinderDriver`). Nodes,
handles, counts, back-references and work queues. `BinderState` has the operations as functions of the whole
state. `BinderInvariant.Inv` says that the redundant parts agree, and `BinderRuns` proves it of every run,
with transactions and buffers as the environment's steps; `BinderManager` follows the local references those
take, so that a node counts exactly them and a context's manager is never a node that is gone; `BinderOrphans`
shows that no node is left that nothing holds. `BinderDriver.Driver` is the driver changed in place. It
remembers, for the proof, the run it has made, and is valid when that run leads to its fields; its entry
points keep it valid, so all that is proved of runs holds of it.

**Parked binder reads** (`ParkedReads`, `ParkedHistory`). The park and wake protocol as a state machine over
its atomic steps, for callers that park. `ParkedHistory` tells from the steps alone what is asked of a thread
and not answered, and shows that none of it is lost.

**Dex re-indexing** (`DexInsert`, `DexPlan`, `DexMeaning`, `DexAdd`, `DexFormats`, `DexCode`, `DexRedirect`,
`DexPipeline`). New strings, types, protos and methods are inserted into sorted id tables, every index is
remapped, and code is rewritten. The result names exactly what was there and what was asked for, and code
disassembles to what it was; disassembly goes by the instruction formats (`DexFormats`), not by the rewriter's
own tables. From end to end, redirected code is the old code with exactly the named calls replaced.

**Android binary XML** (`ModifiedUtf8`, `Abx`, `AbxLayout`, `AbxRead`, `AbxFile`, `XmlNext`, `XmlPull`).
Writer and reader with their interning tables in lockstep, modified UTF-8, LEB128 and dex string data, the
normalisation that keeps what `next()` reports, and capture while pulling. Floats are their bits.

**Hexadecimal floats** (`HexFloat`, `HexText`). `hex_bits` rounds to nearest, ties to even, as section 4.3.1
of IEEE 754-2019 asks; nearness is stated over the reals, for every mantissa and exponent.

**Smaller cores.** Symlink lookup inside an image (`ImagePath`), the identity receipt (`Receipt`), and the
argument packing of the GPU thunks (`GpuPacking`).

`Common` has what the models share. Where code and documentation differ the model follows the code.

Some promises need a condition, and the exact one is proved:

- `inc_ref_for_node` leaves a dangling handle exactly when it is given a node that is gone
  (`BinderSteps.IncRefForNodeKeepsInv`); for a context's manager that never happens as long as local
  references are given back no more often than taken (`BinderManager.ManagerLives`).
- A run never loses a release exactly when its threads leave with only settled nodes in their queues
  (`BinderRuns.LosslessThroughout`); a process that leaves loses none (`BinderNotices.ProcExitLossless`), and
  a thread can (`BinderLostRelease.ThreadExitCanLose`).
- Two receipts are equal exactly when they record the same (`Receipt.SameReceipt`). That tells plans read
  from manifests apart; it would not if a reason could be empty (`Receipt.EmptyReasonIsAmbiguous`), which
  manifests rule out.
- A written document's tokens can be pulled exactly when each has text and a code the pull parser knows
  (`XmlPull.PulledIffPullable`).

## Model

| member | source | states |
|---|---|---|
| SortOrder.RankRanks | crates/aim-android-init/src/cxx_sort.rs:9-17 | every strict weak order on finitely many elements is the order of the number of predecessors |
| Stability.StableEquals | crates/aim-android-init/src/cxx_sort.rs:1-7 | keeping the order of equal ranks is keeping, for every element, the order of those neither less nor greater than it |
| Stability.StableSortIsUnique | crates/aim-android-init/src/cxx_sort.rs:1-7 | sorted and with equals in their first order there is only one outcome |
| SmallSorts.Sort3 | crates/aim-android-init/src/cxx_sort.rs:19-38 | the three places end in order, by a rearrangement of those places only; elements that rank the same keep their order; the middle one has the middle rank |
| SmallSorts.Sort4 | crates/aim-android-init/src/cxx_sort.rs:40-59 | the four places end in order, by a rearrangement of those places only; elements that rank the same keep their order |
| SmallSorts.Sort5 | crates/aim-android-init/src/cxx_sort.rs:61-83 | the five places end in order, by a rearrangement of those places only; elements that rank the same keep their order |
| SmallSorts.SortUpToFive | crates/aim-android-init/src/cxx_sort.rs:454-478 | up to five elements are sorted, by a rearrangement of the range; elements that rank the same keep their order |
| SmallSorts.Insert | crates/aim-android-init/src/cxx_sort.rs:98-113 | the element goes where it sorts, by a rearrangement; elements that rank the same keep their order |
| SmallSorts.InsertionSort | crates/aim-android-init/src/cxx_sort.rs:85-116 | sorts the range by a rearrangement of it; elements that rank the same keep their order |
| SmallSorts.InsertionSortUnguarded | crates/aim-android-init/src/cxx_sort.rs:118-146 | sorts the range; elements that rank the same keep their order; every index is in bounds although only the element before the range stops the inner loop |
| SmallSorts.InsertionSortIncomplete | crates/aim-android-init/src/cxx_sort.rs:148-207 | a true result means sorted, and the result is true exactly when fewer than eight places before the last rank below an earlier one; always a rearrangement that keeps the order of equals |
| SmallSorts.LateIsBelow | crates/aim-android-init/src/cxx_sort.rs:180-200 | with the elements before it sorted, one is inserted exactly when it ranked below some earlier element of the original range |
| Partition.PartitionWithEqualsOnRight | crates/aim-android-init/src/cxx_sort.rs:209-261 | the pivot ends between what is below it and what is not; the misplaced elements are exchanged in pairs from the outside in and nothing else moves but the pivot and its partner; `already partitioned` is reported exactly when nothing below the pivot followed something that was not; unguarded scans stay in bounds |
| Partition.PartitionWithEqualsOnLeft | crates/aim-android-init/src/cxx_sort.rs:263-317 | the pivot ends last of what is not above it and everything after is above; the misplaced elements are exchanged in pairs from the outside in |
| Partition.Converge | crates/aim-android-init/src/cxx_sort.rs:240-252 | the loop both partitions share ends with the two sides met, the misplaced elements exchanged in pairs from the outside in; each exchanged pair stops the next scans |
| Partition.MirroredOnce | crates/aim-android-init/src/cxx_sort.rs:209-317 | that exchange has one outcome only: every misplaced element has its partner |
| HeapSort.LargerChild | crates/aim-android-init/src/cxx_sort.rs:330-335 | the child picked ranks at least as high as its sibling, and is the left one if they rank the same |
| HeapSort.SiftDown | crates/aim-android-init/src/cxx_sort.rs:319-358 | a heap from the next place on becomes one from this place on, by a rearrangement |
| HeapSort.FloydSiftDown | crates/aim-android-init/src/cxx_sort.rs:360-382 | the hole at the root moves to a leaf through larger children; nothing is lost or duplicated |
| HeapSort.SiftUp | crates/aim-android-init/src/cxx_sort.rs:384-412 | a heap but for its hole's leaf becomes a heap |
| HeapSort.Extract | crates/aim-android-init/src/cxx_sort.rs:425-439 | the root goes to the end and the rest is a heap again |
| HeapSort.RootIsLargest | crates/aim-android-init/src/cxx_sort.rs:414-440 | nothing in a heap ranks above its root |
| HeapSort.HeapSort | crates/aim-android-init/src/cxx_sort.rs:414-440 | sorts any range by a rearrangement of it |
| Introsort.ChoosePivot | crates/aim-android-init/src/cxx_sort.rs:489-498 | the element at the front has the middle rank of three places, or of three such middles past 128 elements, and leaves an element of the rest that is not below it |
| Introsort.SkipEquals | crates/aim-android-init/src/cxx_sort.rs:499-502 | when the element before the range is not below the pivot, what the left partition puts left is sorted already |
| Introsort.Divide | crates/aim-android-init/src/cxx_sort.rs:503-517 | the pivot is placed by the right partition; each side is reported sorted exactly when nothing had to be exchanged and fewer than eight of its places are late, and then is; equals keep the order the partition left |
| Introsort.SortDirectly | crates/aim-android-init/src/cxx_sort.rs:453-487 | a range is sorted without dividing it exactly when it has fewer than 24 elements or no depth is left; fewer than 24 keep the order of equals |
| Introsort.Introsort | crates/aim-android-init/src/cxx_sort.rs:442-523 | sorts the range by a rearrangement of it, which keeps the order of equals in fewer than 24 elements; calls nest no deeper than the depth budget |
| Introsort.SortBy | crates/aim-android-init/src/cxx_sort.rs:9-17 | for every array and strict weak order: a rearrangement in which no element is less than an earlier one, with calls nested at most twice the floor of the logarithm of the length; of fewer than 24 elements, those equal to any one keep their order |
| Introsort.BitLog2Bounds | crates/aim-android-init/src/cxx_sort.rs:14-15 | the bit count used for the budget is the floor of the binary logarithm |
| ReceiveAllocator.Allocator.constructor | crates/aim-binder-driver/src/alloc.rs:50-60 | one free range the size of the mapping, half of it for one-way buffers |
| ReceiveAllocator.RequestSize | crates/aim-binder-driver/src/alloc.rs:71-77 | the sum of the three aligned sizes, at least eight; nothing exactly when that sum leaves 64 bits |
| ReceiveAllocator.Allocator.BestFit | crates/aim-binder-driver/src/alloc.rs:81-86 | the smallest sufficient range, the lowest offset among equals; none exactly when none suffices |
| ReceiveAllocator.Allocator.SenderUse | crates/aim-binder-driver/src/alloc.rs:126-133 | the number and total size of the sender's live one-way buffers |
| ReceiveAllocator.Allocator.LowAsyncSpace | crates/aim-binder-driver/src/alloc.rs:119-137 | exactly when a sender is reported, and how the flag moves |
| ReceiveAllocator.Allocator.Allocate | crates/aim-binder-driver/src/alloc.rs:63-117 | exactly when it fails and with which error, that failure changes nothing, and that success takes the best fit; the invariant is kept |
| ReceiveAllocator.Allocator.Predecessor | crates/aim-binder-driver/src/alloc.rs:158-160 | the free range before an offset, if any |
| ReceiveAllocator.Allocator.Coalesce | crates/aim-binder-driver/src/alloc.rs:156-168 | the returned range joined with the free ranges it touches |
| ReceiveAllocator.Allocator.Free | crates/aim-binder-driver/src/alloc.rs:150-170 | the buffer is gone and one-way space given back; the free map is again the maximal gaps |
| ReceiveAllocator.Allocator.OffsetOf | crates/aim-binder-driver/src/alloc.rs:139-144 | the buffer whose address the pointer is, and no other |
| ReceiveAllocator.Allocator.AllocateAndFree | crates/aim-binder-driver/src/alloc.rs:63-170 | an allocation freed at once restores free map, buffers and one-way space |
| ReceiveAllocator.FreeIffUnallocated | crates/aim-binder-driver/src/alloc.rs:50-170 | a byte of the mapping is free exactly when no buffer holds it |
| ReceiveAllocator.FreeIsHistoryIndependent | crates/aim-binder-driver/src/alloc.rs:150-170 | equal buffer extents give equal free maps, however they came about |
| ReceiveAllocator.TakenIsGaps | crates/aim-binder-driver/src/alloc.rs:87-90 | taking the front of a free range leaves exactly the maximal gaps |
| ReceiveAllocator.ReturnedIsGaps | crates/aim-binder-driver/src/alloc.rs:150-170 | returning a buffer's range leaves exactly the maximal gaps |
| ReceiveAllocator.TakeThenReturn | crates/aim-binder-driver/src/alloc.rs:87-168 | taking a range and returning it restores the free map |
| ReceiveAllocator.ReportsAreSeparated | crates/aim-binder-driver/src/alloc.rs:119-137 | between two reports of spam some one-way allocation left at least a tenth of the mapping |
| BinderInvariant.DecNodeRefs | crates/aim-binder-driver/src/state.rs:606-651 | lowering a count one too high brings it into step with the holders; handle tables stay |
| BinderInvariant.IncNodeRefs | crates/aim-binder-driver/src/state.rs:561-604 | raising an internal strong count makes it one more than the holders; handle tables stay |
| BinderInvariant.RefSet | crates/aim-binder-driver/src/state.rs:725-781 | changing one handle's counts changes its node's holders by that one and no other node's |
| BinderInvariant.IncRefHandles | crates/aim-binder-driver/src/state.rs:724-751 | `inc_ref` counts the node exactly with the handle's first count of a kind, and changes that handle only |
| BinderInvariant.CleanupHandles | crates/aim-binder-driver/src/state.rs:800-820 | the handle leaves both tables and the node's back-references, and its strong count is given up |
| BinderInvariant.DecNodeQueued | crates/aim-binder-driver/src/state.rs:606-651 | node work stays once in the queue its node names and in no other |
| BinderInvariant.IncNodeQueued | crates/aim-binder-driver/src/state.rs:561-604 | the same when node work moves to the target thread's queue |
| BinderSteps.IncRefInv | crates/aim-binder-driver/src/state.rs:724-751 | a successful `inc_ref` keeps the invariant |
| BinderSteps.DecRefInv | crates/aim-binder-driver/src/state.rs:753-781 | `dec_ref` keeps the invariant |
| BinderSteps.DecRefResult | crates/aim-binder-driver/src/state.rs:753-781 | one count less of that kind, and the handle gone from both tables exactly with its last count |
| BinderSteps.IncThenDec | crates/aim-binder-driver/src/state.rs:724-781 | a count taken and given back restores both handle tables and every node's holders and strong count |
| BinderSteps.IncRefForNodeInv | crates/aim-binder-driver/src/state.rs:670-722 | handing out a handle on a node that exists keeps the invariant, on success and on failure |
| BinderSteps.IncRefForNodeResult | crates/aim-binder-driver/src/state.rs:670-722 | on success the process has a handle on that node counted once more, an existing one if it had one, and every other handle is as before |
| BinderSteps.IncRefForNodeFailed | crates/aim-binder-driver/src/state.rs:670-722 | on failure the handle tables are as before |
| BinderSteps.IncRefForNodeOk | crates/aim-binder-driver/src/state.rs:561-722 | a handle on a node that exists is given exactly when the process exists and the count asked for is weak, or the handle is strong already, a thread is to be told, the node is strongly held, or it is a manager its owner believes held |
| BinderSteps.IncRefForMissingNode | crates/aim-binder-driver/src/state.rs:670-722 | given a node that is gone it fails and leaves a handle on nothing |
| BinderSteps.IncRefForNodeKeepsInv | crates/aim-binder-driver/src/state.rs:670-722 | the invariant survives exactly when the node exists or the process does not |
| BinderSteps.UpdateRefInv | crates/aim-binder-driver/src/state.rs:782-798 | counting a handle up or down keeps the invariant |
| BinderSteps.LocalIncInv | crates/aim-binder-driver/src/state.rs:561-604 | taking a local reference keeps the invariant |
| BinderSteps.LocalDecInv | crates/aim-binder-driver/src/state.rs:606-651 | giving back a local reference keeps the invariant |
| BinderLocals.LocalGiven | crates/aim-binder-driver/src/state.rs:606-651 | giving back a local reference: the node goes exactly when nothing else keeps it, over the state before; otherwise that count is one less, no other count or node changes, and its owner is queued to hear of it, last in its queue, exactly when the last hold of that kind goes |
| BinderLocals.LocalTaken | crates/aim-binder-driver/src/state.rs:561-604 | taking one: that count is one more, no other changes, and the node's work moves to the end of the target thread's queue exactly when the owner does not know yet |
| BinderLocals.TakenThenGiven | crates/aim-binder-driver/src/state.rs:561-651 | taken and given back: every count is as before, or the node is gone, exactly if nothing kept it |
| BinderLocals.AcknowledgedIs | crates/aim-binder-driver/src/write.rs:67-87 | an acknowledgement that is waited for gives that local reference back and is waited for no more; any other does nothing |
| BinderLocals.HandedNode | crates/aim-binder-driver/src/state.rs:670-751 | handing out a handle: the process joins the node's holders, a first strong count is counted, a first count of its kind may queue the node; nothing else about any node changes |
| BinderSteps.NewNodeInv | crates/aim-binder-driver/src/state.rs:528-559 | a new node, or the one the process already has for the pointer, keeps the invariant |
| BinderSteps.ReadInv | crates/aim-binder-driver/src/read.rs:143-192 | reading the front of a queue, telling its node's owner and dropping the node if nothing holds it keeps the invariant |
| BinderSteps.ManagerInv | crates/aim-binder-driver/src/driver.rs:634-659 | becoming context manager keeps the invariant |
| BinderRelease.ThreadReleaseInv | crates/aim-binder-driver/src/release.rs:13-64 | dropping a thread's queue keeps the invariant: its node work is queued nowhere |
| BinderRelease.NodesReleasedInv | crates/aim-binder-driver/src/release.rs:92-126 | nodes of a leaving process go or stay as dead nodes of their holders, keeping the invariant |
| BinderRelease.ReleaseProcInv | crates/aim-binder-driver/src/release.rs:128-165 | releasing a process keeps the invariant and leaves none of its handles |
| BinderRelease.RefsReleasedLeaving | crates/aim-binder-driver/src/release.rs:149-152 | a leaving process's handles are given up one by one without disturbing the others |
| BinderNotices.CommandsReplay | crates/aim-binder-driver/src/read.rs:143-192 | the commands sent are legal for what the owner believed, and leave it believing exactly how the references stand |
| BinderNotices.DecNodeHeard | crates/aim-binder-driver/src/state.rs:606-651 | whichever count goes, the owner still believing a reference has its work queued |
| BinderNotices.IncNodeHeard | crates/aim-binder-driver/src/state.rs:561-604 | the same when a count is raised |
| BinderNotices.ReadHeard | crates/aim-binder-driver/src/read.rs:143-192 | the same when a node's work is read |
| BinderNotices.ThreadExitLossless | crates/aim-binder-driver/src/release.rs:66-90 | a leaving thread loses no release exactly when every node waiting in its queue is settled |
| BinderNotices.ProcExitLossless | crates/aim-binder-driver/src/release.rs:128-157 | a leaving process loses no release: what its queues hold is for itself |
| BinderLostRelease.ThreadExitCanLose | crates/aim-binder-driver/src/release.rs:66-90 | a run that has lost nothing until a thread leaves, and then has lost a release |
| BinderRuns.NextInv | crates/aim-binder-driver/src/state.rs:528-820 | every step keeps the invariant |
| BinderRuns.NextKnown | crates/aim-binder-driver/src/state.rs:322-360 | every process's context exists after every step |
| BinderRuns.NextHeard | crates/aim-binder-driver/src/release.rs:66-90 | a step loses no release exactly when it is not a thread leaving with an unsettled node in its queue |
| BinderRuns.NextSteady | crates/aim-binder-driver/src/state.rs:528-820 | steps other than reading and becoming manager change nothing an owner believes |
| BinderRuns.AdvanceAgreed | crates/aim-binder-driver/src/read.rs:143-192 | after every step each owner, told only by legal commands, believes what the driver records |
| BinderRuns.Exec | crates/aim-binder-driver/src/state.rs:528-820 | after every run the tables are inverse, back-references exact, counts the number of holders, node work in one queue, and every owner in agreement |
| BinderRuns.NoReleaseLost | crates/aim-binder-driver/src/state.rs:606-651 | in every run whose threads leave with settled nodes only, an owned node believed held but with nothing left has its work queued |
| BinderRuns.LosslessThroughout | crates/aim-binder-driver/src/release.rs:13-157 | a run never loses a release exactly when its threads leave with settled nodes only |
| BinderRuns.NeverSaturates | crates/aim-binder-driver/src/state.rs:612-618 | in every run a handle with a strong count names a live node whose internal strong count is positive |
| BinderManager.RunInContext | crates/aim-binder-driver/src/state.rs:528-559 | in every run a node is in its owner's context |
| BinderManager.NextHeld | crates/aim-binder-driver/src/state.rs:561-651 | every step keeps each owned node's local count of a kind equal to what is taken of it, an acknowledgement it waits for and its being a manager, and every manager in place |
| BinderManager.RunHeld | crates/aim-binder-driver/src/transaction.rs:174-190 | so every run in which no more of that kind is given back than taken |
| BinderManager.LocalCounts | crates/aim-binder-driver/src/state.rs:561-651 | in every such run an owned node's local strong count is what is taken and not given back, one if an acknowledgement is waited for, and one if it is a manager; the same of its weak count |
| BinderManager.ManagerLives | crates/aim-binder-driver/src/write.rs:53-60 | in every such run a context's manager is a node that is there, owned, strongly held and believed so by its owner, so indexing it cannot fail |
| BinderManager.ManagerIsHandedOut | crates/aim-binder-driver/src/write.rs:53-60 | so a process asking for a handle on its context's manager gets one, strong or weak |
| BinderOrphans.NextNeeded | crates/aim-binder-driver/src/state.rs:606-651 | no step leaves behind a node that has no owner, handle or local reference |
| BinderOrphans.NoneLeftOver | crates/aim-binder-driver/src/state.rs:606-651 | in every run a node without an owner is held by a handle or a local reference |
| BinderOrphans.LeftBehind | crates/aim-binder-driver/src/release.rs:92-157 | of the nodes of a process that leaves exactly those stay that another process has a handle on, without owner or local references |
| BinderDriver.Position | crates/aim-binder-driver/src/state.rs:444-450 | the first place of a work item, or the end |
| BinderDriver.LowestFree | crates/aim-binder-driver/src/state.rs:688-696 | the least descriptor from the first allowed one on that is not taken |
| BinderDriver.Driver.constructor | crates/aim-binder-driver/src/driver.rs:54-65 | a valid driver without processes, whose run is empty |
| BinderDriver.Driver.AddProc | crates/aim-binder-driver/src/state.rs:333-360 | keeps the driver valid; the process is new |
| BinderDriver.Driver.AddThread | crates/aim-binder-driver/src/state.rs:362-366 | keeps the driver valid; the thread of an existing process has a queue |
| BinderDriver.Driver.RemoveWork | crates/aim-binder-driver/src/state.rs:444-450 | the first such work is taken out of the queue |
| BinderDriver.Driver.MakeNode | crates/aim-binder-driver/src/state.rs:528-559 | keeps the driver valid; the node is the process's own for the pointer, and no other entry of the table changes |
| BinderDriver.Driver.UpdateRef | crates/aim-binder-driver/src/state.rs:782-798 | keeps the driver valid; fails exactly for a handle that is missing or lacks the strong count asked for, and otherwise changes that handle's count, which goes from both tables with its last |
| BinderDriver.Driver.HandleFor | crates/aim-binder-driver/src/state.rs:670-722 | keeps the driver valid exactly when the node exists or the process does not; for a node that exists says exactly when a handle is given; success gives a handle on the node counted once more and says all that changes about the nodes, failure changes no handle |
| BinderDriver.Driver.TellOwner | crates/aim-binder-driver/src/read.rs:143-192 | sequential edits of the node give what the owner is to be told and the commands that tell it |
| BinderDriver.Driver.ReadWork | crates/aim-binder-driver/src/read.rs:143-192 | keeps the driver valid; the front of the queue is gone, the commands are legal for what the owner believed and end in the truth, and the node stays exactly if something holds it |
| BinderDriver.Driver.Acknowledge | crates/aim-binder-driver/src/write.rs:67-88 | keeps the driver valid; exactly when waited for, gives the local reference back: which node goes, and the counts of one that stays |
| BinderDriver.Driver.TakeLocal | crates/aim-binder-driver/src/state.rs:561-604 | keeps the driver valid; fails exactly for a node that is gone; otherwise that local count is one more, no other count changes, and where the node's work is queued |
| BinderDriver.Driver.GiveLocal | crates/aim-binder-driver/src/state.rs:606-651 | keeps the driver valid; the node goes exactly when nothing else keeps it, otherwise that local count is one less, no other changes, and its owner is queued to hear of it exactly when it must |
| BinderDriver.Driver.BecomeManager | crates/aim-binder-driver/src/driver.rs:634-659 | keeps the driver valid; succeeds exactly when the context has no manager and none of another user before, and then the manager is a strongly held node of the process |
| BinderDriver.Driver.DropWork | crates/aim-binder-driver/src/release.rs:66-90 | every node whose work is dropped is queued nowhere |
| BinderDriver.Driver.ReleaseThread | crates/aim-binder-driver/src/release.rs:13-64 | keeps the driver valid; the queue is gone, and no release is lost exactly when only settled nodes waited there |
| BinderDriver.Driver.ReleaseNodes | crates/aim-binder-driver/src/release.rs:144-148 | whatever the order of the walk, all the owner's nodes are released as one step |
| BinderDriver.Driver.LeaveProc | crates/aim-binder-driver/src/release.rs:128-157 | for every order of the table walks keeps the driver valid, leaves nothing of the process behind and loses no release; exactly those of its nodes stay that another process has a handle on, without local references |
| ParkedReads.WakeWaiterInv | crates/aim-binder-driver/src/state.rs:387-404 | waking a thread moves its resume from parked to released once |
| ParkedReads.WakeupProcInv | crates/aim-binder-driver/src/state.rs:452-477 | process work goes to a thread that waits for it |
| ParkedReads.QueueThreadWorkInv | crates/aim-binder-driver/src/state.rs:420-428 | work for a thread wakes it if parked |
| ParkedReads.InterruptInv | crates/aim-binder-driver/src/driver.rs:314-323 | an interrupt wakes the thread if parked and is otherwise kept for its next wait |
| ParkedReads.FlushInv | crates/aim-binder-driver/src/driver.rs:294-312 | a flush makes every thread return, parked or not |
| ParkedReads.ThreadReleaseInv | crates/aim-binder-driver/src/release.rs:13-22 | a leaving thread's parked read is resumed |
| ParkedReads.ReleaseInv | crates/aim-binder-driver/src/driver.rs:325-340 | releasing the process resumes every parked read |
| ParkedReads.LookInv | crates/aim-binder-driver/src/driver.rs:556-605 | one turn of the wait loop keeps the invariant, whether it reads, returns or parks |
| ParkedReads.FaultedInv | crates/aim-binder-driver/src/driver.rs:547-551 | a read that fails at once without looking for work keeps the invariant |
| ParkedReads.NextInv | crates/aim-binder-driver/src/driver.rs:538-631 | every step keeps the invariant |
| ParkedReads.Exec | crates/aim-binder-driver/src/driver.rs:538-631 | the invariant holds after every run |
| ParkedReads.NoLostWakeup | crates/aim-binder-driver/src/driver.rs:556-605 | in every run a parked thread has nothing to return for, and once no read is under way a thread waits for process work only while there is none and only parked |
| ParkedHistory.NextFollows | crates/aim-binder-driver/src/driver.rs:294-631 | each step changes a thread's flags and counters, and the process's work, exactly as its signals, flushes, work and calls say |
| ParkedHistory.RunFollows | crates/aim-binder-driver/src/driver.rs:294-322 | in every run a thread's flags and counters say exactly whether a signal or a flush is unanswered, what work it is owed and whether it is in a transaction, all told from the steps |
| ParkedHistory.RunProcWork | crates/aim-binder-driver/src/state.rs:420-477 | the process's work is what was queued for it and not taken |
| ParkedHistory.RunWaits | crates/aim-binder-driver/src/driver.rs:556-560 | a read waits for process work exactly when it began outside a transaction and without work of its own |
| ParkedHistory.RunProcess | crates/aim-binder-driver/src/driver.rs:325-340 | the process is open until it is closed, waits or not as last told, and owes the wake-ups taken since some were delivered |
| ParkedHistory.NothingAskedIsLost | crates/aim-binder-driver/src/driver.rs:294-322 | in every run a thread that was signalled, flushed or given work and has not answered is not parked; a thread waits for process work only while none is owed or another is on its way |
| ParkedHistory.LookOutcome | crates/aim-binder-driver/src/driver.rs:562-605 | what a read that looks for work does, from the run alone: reads if it has cause to, else returns if it may not wait or was signalled, else delivers wake-ups and looks again, else parks |
| ParkedHistory.FirstToWait | crates/aim-binder-driver/src/state.rs:452-477 | threads wait for process work in the order in which they parked |
| ParkedReads.ResumedOnce | crates/aim-binder-driver/src/driver.rs:378-406 | in every run each read's resume is still held, or the read returned directly, or it was released exactly once |
| DexInsert.LowerBound | crates/aim-android-image/src/reindex.rs:340-355 | the place before which everything is below the key and from which nothing is |
| DexInsert.PresentAt | crates/aim-android-image/src/reindex.rs:340-355 | a key is in a sorted table exactly when it stands at its place |
| DexInsert.BelowIs | crates/aim-android-image/src/reindex.rs:297-355 | keys are ordered by their first difference, a beginning before the whole |
| DexInsert.MapMonotone | crates/aim-android-image/src/reindex.rs:205-217 | remapping keeps the order of old entries and stays within the new table |
| DexInsert.MapVersusNew | crates/aim-android-image/src/reindex.rs:205-222 | an old entry stays before a new one exactly when it stood before its place, and they never share an index |
| DexInsert.EveryIndex | crates/aim-android-image/src/reindex.rs:205-222 | every index of the new table is that of an old or a new entry |
| DexInsert.Merge | crates/aim-android-image/src/reindex.rs:1131-1151 | the merged table has every old entry at its remapped index and every new one at its new index |
| DexInsert.MergeByIndex | crates/aim-android-image/src/reindex.rs:613-630 | the string table's loop merges in the same way |
| DexInsert.PlanTable | crates/aim-android-image/src/reindex.rs:397-473 | exactly the wanted keys that are missing are added, each where it sorts |
| DexInsert.MergedSorted | crates/aim-android-image/src/reindex.rs:1131-1151 | the merged table is strictly sorted again |
| DexInsert.IndexOf | crates/aim-android-image/src/reindex.rs:489-509 | the index returned is the key's in the merged table |
| DexInsert.Put | crates/aim-android-image/src/reindex.rs:388-396 | a sorted set with one more key |
| DexPlan.TypeKept | crates/aim-android-image/src/reindex.rs:834-836 | a remapped type index names the same descriptor |
| DexPlan.ProtoKept | crates/aim-android-image/src/reindex.rs:523-529 | a remapped proto has the same shorty, return type and parameters |
| DexPlan.FieldKept | crates/aim-android-image/src/reindex.rs:680-685 | a field keeps its index and means the same |
| DexPlan.MethodKept | crates/aim-android-image/src/reindex.rs:838-841 | a remapped method index names the same method |
| DexPlan.OrderIs | crates/aim-android-image/src/reindex.rs:511-562 | the order of the tables: strings by units, types by descriptor, protos by return type then parameters, methods by class, name, proto |
| DexMeaning.Sizes | crates/aim-android-image/src/reindex.rs:475-484 | ordered tables name everything once: each is as long as the set of what it names is large |
| DexMeaning.OldStillNamed | crates/aim-android-image/src/reindex.rs:375-484 | whatever the old tables named the new ones name |
| DexAdd.WantedTexts | crates/aim-android-image/src/reindex.rs:388-396 | exactly the texts the requests need, in order |
| DexAdd.ShortyLetters | crates/aim-android-image/src/reindex.rs:162-174 | a shorty has a letter for the return type and each parameter, 'L' for classes and arrays |
| DexAdd.AddStrings | crates/aim-android-image/src/reindex.rs:388-410 | the string table with exactly the missing texts inserted, sorted |
| DexAdd.AddTypes | crates/aim-android-image/src/reindex.rs:412-429 | the type table with the missing descriptors inserted, nothing unasked for, and each request's type indices |
| DexAdd.AddProtos | crates/aim-android-image/src/reindex.rs:431-461 | the proto table likewise, each new shorty abbreviating its types |
| DexAdd.AddMethodIds | crates/aim-android-image/src/reindex.rs:463-473 | the method table likewise, with the index of each method asked for |
| DexAdd.AddMethods | crates/aim-android-image/src/reindex.rs:375-484 | succeeds exactly when types, protos and methods together with those asked for fit 16 bits, and otherwise reports the first table that does not; all tables sorted, every old entry found with its meaning at its remapped index, each request answered, shorties right, and nothing else added |
| DexAdd.StringsExact | crates/aim-android-image/src/reindex.rs:388-410 | the strings are the old ones and the requests' texts |
| DexAdd.TypesExact | crates/aim-android-image/src/reindex.rs:412-429 | the types named are the old ones and the requests' descriptors |
| DexAdd.SigsExact | crates/aim-android-image/src/reindex.rs:431-461 | the protos named are the old ones and the requests' |
| DexAdd.NamedExact | crates/aim-android-image/src/reindex.rs:463-473 | the methods named are the old ones and the requests' |
| DexCode.IndexKept | crates/aim-android-image/src/reindex.rs:967-1019 | a remapped operand names the same thing and no 16-bit operand is cut short |
| DexCode.UnitsAgree | crates/aim-android-image/src/dex.rs:391-418 | the length of every instruction is that of its opcode's format, and of every payload the sum of its parts |
| DexCode.SlotsAre | crates/aim-android-image/src/reindex.rs:982-1016 | the opcodes the rewriter treats as string, type, method and proto references are exactly those whose format has an index into that table |
| DexCode.FirstRewritten | crates/aim-android-image/src/reindex.rs:982-1016 | for every opcode, which units are replaced and through which table's remapping, and what is refused |
| DexCode.FirstCarries | crates/aim-android-image/src/reindex.rs:983-1014 | an instruction's index operands, and only those, are remapped |
| DexCode.RewriteKeeps | crates/aim-android-image/src/reindex.rs:967-1019 | rewritten code has every instruction where it was and disassembles against the new tables to what it did against the old |
| DexCode.ValidWhole | crates/aim-android-image/src/dex.rs:391-418 | in code whose instructions are complete the walk never leaves the code |
| DexCode.RewriteAt | crates/aim-android-image/src/reindex.rs:983-1014 | one instruction replaced in place, refused in the same cases |
| DexCode.RewriteCode | crates/aim-android-image/src/reindex.rs:980-1016 | the loop computes the rewriting, refused in the same cases |
| DexRedirect.FindSites | crates/aim-android-image/src/redirect.rs:90-116 | exactly the calls of the named method, in order |
| DexRedirect.InvokesAre | crates/aim-android-image/src/redirect.rs:103-112 | the calls looked for are exactly the instructions of the two call formats whose index is a method |
| DexRedirect.StaticAgrees | crates/aim-android-image/src/redirect.rs:206-215 | the opcode written is that of a static call of the same format, in the same unit |
| DexRedirect.EditSites | crates/aim-android-image/src/redirect.rs:206-215 | the edits of one redirect are written over those before it |
| DexRedirect.FindAll | crates/aim-android-image/src/redirect.rs:199-204 | the sites of every redirect, found in the code before any edit |
| DexRedirect.EditsDone | crates/aim-android-image/src/redirect.rs:205-216 | exactly the edited sites change: each becomes a static call of its target with the same registers, every other instruction is as it was |
| DexRedirect.RedirectCode | crates/aim-android-image/src/redirect.rs:199-216 | the code disassembles to what it was with every call of a named method replaced by a static call of the target of the last redirect naming it, each instruction where it was |
| DexRedirect.ExpectedIs | crates/aim-android-image/src/redirect.rs:199-216 | editing at the sites found is replacing the calls, instruction by instruction |
| DexPipeline.RedirectMethod | crates/aim-android-image/src/redirect.rs:192-216 | adding, rewriting and redirecting together: refused exactly when the types, protos or methods with those asked for pass 16 bits, or some instruction is a call site, a method handle or a short string operand whose string will rank past 16 bits; otherwise the code disassembles to the old code with exactly the named calls replaced by the methods asked for |
| DexPipeline.RewriteExact | crates/aim-android-image/src/reindex.rs:982-1016 | code cannot be rewritten exactly when some instruction is a call site, a method handle or a short string operand whose string ranks past 16 bits among the new strings |
| DexMeaning.RankIs | crates/aim-android-image/src/reindex.rs:398-410 | in an ordered table a key's index is the number of keys before it |
| ModifiedUtf8.Utf16RoundTrip | crates/aim-android-xml/src/abx.rs:322-355 | text to UTF-16 and back is the text |
| ModifiedUtf8.Utf8Bits | crates/aim-android-xml/src/abx.rs:357-371 | a character other than NUL takes as many bytes as UTF-8 has, with its bits in order |
| ModifiedUtf8.UtfRoundTrip | crates/aim-android-xml/src/abx.rs:319-371 | every text, zeros and supplementary characters included, is decoded from its encoding |
| ModifiedUtf8.Encode | crates/aim-android-xml/src/abx.rs:357-371 | the loop computes the encoding |
| ModifiedUtf8.Decode | crates/aim-android-xml/src/abx.rs:319-355 | the loop computes the decoding, and refuses the same bytes |
| ModifiedUtf8.UlebRoundTrip | crates/aim-android-image/src/reindex.rs:149-160 | what `put_uleb` writes `uleb` reads back, using up exactly that, for all 32-bit values |
| ModifiedUtf8.UlebGroups | crates/aim-android-image/src/reindex.rs:149-160 | groups of seven bits, low ones first, all but the last marked, and no more than needed |
| ModifiedUtf8.UnitBits | crates/aim-android-image/src/reindex.rs:130-147 | a unit's bytes carry its bits in order; a zero takes two |
| ModifiedUtf8.StringDataRoundTrip | crates/aim-android-image/src/reindex.rs:105-147 | the units ordered by are the units written |
| ModifiedUtf8.NoZeroBytes | crates/aim-android-image/src/reindex.rs:129-147 | string data has no zero byte but the last |
| ModifiedUtf8.StringReadBack | crates/aim-android-image/src/reindex.rs:297-307 | string data is read back whatever follows it |
| AbxRead.LockstepMore | crates/aim-android-xml/src/abx.rs:70-85 | writer's map and reader's list stay inverse when both learn a string |
| AbxRead.InternedBack | crates/aim-android-xml/src/abx.rs:240-252 | an interned string is read back and the tables stay inverse, full tables included |
| AbxRead.ValueBack | crates/aim-android-xml/src/abx.rs:283-315 | every typed value is read back |
| AbxRead.ElementBack | crates/aim-android-xml/src/abx.rs:254-281 | a written element is read into its parent, or among the roots |
| AbxRead.RoundTrip | crates/aim-android-xml/src/abx.rs:126-202 | for every forest, if writing succeeds reading returns the forest |
| AbxLayout.FourBytes | crates/aim-android-xml/src/abx.rs:283-315 | numbers are written most significant byte first |
| AbxLayout.ByteFromEnd | crates/aim-android-xml/src/abx.rs:283-315 | the same of any number of bytes |
| AbxLayout.TextBytes | crates/aim-android-xml/src/abx.rs:227-238 | a text is its number of bytes in two bytes, at most 65535, and the bytes |
| AbxLayout.FirstUse | crates/aim-android-xml/src/abx.rs:240-252 | an interned string's first use carries it after two bytes that mark it new, and gives it the next index |
| AbxLayout.LaterUse | crates/aim-android-xml/src/abx.rs:240-252 | its later uses carry that index |
| AbxLayout.AttributeBytes | crates/aim-android-xml/src/abx.rs:283-315 | the byte each type of attribute begins with, its name, and its data |
| AbxLayout.TokenBytes | crates/aim-android-xml/src/abx.rs:268-279 | a content token is its event with the type null, or its event with the type string and the text |
| AbxLayout.ElementBytes | crates/aim-android-xml/src/abx.rs:254-281 | an element is its start tag and name, attributes, content, end tag and name |
| AbxLayout.DocumentBytes | crates/aim-android-xml/src/abx.rs:195-225 | a document is the magic, the start token, its elements and the end token |
| AbxFile.Writer.constructor | crates/aim-android-xml/src/abx.rs:210-219 | the magic and start of document, nothing interned |
| AbxFile.Writer.Utf | crates/aim-android-xml/src/abx.rs:227-238 | appends the length and bytes, refused when too long |
| AbxFile.Writer.Intern | crates/aim-android-xml/src/abx.rs:240-252 | appends the string's number or, new, its bytes, and remembers it while there is room |
| AbxFile.Writer.WriteValue | crates/aim-android-xml/src/abx.rs:283-315 | appends a typed value |
| AbxFile.Writer.WriteElement | crates/aim-android-xml/src/abx.rs:254-281 | appends an element with its attributes and content |
| AbxFile.WriteSequence | crates/aim-android-xml/src/abx.rs:195-202 | computes the written document, or refuses |
| AbxFile.Reader.Utf | crates/aim-android-xml/src/abx.rs:60-68 | reads a length and that many bytes as text |
| AbxFile.Reader.Intern | crates/aim-android-xml/src/abx.rs:70-85 | reads a number or a new string, and remembers it while there is room |
| AbxFile.Reader.TypedValue | crates/aim-android-xml/src/abx.rs:92-109 | reads a value of the kind its token names |
| AbxFile.Reader.ReadToken | crates/aim-android-xml/src/abx.rs:140-181 | one token, applied to the open elements and the roots |
| AbxFile.ReadSequence | crates/aim-android-xml/src/abx.rs:126-186 | computes the forest read, or refuses |
| XmlNext.EventsScan | crates/aim-android-xml/src/pull.rs:159-203 | reporting text a run at a time is reporting it a token at a time |
| XmlNext.TextReported | crates/aim-android-xml/src/pull.rs:159-203 | text and the text, character data, known entities, comments and instructions after it are reported as one text of what they show |
| XmlNext.NothingReported | crates/aim-android-xml/src/pull.rs:159-203 | no other content of a binary document is reported |
| XmlNext.NamedEntities | crates/aim-android-xml/src/pull.rs:206-213 | the five named characters |
| XmlNext.NumberedEntity | crates/aim-android-xml/src/pull.rs:214-224 | a decimal reference is the character of its low 16 bits if they are one, and none past 31 bits |
| XmlNext.NegativeEntity | crates/aim-android-xml/src/pull.rs:214-224 | a negative one counts back from the end of the 16 bits |
| XmlNext.NormalReportsTheSame | crates/aim-android-xml/src/lib.rs:138-185 | for text documents, and binary ones whose entities have names: a normal form exists exactly when `next()` reports the document, and read as binary it reports the same events |
| XmlNext.NormalTwice | crates/aim-android-xml/src/lib.rs:138-185 | a normal form normalised again is itself, for every binary document and every text one |
| XmlNext.NormalizeNext | crates/aim-android-xml/src/lib.rs:138-185 | the loop that drains and rebuilds content computes the normal form |
| XmlPull.ElementPulled | crates/aim-android-xml/src/abx.rs:535-586 | pulling a written element gives its tokens in order |
| XmlPull.DriveUpTo | crates/aim-android-xml/src/pull.rs:149-203 | driving by events takes exactly the tokens up to the one that ends the root |
| XmlPull.CapturedIs | crates/aim-android-xml/src/pull.rs:36-115 | what is captured over a document's tokens is its normal form, or fails with it |
| XmlPull.CaptureAgrees | crates/aim-android-xml/src/pull.rs:36-115 | for every written document with pullable tokens, driving to the root's end and taking the document gives what `read_next` gives |
| XmlPull.PulledIffPullable | crates/aim-android-xml/src/abx.rs:535-586 | a written document's tokens can be pulled exactly when each has text and an event code from 4 to 10 |
| XmlPull.NormalReportsWhatIsPulled | crates/aim-android-xml/src/lib.rs:138-185 | of every written document whose tokens can be pulled, `next()` reports what it reports of the normal form, and fails exactly when there is none |
| XmlPull.ReadNextFixed | crates/aim-android-xml/src/lib.rs:107-136 | the written normal form of any document that can be written reads as itself |
| XmlPull.NormalValid | crates/aim-android-xml/src/lib.rs:138-185 | the normal form of a document whose values can be written has such values too |
| HexFloat.ValueMonotone | crates/aim-android-xml/src/double.rs:87-144 | greater patterns have greater values |
| HexFloat.NearestOfTwo | crates/aim-android-xml/src/double.rs:119-130 | the nearer of two neighbouring patterns, even on a tie, is nearest of all |
| HexFloat.RoundedBits | crates/aim-android-xml/src/double.rs:119-130 | the round bit and the sticky bit decide for the nearer one |
| HexFloat.NormalRounds | crates/aim-android-xml/src/double.rs:133-143 | a normal result, carry into the exponent included, is nearest |
| HexFloat.SubnormalRounds | crates/aim-android-xml/src/double.rs:119-132 | a subnormal result is nearest, the half of the smallest included |
| HexFloat.TinyRounds | crates/aim-android-xml/src/double.rs:111-113 | below half of the smallest, zero is nearest |
| HexFloat.HugeRounds | crates/aim-android-xml/src/double.rs:107-109 | from the power of two past the largest value on, infinity is the answer |
| HexFloat.FormatsAreValid | crates/aim-android-xml/src/double.rs:2-45 | the two formats used fit the 64-bit integers of the code, and their infinities are the patterns 0x7ff0000000000000 and 0x7f800000 |
| HexText.SaturationHarmless | crates/aim-android-xml/src/double.rs:105-113 | saturating 64-bit exponents never change the result's range or place |
| HexText.ExponentValue | crates/aim-android-xml/src/double.rs:72-85 | accepts exactly signed decimal digits, with their value as far as 64 bits count |
| HexText.DigitTable | crates/aim-android-xml/src/double.rs:98-101 | the n-th hexadecimal digit, of either case, has value n, and nothing else is a digit |
| HexText.ReadMantissa | crates/aim-android-xml/src/double.rs:90-104 | accepts exactly hexadecimal digits with at most one point, as the bits of their number |
| HexText.RoundMantissa | crates/aim-android-xml/src/double.rs:102-143 | the pattern nearest the number the bits and exponent denote |
| HexText.HexBits | crates/aim-android-xml/src/double.rs:87-144 | malformed text is refused, and every other becomes the pattern nearest the number it denotes, ties to even |
| ImagePath.WorkIsLookup | crates/aim-android-init/src/image.rs:33-63 | working through pending components is looking them up recursively, link targets in their place |
| ImagePath.LookupIsProper | crates/aim-android-init/src/image.rs:33-63 | a lookup ends at names only and through no link, or at a link when the limit is hit |
| ImagePath.SlashDivides | crates/aim-android-init/src/image.rs:111-115 | the components of two paths joined by a slash are those of one and then of the other |
| ImagePath.NameIsComponent | crates/aim-android-init/src/image.rs:111-115 | a name is its own only component |
| ImagePath.ComponentsAreDetermined | crates/aim-android-init/src/image.rs:111-115 | nothing else has these properties and maps the empty path to nothing |
| ImagePath.PlainPath | crates/aim-android-init/src/image.rs:27-63 | looking up names joined by slashes, through no link, gives those names |
| ImagePath.AbsoluteLink | crates/aim-android-init/src/image.rs:27-63 | a link with an absolute target stands for its target |
| ImagePath.RelativeLink | crates/aim-android-init/src/image.rs:27-63 | a link with a relative target stands for its target in the link's directory |
| ImagePath.DotDot | crates/aim-android-init/src/image.rs:39-44 | `..` goes back over a name that is no link, and stays at the root |
| ImagePath.LinkLimit | crates/aim-android-init/src/image.rs:46-60 | forty links are followed; the next one ends the lookup there |
| ImagePath.HostPath | crates/aim-android-init/src/image.rs:33-63 | for every image and guest path: arrives where the recursive lookup does, below the root and through no link, or at the link that was one too many; a path through no link and without dots is itself |
| Receipt.EntriesOnce | crates/aim-android-image/src/identity.rs:42-55 | entries can be read back in one way only, whatever bytes they hold |
| Receipt.SourcesOnce | crates/aim-android-image/src/identity.rs:56-64 | so can source lines whose hashes are on one line |
| Receipt.SameReceipt | crates/aim-android-image/src/identity.rs:35-67 | two receipts are equal exactly when original identity, entries and sources are |
| Receipt.DefiniteReceipt | crates/aim-android-image/src/identity.rs:35-67 | plans that leave it open for no entry whether it has a source or a reason have equal receipts only if they are equal |
| Receipt.ReceiptIsUnambiguous | crates/aim-android-image/src/identity.rs:35-67 | plans as manifests give them, with sources exactly for additions and replacements and no empty reason, have equal receipts only if they are equal, whatever bytes they hold |
| Receipt.NamedSourcesSuffice | crates/aim-android-image/src/identity.rs:35-67 | so have plans of any steps without empty declared sources and reasons |
| Receipt.EmptyReasonIsAmbiguous | crates/aim-android-image/src/manifest.rs:326-338 | in every plan an empty reason is recorded as none, so the manifest's refusal of empty reasons is needed |
| Receipt.Compute | crates/aim-android-image/src/identity.rs:35-64 | the loops compute the receipt |
| Receipt.ReceiptText | crates/aim-android-image/src/identity.rs:35-64 | the receipt's lines, in words |
| Receipt.EntryText | crates/aim-android-image/src/identity.rs:42-55 | a step's line: its kind and the counted texts of its path, source and reason |
| Receipt.FieldText | crates/aim-android-image/src/identity.rs:37 | a counted text: its length, a colon, the text |
| GpuPacking.ComputeLayout | tools/gen-gpu-thunks.py:173-190 | the loop computes the layout |
| GpuPacking.PlacesAreApart | tools/gen-gpu-thunks.py:173-190 | places are pairwise disjoint, none on the stack straddles a word, and at most eight registers of a class are used |
| GpuPacking.PlacedByRule | tools/gen-gpu-thunks.py:173-190 | the first eight arguments of a class are in its registers in order, every other at the first multiple of its size past the stack arguments before it |
| GpuPacking.PutHolds | tools/gen-gpu-thunks.py:211-239 | an argument put in its place can be read back |
| GpuPacking.PutKeeps | tools/gen-gpu-thunks.py:211-239 | and disturbs none put before it |
| GpuPacking.Pack | tools/gen-gpu-thunks.py:211-239 | every argument's low bytes can be read back from the register image |

## Left out

- Binder transactions, command parsing, tracing and the Mach transport: they are the environment of the reference machine, as steps that take and give back local references and post other work.
- Binder death notifications and a node's queue of one-way transactions: they change no count, handle or node work.
- The width of binder counters: counts are unbounded numbers, so an overflow of 32 bits is not modelled.
- Readers that block on a condition variable instead of parking, notifier callbacks and polling.
- ParkedReads: has one process, counts its work instead of naming it, and is a state machine over values rather than a class, so update in place is not captured there; a resumed caller is assumed to read again before anything else, and a write that fails before the read counts as a call that is not a read.
- HexText.HexBits: asks for at most 2^59 characters, so that the 64-bit counters of the code cannot overflow; no longer text fits in memory. Decimal floats and signs are not modelled.
- Introsort.SortBy: the order of equals among 24 or more elements is stated of each step (pivot, partition, insertion), not of the whole, and not of the heap sort that takes over when the depth budget is used up.
- ReceiveAllocator: pages, pointers and the receive memory itself are not modelled, nor is `user_address`.
- Dex byte layout: sections, offsets, shared type lists, annotations, debug information, class data, checksums and digests; the tables and code are sequences. A string count beyond 32 bits is not modelled (`DexPipeline.FewStrings`).
- DexAdd.AddMethods: starts from requests whose signatures are taken apart (`split_sig` is not modelled) and from tables that are in range, sorted and within 16 bits, as a parsed file is.
- DexAdd.AddStrings: orders the texts before looking for the missing ones, where the code orders the missing ones afterwards; the outcome is the same.
- DexPipeline.RedirectMethod: is about one method's code and the redirects whose caller it is, and takes the method each redirect asks for as given; how `target` and `check_target` choose and check it, and zip rewriting, are not modelled.
- Text XML tokenising: text documents start from their tree. Attribute getters and value conversions would add only easy members.
- XmlPull.CaptureAgrees: is about whole written documents; input cut off after the root, which `next()` reports as the end of the document, is not modelled.
- XmlNext.NormalReportsTheSame: asks that a text document has only the tokens a text parser makes, and a binary one no entity token without a name; the pull parser never gives such a token, so `XmlPull.NormalReportsWhatIsPulled` needs no such condition.
- ImagePath: the file system is a map from paths to link targets that does not change during the lookup.
- Receipt: the hash of the receipt is not modelled, so equal hashes of different receipts are not excluded.
- GpuPacking: the layout and the image are modelled, not the program text the generator prints; argument sizes are 1, 2, 4 and 8.
- File system work (cloning, sealing, publishing, manifests), icons, resources, drawing and the other Python tools.
