# Models and proofs for the PMwCAS library and BzTree

A Dafny 4.11 project about four parts of the repository: the multi-word compare-and-swap
protocol and its recovery, epoch-based reclamation with the garbage rings and descriptor
partitions, the MwCAS doubly linked list, and the BzTree. `dafny verify dfyconfig.toml` checks
all of it. The concurrent parts are step machines over any number of threads and runs of any
length; the single-threaded parts are classes and methods proved against functions on values.

## What is modelled

**MwCAS** (`MwcasShared`, `MwcasThreads`, `MwcasMachine`, `MwcasRuns`, `MwcasHelping`,
`MwcasDepth`, `MwcasAlone`, `MwcasPersist`, `MwcasWitness`). A word is a plain value, a CondCAS pointer or a descriptor pointer, each with
the dirty bit it can carry. A thread is a stack of frames, because an operation that meets
another one calls into it. Installing the CondCAS pointer, the conditional swap, persisting,
deciding, clearing the dirty bit, and writing final values are separate steps of `OpStep`;
`ReadStep` is GetValue. One flag selects the persistent or the volatile variant. The logical
value of a word is what it stands for: old for a CondCAS pointer, new for a descriptor exactly
if that descriptor succeeded. A descriptor id can be used again once no thread and no word refers
to it (`Recycle`); the epoch machine is the argument for that. `MwcasRuns` states the results for the
words and the address given to a call. `MwcasAlone` is about a call that nobody disturbs, and about what
stands in its way otherwise; `MwcasPersist` about what has been persisted when.

**Recovery** (`Recovery`). A class with memory and the descriptor array, and the loops of
`DescriptorPool::Recovery`, on any array of descriptors, a zeroed one included. A failed RAW_CHECK
is the result `false`.

**Epochs and rings** (`Epoch`, `EpochScan`, `GarbageRing`, `GarbageRuns`, `Partition`). Protect is a load
and a store, the scan for the safe epoch reads one table entry per step, scans overlap. `Epoch` proves
safety, `EpochScan` what each operation achieves. `GarbageRing` adds Push and Scavenge of the concurrent
ring step by step; `GarbageRuns` follows the items of the Push calls of a run, and a thread that runs alone. `Partition` is the single-owner ring and the
intrusive free list as a class; answers of the shared epoch manager are parameters.

**List** (`DList`, `DListLanding`, `DListAlone`, `DListDelete`). MwCASDList over an atomic MwCAS, one link read per
step. A raw read of a word can meet the descriptor of a MwCAS that has not finished; the flag of a step
says whether it does. `DListAlone` and `DListDelete` are about a thread that runs alone, for every
sequence of such flags and every order in which the MwCAS calls of stalled threads get completed.
`DListLanding` says where an insert lands whose position has been deleted, and which links each step changes.

**BzTree** (the files that start with `Bz`). `BzBytes`, `BzLayout`, `BzNode`, `BzNodeSmo` and `BzInner` work on
the 240 bytes of a node: packed metadata words, blocks, C strings, the leaf operations, copy_out,
copy_in, compaction, split and merge, child pointers, and the parents of structural changes. `BzTree` is
the tree over what those nodes contain, with the traversal that performs at most one structural change
and starts over; `BzTreeInv`, `BzTreeSmo`, `BzTreeSteps`, `BzTreeTraverse` and `BzTreeRuns` prove that
it refines a map from strings to strings. `BzTreeTopmost` says which change a traversal makes. `BzTreeRestart`, `BzTreeDoomed` and `BzTreeEnds` are about the
restart loop of find_leaf: a measure that every structural change lowers, that the loop ends, and for
which leaves it ends in a failed assertion; `BzTreeWrites` says so of every write of a run. The rest says
where the refinement stops: `BzTreeLimits` and `BzTreeLong` (a split that asserts, a parent that
overflows), `BzTreeLookups`
and `BzTreeLost` (which keys an inner split or merge loses once keys have been erased), `BzTreeToy` and
`BzTreeErase` (runs in which that happens; `BzTreeToy` is a description of trees by small numbers that
steps exactly as the tree does). The contracts of `BzNode.Node` and of `BzInner` are stated with the
functions the tree uses (`Inserted`, `Updated`, `Erased`, `Compact`, `Route`, `Halves`, `Joined`,
`SplitAt`, `MergeAt`), which is what joins the two levels.

## Where the code and its own words differ

- `src/mwcas/mwcas.h:208` says words are stored sorted by address; only PersistentMwCAS sorts them
  (`src/mwcas/mwcas.cc:662`). The model does what the code does, and claims about address order are
  made for the persistent variant only.
- The check at `src/mwcas/mwcas.cc:197` assumes that a succeeded operation has no CondCAS pointer of
  its own left in memory. A helper that is late by one step installs such a pointer when a word's
  old and new values are equal; `RecoveryCanRefuse` is a run that gets there, and
  `Recover` succeeds if and only if there is none.
- Help chains climb in address order only as long as the helped operations are undecided;
  `ConflictsCanDescend` is a run in which one goes down, and `DepthUnbounded` shows that the recursion of
  a single reader has no bound in the number of words.
- `src/double-linked-list/doubly_linked_list.cc:468` reads two links raw and starts over when they are
  not what Delete expects, without helping. A stalled insert whose descriptor sits in one of them makes
  a Delete that runs alone go round for ever (`StalledInsertBlocksDelete`).
- Helpers that meet an operation already decided return at once (`src/mwcas/mwcas.cc:484-491`), and the
  reader that called them starts over: until the owner has written the final value it goes round for ever,
  without a change to anything (`ReadSpins`).
- `src/mwcas/mwcas.cc:54` speaks of at most 1024 partitions; the loop stops at 512 (`PoolSizes`).
- `src/bztree/bztree_smos.cc:87-88` calls the failure of the second assertion impossible. It fails
  exactly if the last key is at least as long as all others together (`PivotExists`). The first
  assertion, more than two records, fails in an ordinary run of five operations (`SplitCanFail`);
  for inner nodes neither ever fails (`InnerSplitNeverFails`). Neither can be judged from the split at hand
  alone: after seven inserts a leaf is split and the half for the key asserts (`FailsLater`). A write fails
  exactly if its leaf is `Doomed`: overfull, and not splittable or with a doomed half for the key.
- `src/bztree/bztree_smos.cc:144` concatenates siblings on the ground that the last separator of a node
  stays meaningful. After an erase it need not be the largest key below: inner splits and merges then
  lose keys, exactly as `SplitKeepsLookups` and `MergeKeepsLookups` say, and do so in ordinary runs
  (`SplitLosesKey`, `MergeLosesKey`).
- `src/bztree/bztree.h:171` says that traversals fail at most O(height) times. That they come to an end
  is proved (`FindLeafEnds`); a bound linear in the height is not claimed.

## Model

| member | source | states |
|---|---|---|
| MwcasShared.ActKeepsInv | src/mwcas/mwcas.cc:414-552 | every shared-memory action of the protocol keeps the word and descriptor invariant: each pointer in memory belongs to a live descriptor that covers the address, undecided descriptors hold a prefix of their words |
| MwcasShared.ActOnLogical | src/mwcas/mwcas.cc:414-552 | no action changes logical memory except the decision that makes a descriptor succeed, which writes all its new values |
| MwcasShared.CommitFindsOld | src/mwcas/mwcas.cc:535-541 | when a descriptor is decided as succeeded, every target word logically holds its expected value |
| MwcasShared.CommitSwapsAll | src/mwcas/mwcas.cc:535-541 | and after that step every target word logically holds its new value, all others are unchanged |
| MwcasThreads.FrameStable | src/mwcas/mwcas.cc:481-552 | what a thread relies on about its operation survives every step of any other thread |
| MwcasThreads.FrameStepOK | src/mwcas/mwcas.cc:627-756 | each step of an operation or reader is a legal action and leaves the thread with a true assertion, helpers included |
| MwcasMachine.SortWordsValid | src/mwcas/mwcas.cc:662-666 | sorting keeps the entries, makes addresses strictly increasing and keeps reserved zero addresses |
| MwcasMachine.UnreachableIsUnreferenced | src/mwcas/mwcas.cc:877-892 | a descriptor that no thread refers to is in no word, so it can be recycled |
| MwcasMachine.StepKeepsInv | src/mwcas/mwcas.cc:414-756 | calls, steps, helping and recycling keep the invariant of the whole machine |
| MwcasRuns.RunInv | src/mwcas/mwcas.cc:414-756 | the invariant holds in every state of every run, persistent or volatile |
| MwcasRuns.NeverStuck | src/mwcas/mwcas.cc:481-552 | a thread inside a call can always take its next step: no dangling index, address or descriptor |
| MwcasRuns.RunRefinesSwaps | src/mwcas/mwcas.cc:414-552 | every step of every run leaves logical memory unchanged, or is one descriptor's Undecided-to-Succeeded step, which swaps all its words from old to new at once |
| MwcasRuns.DecisionIsFinal | src/mwcas/mwcas.cc:535-541 | a descriptor is decided at most once per use and its words never change |
| MwcasRuns.AllReportTheSame | src/mwcas/mwcas.cc:723-755 | owner and helpers that finish an operation, at any times, report the same outcome |
| MwcasRuns.DoneIsNowhere | src/mwcas/mwcas.cc:877-892 | once the owner has finished the final-value loop, no target word holds the descriptor, then or later |
| MwcasRuns.FailedForAReason | src/mwcas/mwcas.cc:481-552 | a failed call met, at an instant inside it, a word whose logical value was not the expected one |
| MwcasRuns.SucceededAtomically | src/mwcas/mwcas.cc:481-552 | a successful call swapped all words at an instant inside it |
| MwcasRuns.SwapsOnce | src/mwcas/mwcas.cc:535-541 | there is only one such instant in a call |
| MwcasRuns.ResultIsAtomic | src/mwcas/mwcas.h:186-206 | the two results of MwCAS(), true and false, mean exactly the two cases above |
| MwcasRuns.CallWords | src/mwcas/mwcas.cc:662-666 | throughout a call its descriptor has exactly the words the call was given, in some order |
| MwcasRuns.CallIsAtomic | src/mwcas/mwcas.h:186-206 | for the words given to a call: true means that at an instant between call and return each of them goes from its old to its new value, all at once and nothing else; false that at such an instant one of them has another value than the old one |
| MwcasRuns.EverySwapIsOfACall | src/mwcas/mwcas.cc:414-552 | logical memory only ever changes by swapping exactly the words given to a call that is under way |
| MwcasRuns.FailedNeverSwapped | src/mwcas/mwcas.h:186-206 | a call that returns false has swapped nothing |
| MwcasRuns.ReadIsAtomic | src/mwcas/mwcas.h:593-657 | the value GetValue returns was the logical value of the word at an instant inside the call |
| MwcasRuns.ReadCallIsAtomic | src/mwcas/mwcas.h:593-657 | the same for the address given to the call, and an instant between call and return |
| MwcasAlone.QuietCall | src/mwcas/mwcas.cc:481-756 | from any reachable state, a call that runs alone on words with clean values is done within 6 * n + 7 steps for n words: it has swapped all its words if and only if they had their old values, otherwise nothing, and leaves clean values |
| MwcasAlone.QuietRead | src/mwcas/mwcas.h:593-657 | a reader alone on a word that holds a value returns it within two steps, and leaves it clean |
| MwcasAlone.CallReplacesCond | src/mwcas/mwcas.cc:420-441 | a call that meets a CondCAS pointer replaces it within two own steps: by the descriptor while that is undecided, otherwise by the old value |
| MwcasAlone.ReadReplacesCond | src/mwcas/mwcas.h:603-614 | so does a reader |
| MwcasAlone.ReadSpins | src/mwcas/mwcas.h:616-622 | a reader alone that meets a descriptor already decided is in exactly the same state after every three steps |
| MwcasPersist.DecidedWhenPersisted | src/mwcas/mwcas.cc:706-723 | in no run of the persistent variant is an operation decided as succeeded before the pointers in all its words have been persisted, helpers included |
| MwcasPersist.ReadIsPersisted | src/mwcas/mwcas.h:707-746 | the value a reader returns was in its word, persisted, at an instant between call and return |
| Recovery.RecoveredIsLogical | src/mwcas/mwcas.cc:129-224 | recovered memory has the logical content of memory at the crash: words that held values are untouched, all others hold their logical value, clean |
| Recovery.DescriptorPool.RollBack | src/mwcas/mwcas.cc:155-183 | an undecided or failed descriptor is taken out of all its words, which get the old values |
| Recovery.DescriptorPool.RollForward | src/mwcas/mwcas.cc:184-209 | a succeeded descriptor is replaced by its new values, or recovery stops, exactly if one of its CondCAS pointers is in memory |
| Recovery.DescriptorPool.RecoverSlot | src/mwcas/mwcas.cc:150-222 | one descriptor of the array, in any state, with the closing check |
| Recovery.DescriptorPool.Recover | src/mwcas/mwcas.cc:129-236 | for any order of the descriptor array, zeroed slots included: recovery succeeds if and only if the first slot is zeroed, or none is and no succeeded operation has a CondCAS pointer in memory; then memory is exactly its logical content, or untouched for a new pool, and all descriptors are finished |
| Recovery.NewPool | src/mwcas/mwcas.cc:129-236 | in a pool that is zeroed throughout there is nothing to recover: memory is its own logical content |
| MwcasWitness.CrashIsRecoverable | src/mwcas/mwcas.cc:129-236 | whenever a run crashes, memory and descriptors are what recovery is proved for |
| MwcasWitness.RecoveryCanRefuse | src/mwcas/mwcas.cc:197 | there is a reachable state in which that check fails |
| MwcasWitness.RefusedOnlyInsideCondCAS | src/mwcas/mwcas.cc:414-450 | it can fail only if the crash caught a thread between the two instructions of CondCAS on an operation that had already succeeded |
| MwcasHelping.StackClimbs | src/mwcas/mwcas.cc:662-703 | on a thread's stack of nested calls, the conflicting addresses strictly increase while the helped operations are undecided |
| MwcasHelping.DepthBounded | src/mwcas/mwcas.cc:662-703 | in every state of every run a stack is no deeper than (1 + d) times the number of words, plus 1, where d is the number of helped operations on it that are decided already |
| MwcasDepth.DepthUnbounded | src/mwcas/mwcas.cc:662-703 | without counting those there is no bound: for every n a stack deeper than n is reachable over a memory of one word |
| MwcasHelping.WaitClimbs | src/mwcas/mwcas.cc:662-703 | an undecided operation blocked by another one is blocked at a lower address than the other is |
| MwcasHelping.NoWaitCycle | src/mwcas/mwcas.cc:662-703 | in no state of any run does an operation wait, directly or through others, for itself |
| MwcasWitness.ConflictsCanDescend | src/mwcas/mwcas.cc:662-703 | the restriction to undecided operations is needed: a reachable stack whose addresses go down |
| Epoch.StepKeepsInv | src/common/epoch.cc:91-110 | reserving an entry, the two halves of Protect, Unprotect, bumping, each read of a scan, its store, unlinking, stamping, the safe test and destruction keep the invariant |
| Epoch.RunInv | src/common/epoch.cc:208-288 | it holds in every state of every interleaving |
| Epoch.HolderStays | src/common/epoch.h:74-90 | a thread protected at the unlink of an item counts as its holder until it leaves the protected region |
| Epoch.DestroyedWhenUnused | src/common/epoch.h:98-108 | when an item is destroyed, no thread that was protected when it was unlinked has stayed protected since, stalled Protect calls and overlapping scans included |
| Epoch.SafeBelowCurrent | src/common/epoch.cc:106-110 | safe_to_reclaim_epoch_ is below current_epoch_ in every state |
| EpochScan.ScanStoresLeast | src/common/epoch.cc:273-288 | in every interleaving, the safe epoch a scan stores is exactly one less than the least of the epoch at its bump and the nonzero epochs it met, having read every entry once in between |
| EpochScan.QuietScan | src/common/epoch.cc:273-288 | with a table that does not change meanwhile, that is the least of the epochs in the table and the epoch at the bump |
| EpochScan.QuietScanReclaims | src/common/epoch.cc:91-110 | with nobody protected during a bump and its scan, every item stamped before the bump can be reclaimed |
| EpochScan.ProtectedBetween | src/common/epoch.cc:208-226 | from the store of Protect() to the Unprotect() of its thread, the thread is protected in the epoch that was current at the load of that Protect() |
| EpochScan.UnprotectedBetween | src/common/epoch.cc:245-254 | and from Unprotect() to the next such store it is not |
| EpochScan.EpochCountsBumps | src/common/epoch.cc:91-94 | the current epoch is one more than the number of bumps |
| EpochScan.StampStays | src/common/garbage_list.h:210 | an item keeps the epoch that was current when it was stamped |
| GarbageRing.StepKeepsInv | src/common/garbage_list.h:208-307 | every step of Push and Scavenge, interleaved with the epoch machine, keeps slots, locks and items consistent |
| GarbageRing.RunInv | src/common/garbage_list.h:208-307 | so in every state of every run |
| GarbageRing.NeverStuck | src/common/garbage_list.h:208-307 | a thread inside Push or Scavenge can always go on; a callback is only ever run on an item that may be destroyed |
| GarbageRing.DestroyedAtMostOnce | src/common/garbage_list.h:208-307 | no item is destroyed twice, and only pushed items are |
| GarbageRing.CallbackIsSafe | src/common/garbage_list.h:238-252 | a callback concerns an item whose epoch was reported safe, and no thread that could hold it is still protected |
| GarbageRuns.PushEnters | src/common/garbage_list.h:208-257 | from the call on, the item of every Push of a run is accounted for, under the epoch that was current at the call |
| GarbageRuns.PushReturns | src/common/garbage_list.h:208-257 | once its Push has returned, an item is in a full slot under that epoch, or has been destroyed once |
| GarbageRuns.TakeAlone | src/common/garbage_list.h:213-219 | a Push takes the slot number before tail_, and bumps the epoch exactly if four times that is a multiple of the ring size |
| GarbageRuns.PushProbe | src/common/garbage_list.h:221-256 | one probe of a Push alone: if the slot is free or safe the occupant is destroyed and the call returns with its item there; otherwise the ring is as before |
| GarbageRuns.ScavengeAlone | src/common/garbage_list.h:264-307 | a Scavenge alone ends within 6 * n + 1 steps, having emptied exactly the slots whose epoch is safe and destroyed exactly their occupants |
| GarbageRing.QuiescentItems | src/common/garbage_list.h:161-183 | in a quiescent ring a pushed item has been destroyed once or is in a full slot |
| GarbageRing.Uninitialize | src/common/garbage_list.h:161-183 | after a quiescent Uninitialize every pushed item has been destroyed exactly once, and nothing else |
| GarbageRuns.UninitializeAfter | src/common/garbage_list.h:161-183 | for every run that ends quietly: over the run and Uninitialize together, the item of each Push of the run is destroyed exactly once, and nothing else |
| Partition.ExactlyOnePlace | src/mwcas/mwcas.cc:17-24 | every descriptor of a partition is in exactly one of free list, use and ring, and once |
| Partition.DescriptorPartition.constructor | src/mwcas/mwcas.cc:239-258 | all descriptors start on the free list, the ring is empty |
| Partition.DescriptorPartition.FreeDescriptor | src/mwcas/mwcas.cc:949-960 | the descriptor becomes the head of the intrusive free list, finished and empty |
| Partition.DescriptorPartition.Push | src/common/garbage_list_unsafe.h:173-216 | ends within as many probes as there are slots; the first slot in ring order that is free or safe gets the descriptor, a safe occupant goes to the free list, everything else stays |
| Partition.SomeSlotIsFree | src/common/garbage_list_unsafe.h:173-216 | while a descriptor is in use, some slot of the ring is free and is probed within one round |
| Partition.DescriptorPartition.Scavenge | src/common/garbage_list_unsafe.h:222-259 | exactly the slots whose epoch is safe are emptied, their occupants join the free list in slot order, and the count is theirs |
| Partition.DescriptorPartition.Allocate | src/mwcas/mwcas.cc:282-300 | returns a finished descriptor that was not in use, the head of the free list if there is one; succeeds if and only if the list was not empty or some round of scavenging finds a safe slot |
| Partition.PoolSizes | src/mwcas/mwcas.cc:48-63 | the pool is the least power of two that is large enough, partitions likewise up to 512, and their quotient is a power of two; rounding up ends if and only if some number of uint32 doublings reaches the request |
| Partition.DoublingEnds | src/mwcas/mwcas.cc:48-52 | and that is so exactly for requests of at most 2^31 |
| DList.StepKeepsInv | src/double-linked-list/doubly_linked_list.cc:353-485 | every read, store and MwCAS of the three operations keeps the list and deleted-node invariant |
| DList.RunInv | src/double-linked-list/doubly_linked_list.cc:353-485 | so in every state of every interleaving |
| DList.NeverStuck | src/double-linked-list/doubly_linked_list.cc:458-467 | nobody dereferences null or a pointer that carries the deleted mark |
| DList.PrevMirrorsNext | src/double-linked-list/doubly_linked_list.h:224-236 | at every moment the nodes met going forward from the head are those met going backward from the tail, mirrored, and none of them is deleted |
| DList.SpliceKeepsList | src/double-linked-list/doubly_linked_list.cc:391-399 | the two-word swap puts the node between two neighbours of the list |
| DList.UnspliceKeepsList | src/double-linked-list/doubly_linked_list.cc:472-481 | the three-word swap takes one node out and marks it |
| DList.InsertEffect | src/double-linked-list/doubly_linked_list.cc:353-454 | an insert returns exactly with the step that adds its own node, next to the position asked for unless that node has been deleted |
| DList.DeleteEffect | src/double-linked-list/doubly_linked_list.cc:456-485 | a delete removes at most its own node, in its last step, and when it returns the node is deleted or is the head or the tail |
| DList.StepEffect | src/double-linked-list/doubly_linked_list.cc:353-485 | no other step changes which nodes are in the list |
| DList.InsertLands | src/double-linked-list/doubly_linked_list.h:211-219 | for every call of either insert: the step with which it returns has put its node into the list directly before or after the node it was given, head and tail redirected, unless that node has been deleted |
| DListLanding.InsertLandsAfterHops | src/double-linked-list/doubly_linked_list.cc:370-372 | in every interleaving, it lands next to a node that is reached from the one it was given by links, each held by a deleted node at the instant it was followed |
| DListLanding.InsertLandsAlone | src/double-linked-list/doubly_linked_list.cc:370-372 | if only its thread moves, that is the first node of the list met when following next (prev for InsertAfter) |
| DListLanding.InsertLinks | src/double-linked-list/doubly_linked_list.cc:391-399 | an insert changes exactly two links of the list, those between the neighbours it comes between |
| DListLanding.DeleteLinks | src/double-linked-list/doubly_linked_list.cc:472-481 | a delete changes exactly the two links to its node and marks the node's next |
| DListLanding.OtherLinks | src/double-linked-list/doubly_linked_list.cc:353-485 | no other step changes a link of a node that is or was in the list |
| DList.DeleteLands | src/double-linked-list/doubly_linked_list.cc:456-485 | when a call of Delete returns, its node is deleted, or is the head or the tail |
| DList.InsertedAndDeletedOnce | src/double-linked-list/doubly_linked_list.cc:353-485 | over a whole run every node is inserted at most once and deleted at most once, and the counts say where it is |
| DList.HopLeadsOn | src/double-linked-list/doubly_linked_list.cc:370-372 | from a deleted node both links lead to a node in the list or to one deleted strictly later |
| DList.Fallback | src/double-linked-list/doubly_linked_list.cc:420-422 | on a quiet list the fallback loop of either insert reaches a node of the list, in no more hops than there are deleted nodes |
| DListAlone.InsertAloneReturns | src/double-linked-list/doubly_linked_list.cc:353-454 | from any reachable state and any point inside an insert: a thread that runs alone returns, whichever of its raw reads meet descriptors and in whatever order stalled MwCAS calls get completed on the way, within (m + 1) * (8 * (deleted + m) + 9) own steps, m being the number of stalled calls |
| DListAlone.DeleteReachesTest | src/double-linked-list/doubly_linked_list.cc:456-485 | a delete that runs alone is back at its loop test, or has returned, within five own steps |
| DListAlone.UnhelpedDeleteReturns | src/double-linked-list/doubly_linked_list.cc:456-485 | from the loop test, while no stalled MwCAS gets completed, the condition is on the raw views alone: it returns if and only if one whole pass meets no descriptor |
| DListAlone.UnhelpedDelete | src/double-linked-list/doubly_linked_list.cc:456-485 | both together, from any reachable state and any point inside a delete |
| DListDelete.DeleteAloneReturns | src/double-linked-list/doubly_linked_list.cc:456-485 | from the loop test in any reachable state, for all raw views and every order in which stalled MwCAS calls get completed: it returns if and only if, in some whole pass, no raw read meets a descriptor and no completion deletes the node or changes a link of it that the pass has read |
| DListDelete.DeleteInTime | src/double-linked-list/doubly_linked_list.cc:456-485 | from any reachable state and any point inside a delete: it returns within 6 * (m + b + 2) own steps, m being the number of stalled MwCAS calls and b that of raw reads that meet a descriptor |
| DListAlone.DeleteSpins | src/double-linked-list/doubly_linked_list.cc:468 | if each pass meets a descriptor at the neighbour check, then after any number of passes the state is exactly the same |
| DListAlone.StalledInsertBlocksDelete | src/double-linked-list/doubly_linked_list.cc:468 | such a state is reachable: with another thread stalled in the MwCAS of an insert, Delete alone goes round for ever |
| BzKeys.LessOrders | src/bztree/bztree_helpers.cc:189 | the order of keys is a strict total order |
| BzKeys.LessTerminated | src/bztree/bztree_smos.cc:24-26 | keys with their terminators compare as the strings do |
| BzSmo.SortFacts | src/bztree/bztree_smos.cc:12-28 | copy_out's list is sorted, has the same records and takes the same space |
| BzSmo.PivotExists | src/bztree/bztree_smos.cc:76-90 | a split point exists if and only if there are more than two records and the last key is shorter than all others together; it lies where the key bytes first exceed half, or one earlier if only one record would be left on the right |
| BzSmo.FindPivot | src/bztree/bztree_smos.cc:78-90 | the loop that moves sep computes that point |
| BzBytes.PackRoundTrip | src/bztree/bztree.h:71-78 | a metadata word gives back its fields, and its three top bits are clear |
| BzBytes.StatusWordClean | src/bztree/bztree.h:55-61 | the same for the status word |
| BzBytes.CStrReads | src/bztree/bztree.cc:278-282 | a terminated string without NUL inside is what strcmp sees at its offset |
| BzLayout.AddLaid | src/bztree/bztree.cc:93-162 | a new metadata word and a block below all others leave every record readable, areas disjoint and space accounted for |
| BzLayout.MoveLaid | src/bztree/bztree.cc:216-252 | the same when a record moves to a new block and its old one counts as deleted |
| BzLayout.HideLaid | src/bztree/bztree.cc:315-325 | the same when a record is made invisible |
| BzLayout.RecsSize | src/bztree/bztree_helpers.cc:69-74 | the bytes of visible records are what the tree counts as live |
| BzNode.NewSlotIsZero | src/bztree/bztree.cc:106-110 | the metadata word about to be reserved is not visible, as insert asserts |
| BzNode.Node.Scan | src/bztree/bztree.cc:177-178 | finds the visible record with the key, or there is none |
| BzNode.Node.Lookup | src/bztree/bztree.cc:267-289 | reading bytes gives what the list of records holds under the key |
| BzNode.Node.Insert | src/bztree/bztree.cc:63-162 | on the bytes: refused exactly if the key is there, too large exactly if the space in use says so, and otherwise the record is added and nothing else changes |
| BzNode.Node.Update | src/bztree/bztree.cc:164-265 | on the bytes: refused exactly if the key is missing; otherwise the value is replaced and the old block is counted as deleted |
| BzNode.Node.Erase | src/bztree/bztree.cc:291-339 | on the bytes: true exactly if the key is there, which is then gone and counted as deleted |
| BzNode.Node.CopyOut | src/bztree/bztree_smos.cc:12-28 | the visible records as stored, sorted |
| BzNode.CopyIn | src/bztree/bztree_smos.cc:32-61 | a fresh node with exactly the given pairs in order, nothing deleted, all sorted |
| BzNode.CopyInThenOut | src/bztree/bztree_smos.cc:12-61 | copy_out after copy_in returns the list it was given, for every sorted list that fits |
| BzNode.CompactLeaf | src/bztree/bztree_smos.cc:63-67 | same records, fully sorted, no deleted bytes |
| BzNodeSmo.SplitLeaf | src/bztree/bztree_smos.cc:73-98 | the new leaves hold the left and right part of the sorted records, and the keys handed to the parent are their last ones; fails exactly if an assertion does |
| BzNodeSmo.MergeLeaves | src/bztree/bztree_smos.cc:145-160 | the new leaf holds the records of both, in order |
| BzInner.InnerBytes | src/bztree/bztree_smos.cc:32-61 | the bytes copy_in uses for the entries of an inner node are what the tree counts |
| BzInner.FreeSpace | src/bztree/bztree_helpers.cc:69-74 | free_space of an inner node is the tree's |
| BzInner.InOrderEntries | src/bztree/bztree_smos.cc:32-61 | what the tree's invariant says of an inner node is what storing it needs |
| BzInner.EntryReads | src/bztree/bztree_helpers.cc:187-193 | metadata, separator and pointer of an entry are read back from the bytes, and total_len is key_len + 8 as asserted |
| BzInner.Descend | src/bztree/bztree_helpers.cc:187-193 | the loop over the bytes of an inner node ends at the child the tree routes to, and reads its pointer |
| BzInner.SplitInner | src/bztree/bztree_smos.cc:73-98 | on bytes, the new inner nodes hold the two halves of the entries with their pointers, and the keys handed up are their last separators; fails exactly if an assertion does |
| BzInner.MergeInner | src/bztree/bztree_smos.cc:144-160 | on bytes, the new inner node holds the entries of both with their pointers |
| BzInner.FindPointer | src/bztree/bztree_smos.cc:113-121 | the search by masked pointer ends at the entry of the child |
| BzInner.SplitParent | src/bztree/bztree_smos.cc:107-134 | on bytes, the new parent is the old one with the entry of the child replaced by those of its halves, everything else in place |
| BzInner.NewRoot | src/bztree/bztree_smos.cc:128-134 | a split of the root gives a root with the two halves |
| BzInner.MergeParent | src/bztree/bztree_smos.cc:149-170 | on bytes, the new parent has the new child under the right one's key, the left entry is gone, everything else in place |
| BzNodeSmo.WordsClean | src/bztree/bztree.cc:115-116 | every status or metadata word passed to AddEntry has its three top bits clear |
| BzTreeInv.FindChild | src/bztree/bztree_helpers.cc:187-192 | the first separator not below the key, the last one counting as infinity |
| BzTreeInv.RouteUnique | src/bztree/bztree_helpers.cc:187-192 | a key within a child's bounds is routed to that child |
| BzTreeInv.WithinBounds | src/bztree/bztree_helpers.cc:187-192 | all records of a subtree lie within its bounds |
| BzTreeInv.LookupFinds | src/bztree/bztree.cc:267-289 | lookup returns v for k if and only if the record (k, v) is in some leaf |
| BzTreeSmo.CompactKeeps | src/bztree/bztree_smos.cc:63-67 | compaction keeps bounds and records |
| BzTreeSmo.SplitLeafKeeps | src/bztree/bztree_smos.cc:73-127 | the halves of a leaf are within the bounds their separators give them; off the right spine the separators are their largest keys |
| BzTreeSteps.SplitInnerKeeps | src/bztree/bztree_smos.cc:73-127 | the halves of an inner node are within theirs |
| BzTreeSteps.HalvesHave | src/bztree/bztree_smos.cc:92-98 | the halves together hold exactly the records of the node |
| BzTreeSteps.SplitChildKeeps | src/bztree/bztree_smos.cc:107-134 | the parent with the two halves is in order and still fits, if 48 bytes were free |
| BzTreeSteps.SplitUsed | src/bztree/bztree_smos.cc:123-127 | with keys of at most 16 bytes a split adds at most 47 bytes to the parent |
| BzTreeSteps.JoinLeaves | src/bztree/bztree_smos.cc:144-147 | the merged leaf is in order within the bounds of the pair |
| BzTreeSteps.JoinInner | src/bztree/bztree_smos.cc:144-147 | the same for inner nodes, as long as separators are the largest keys below them |
| BzTreeSteps.JoinHas | src/bztree/bztree_smos.cc:144-147 | the merged node holds exactly the union |
| BzTreeSteps.JoinRoom | src/bztree/bztree_helpers.cc:324 | a pair that passes the space test merges into a node with at least 64 bytes free, so it is not split at once |
| BzTreeSteps.MergeChildrenKeep | src/bztree/bztree_smos.cc:159-170 | the parent with the merged child under the right one's separator is in order |
| BzTreeTraverse.BelowKeeps | src/bztree/bztree_helpers.cc:168-369 | whichever structural change a traversal makes below the root, the tree stays in order and keeps its records |
| BzTreeTraverse.TraverseKeeps | src/bztree/bztree_helpers.cc:76-369 | the same for the whole traversal with the root's compaction and split, for any height without erase, up to height 2 with it |
| BzTreeTraverse.Room | src/bztree/bztree_helpers.cc:220-223 | the leaf a traversal with structural changes returns has at least 48 bytes free |
| BzTreeTraverse.InnerSplitNeverFails | src/bztree/bztree_smos.cc:76-88 | an inner node that is due for a split meets both assertions |
| BzTreeTraverse.TraverseFails | src/bztree/bztree_smos.cc:76-88 | an assertion can only fail at the leaf for the key, overfull, not due for compaction, and not splittable |
| BzTreeTopmost.TraverseTopmost | src/bztree/bztree_helpers.cc:76-369 | a traversal reaches the leaf if and only if no node on the path has over 100 deleted bytes, over 192 bytes in use, or a neighbour with which it has at most 176; otherwise it makes the change due at the topmost such node, in that order, left neighbour first, and no other |
| BzTreeDoomed.RestartKeepsDoom | src/bztree/bztree_helpers.cc:76-369 | whatever a traversal for a key changes, the leaf for the key is doomed afterwards if and only if it was before |
| BzTreeDoomed.StopsByDoom | src/bztree/bztree_smos.cc:76-88 | a traversal that changes nothing fails an assertion if and only if the leaf is doomed |
| BzTreeDoomed.DoomedForEver | src/bztree/bztree_helpers.cc:23-30 | so however often a write starts over: with a doomed leaf it never reaches the leaf, and without one it never fails |
| BzTreeWrites.WritesGetThrough | src/bztree/bztree.cc:63-265 | in every state of every run without erase, an insert or update restarts finitely often and can then be performed if and only if the leaf for its key is not doomed |
| BzTreeWrites.FailsLater | src/bztree/bztree_smos.cc:76-88 | seven inserts reach a leaf that can be split, is split by the next write for its first key, and whose half then fails the second assertion; for its last key it does not fail |
| BzTreeRestart.RestartLowers | src/bztree/bztree_helpers.cc:76-369 | every traversal that changes the structure lowers one level of a measure (deleted bytes and overfull bytes of the node on the path, number of nodes) and leaves all levels nearer the leaves as they are |
| BzTreeRestart.BetterRank | src/bztree/bztree_helpers.cc:76-369 | read from the leaves up, the measure falls lexicographically |
| BzTreeRestart.EndlessRestartsGrow | src/bztree/bztree_helpers.cc:23-30 | so restarts for one key can only go on for ever if the tree grows beyond every height |
| BzTreeEnds.HeightNeedsLeaves | src/bztree/bztree_helpers.cc:119-125 | levels added during restarts have at most about half as many nodes as those below, so the height is bounded by the number of leaves |
| BzTreeEnds.StaysBounded | src/bztree/bztree_helpers.cc:76-369 | every restart keeps the height below a bound that is fixed when the loop starts |
| BzTreeEnds.FindLeafEnds | src/bztree/bztree_helpers.cc:23-30 | find_leaf ends, for every tree in order of any height without erase and every key: after finitely many restarts a traversal fails an assertion if and only if the leaf for the key was doomed before the first, and otherwise reaches the leaf |
| BzTreeRuns.NeverTooLarge | src/bztree/bztree.cc:95-102 | the "too large to fit" branches of insert and update are never taken |
| BzTreeRuns.WithLeafKeeps | src/bztree/bztree.cc:63-265 | replacing the leaf for a key keeps the tree in order |
| BzTreeRuns.WithLeafHas | src/bztree/bztree.cc:63-265 | and changes only what the tree holds under that key |
| BzTreeRuns.StepRefines | src/bztree/bztree.cc:63-339 | every structural change, insert, update, erase and lookup answers as a string map does and leaves the tree with the map's new contents |
| BzTreeRuns.RunKeeps | src/bztree/bztree.cc:63-339 | over every run without erase, and every run of height at most 2 with erase, the tree is in order, separators strictly increase, and its records are those of the map |
| BzTreeRuns.RunRefinesMap | src/bztree/bztree.cc:63-339 | over those runs every answer is the map's answer |
| BzTreeRuns.RunAnswers | src/bztree/bztree.cc:63-339 | the same with the sizes written out: insert answers true exactly if the key is new and key and value have at most 38 bytes together, update exactly if it is there and the same holds |
| BzTreeLimits.SplitCanFail | src/bztree/bztree_smos.cc:76 | five inserts and updates reach a tree on which every further write fails the first assertion |
| BzTreeLimits.SplitOverflows | src/bztree/bztree_smos.cc:123-127 | a split makes the parent larger than a node exactly if the new keys, less the old one, exceed its free space less 17 |
| BzTreeLong.LongKeysOverflow | src/bztree/bztree_smos.cc:123-134 | keys of 38 bytes, which insert accepts, can do that: a run of inserts from the empty tree, all of them complete, after which the root uses 183 bytes and the traversal of the next insert makes it 275 |
| BzTreeLookups.LookupAfterSplit | src/bztree/bztree_smos.cc:107-134 | every lookup after the split of a child, at any height: as before, except that keys beyond the child's own last separator are not found |
| BzTreeLookups.LookupAfterMerge | src/bztree/bztree_smos.cc:144-170 | every lookup after a merge: as before, except that keys of the left child beyond its own last separator are not found |
| BzTreeLost.SplitKeepsLookups | src/bztree/bztree_smos.cc:124-127 | at any height, splitting a child keeps all lookups if and only if it is the last child or no record below it exceeds its own last separator; otherwise a record is lost |
| BzTreeLost.MergeKeepsLookups | src/bztree/bztree_smos.cc:144-170 | at any height, merging two children keeps all lookups if and only if no record below the left one exceeds its own last separator; otherwise a record is lost |
| BzTreeLost.BelowLookups | src/bztree/bztree_helpers.cc:168-369 | the same if and only if for whichever change a traversal makes below a node |
| BzTreeLost.TraverseLookups | src/bztree/bztree_helpers.cc:76-369 | and for whole traversals: they keep all lookups exactly if the change they make is a safe one, and otherwise a record is lost |
| BzTreeToy.ToyStep | src/bztree/bztree.cc:63-339 | a step of the description by numbers is a step of the tree described |
| BzTreeErase.SplitLosesKey | src/bztree/bztree_smos.cc:124-127 | there is a run of complete calls from the empty tree that ends with an update for which an inner child of the root is split: before the split the tree holds what the map holds under some key, and after the update a lookup of it finds nothing |
| BzTreeErase.MergeLosesKey | src/bztree/bztree_smos.cc:144-147 | the same with a merge of the root's two inner children; by RunRefinesMap both runs contain an erase |

## Left out

- The two instructions behind the conditional swap of CondCAS, reading the status and swapping the pointer, are one step; atomicity is claimed at that granularity.
- Progress of MwCAS beyond QuietCall and QuietRead: no claim that a call ends that meets other operations; ReadSpins is one that does not.
- Cache-line flushing and what reaches NVRAM: a crash keeps memory contents. The PMDK address adjustment and the RTM path are not part of this model.
- The WithFailure variants of MwCAS, recycle policies and the deallocation of values, metrics, and the allocated_desc counter.
- Weak memory: all interleavings are sequentially consistent.
- Flag bits of MwCAS words: a word is a datatype, and user values are taken not to look like descriptor pointers.
- The owner's first look at its status, and the load before a persisting CAS, are merged with the step that follows.
- Recycle: that epochs delay it until no thread refers to the descriptor is proved for the epoch machine, not in the MwCAS machine.
- Several epoch managers per thread, whose thread-local entry they share; one manager is modelled.
- Partition.DescriptorPartition.Allocate: the source scavenges for ever; the model tries a given list of rounds and returns None if none helps.
- GarbageRuns.PushProbe: one probe at a time; a Push that never meets a slot that is free or safe goes on for ever.
- Freeing and reusing the memory of deleted list nodes: a node is inserted once. CASDList and the cursor are not part of this model.
- BzTree under concurrency, frozen bits, and the pairing of Protect and Unprotect: operations run one at a time, and each of its MwCAS calls succeeds.
- Refinement of the map by runs with erase above height 2, which is false (SplitLosesKey, MergeLosesKey); what holds there is the exact condition of TraverseLookups for a tree in order, not over runs that have lost keys already.
- The tree is a value and a structural change a new value; swap_node, which node a pointer leads to, and when old nodes are freed are not captured. The bytes of single nodes are changed in place, and the pointers of inner nodes are words.
- BzTreeEnds.FindLeafEnds: not for trees from which keys have been erased, whose separators need not be the largest keys below them, so that a split can send a key to another leaf; and without a bound on the number of restarts.
- The refinement is for keys of at most 15 bytes without terminator; beyond, a split can overflow the parent (LongKeysOverflow), so that its blocks run into its metadata.
- Thread registry, allocators, environments, benchmarks, debug printing and the vendored logging and flag libraries.
