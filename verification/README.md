# Verified models of go-datastructures

A Dafny model of the parts of this collection whose correctness is hardest to see, with
proofs that they do what their documentation and tests promise. One file per component:

- `RingBuffer.dfy`: the lock-free multi-producer multi-consumer ring buffer, as a step
  machine in which every atomic load, CAS or store is one step, refines a bounded FIFO queue.
  `RingOutcomes.dfy`: why each of its calls ends as it does.
- `Gcas.dfy`: the generation-compare-and-swap of the Ctrie, as a step machine with any
  number of writers, readers and helpers. `GcasOutcomes.dfy`: which root decides an attempt,
  and what a read returns.
- `CtrieNodes.dfy`, `CtrieStore.dfy`, `Ctrie.dfy`: the Ctrie with snapshots, used by one
  goroutine at a time, over a store of I-nodes that tries and snapshots share. Every run of
  calls has the effect it would have on maps that share nothing.
- `BTree.dfy`: insertion with pre-emptive splits and deletion with steals and merges.
- `FibNodes.dfy`, `FibHeap.dfy`: the Fibonacci heap with consolidation, cascading cuts and marks, and the
  Fibonacci bound on degrees.
- `IntervalTree.dfy`: the top-down red-black interval tree with subtree ranges.
- `SymMerge.dfy`: the in-place symmetric merge.
- `TimeWheel.dfy`, `DelayQueue.dfy`: the hierarchical timing wheel, in which every timer
  added runs exactly once, and the sleep and wakeup handshake of its queue. `WheelTimes.dfy`:
  when and by which call each timer is started, and where it waits.
- `HashMap.dfy`: linear probing with re-insertion on delete.
- `Hilbert.dfy`: the Hilbert curve, both directions, within machine integers.
- `Bits.dfy`, `Basics.dfy`: powers of two and masks, and what else several of them share.

Where a promise does not hold of the code, the model keeps the code as it is and states
exactly when the promise holds:

- The ring buffer is a bounded FIFO queue if and only if it has at least two slots
  (`RingBuffer.FifoIffTwoSlots`, `RingOutcomes.NewIsFifoIff`).
- gcasRead returns only committed nodes in all runs if and only if direct loads of
  `in.main`, such as cleanParent makes, meet only committed nodes
  (`Gcas.ReadsCommittedIffNoRawLoads`); whatever they meet, it does so for as long as no
  helper has met another generation or a read-only trie
  (`Gcas.ReadsCommittedWithoutMismatch`, `GcasOutcomes.BeforeTheFirstSnapshot`).
- SymMerge is stable if and only if the first list is at most one longer than the second,
  or the second is empty (`SymMerge.StableIffNotMuchLonger`).
- The hash map's Len is the number of its keys if and only if no Set has replaced a value
  (`HashMap.FastIntegerHashMap.Len`).
- Delete of a Fibonacci heap entry whose own priority is not below -math.MaxFloat64 takes
  it out if and only if no other entry's is, as negative infinity would be
  (`FibHeap.Heap.Delete`). An entry that is below it is raised by Delete, which keeps the
  heap order if and only if no child of it is below (`FibNodes.RaiseKeepsOrderIff`).
- Merge of the Fibonacci heap counts right if and only if the two heaps are different ones
  or empty (`FibHeap.Heap.Merge`).
- add of the timing wheel ends for every timer if and only if wheels have at least two
  buckets; with fewer it ends only for timers due within the tick
  (`TimeWheel.WheelsNeedTwoBuckets`, `TimeWheel.EndsIff`).

Keys, values and items are integers where the code only compares or copies them, and the
hash functions are arbitrary. `dafny verify dfyconfig.toml` checks the whole project.
Lemmas carry `{:induction false}`: every induction is written out.

## Model

| member | source | states |
|---|---|---|
| `Bits.RoundUpIsLeastPower` | queue/ring.go:27-37 | the shift-and-or cascade plus one is the least power of two above its argument, on 64-bit words |
| `Bits.RoundUpIsLeast` | hashmap/fastinteger/hashmap.go:27-37 | on numbers, RoundUp is the least power of two that is at least its argument |
| `Bits.MaskIsRemainder` | hashmap/fastinteger/hashmap.go:47-49 | the bitwise and of a number with a power of two less one is its remainder by that power |
| `RingBuffer.IndexIsRemainder` | queue/ring.go:96-96 | the index of a ticket, found by taking off laps, is its remainder by the number of slots |
| `RingBuffer.IndexIsMask` | queue/ring.go:69-96 | with a power of two of slots that index is the bitwise `pos & mask` |
| `RingBuffer.InitialInv` | queue/ring.go:63-70 | the initialised buffer satisfies the invariant |
| `RingBuffer.EnqueueCasHasRoom` | queue/ring.go:96-102 | a producer that wins its CAS found room in the FIFO queue |
| `RingBuffer.DequeueCasHasItem` | queue/ring.go:149-155 | a consumer that wins its CAS found an item |
| `RingBuffer.EnqueueCasKeepsInv` | queue/ring.go:99-102 | winning the enqueue CAS keeps the invariant |
| `RingBuffer.DequeueCasKeepsInv` | queue/ring.go:152-155 | winning the dequeue CAS keeps the invariant |
| `RingBuffer.PublishKeepsInv` | queue/ring.go:116-118 | writing data and publishing `pos + 1` keeps the invariant |
| `RingBuffer.ReleaseKeepsInv` | queue/ring.go:168-171 | reading data, clearing it and publishing `pos + mask + 1` keeps the invariant |
| `RingBuffer.StepKeepsInv` | queue/ring.go:87-172 | every atomic load, CAS or store of any thread, and Dispose, keeps the invariant |
| `RingBuffer.RunInv` | queue/ring.go:87-189 | the invariant holds in every state of every run with at least two slots |
| `RingBuffer.MoveIsFifoStep` | queue/ring.go:87-172 | which step does what to the FIFO queue: the enqueue CAS appends the thread's own item, the dequeue CAS removes the head, all others change nothing |
| `RingBuffer.RunIsFifo` | queue/ring.go:63-172 | every run with any number of producers and consumers is a run of a FIFO queue bounded by the capacity |
| `RingBuffer.PollReturnsTheHead` | queue/ring.go:134-172 | the value a Poll returns is the head of the queue when its CAS won, which is the item of the Put with the same ticket |
| `RingBuffer.PutEnqueuedItsItem` | queue/ring.go:87-119 | a Put that reports success enqueued its own item under its own ticket |
| `RingBuffer.EveryTicketIsSomewhere` | queue/ring.go:87-172 | nothing is lost or duplicated: each ticket is in exactly one of four places |
| `RingBuffer.OneOwnerPerSlot` | queue/ring.go:96-171 | no two threads are ever inside one slot |
| `RingBuffer.OneSlotOverflows` | queue/ring.go:87-119 | with one slot two Puts succeed with no Poll between them |
| `RingBuffer.FifoIffTwoSlots` | queue/ring.go:63-172 | the buffer is a bounded FIFO queue in every run if and only if it has at least two slots |
| `RingOutcomes.DisposedAfterDispose` | queue/ring.go:93-96 | in every run, a call that ends with Disposed does so after Dispose took effect, and `disposed` is set then |
| `RingOutcomes.RejectedAfterDispose` | queue/ring.go:93-187 | in every run, a call begun after Dispose, and every later one of its thread, gets to no slot and can only end with Disposed |
| `RingOutcomes.RefusedBecause` | queue/ring.go:87-119 | in every run, only an Offer answers false, and only if in one step of the call another producer had its ticket, the buffer was full, or a Poll was still emptying the slot |
| `RingOutcomes.TimedOutBecause` | queue/ring.go:134-172 | in every run, a Poll times out only if in one step of the call another consumer had its ticket, the buffer was empty, or a Put was still filling the slot |
| `RingOutcomes.NoEarlyTimeout` | queue/ring.go:162-164 | no step of a Poll ends with a timeout before its time |
| `RingOutcomes.PutTookEffect` | queue/ring.go:87-119 | in every run, a successful Put or Offer appended exactly its item to the queue, while there was room, in one step between call and return |
| `RingOutcomes.PollTookEffect` | queue/ring.go:134-172 | in every run, a successful Poll removed the head of the queue in one step between call and return, and that head is what it returns |
| `RingOutcomes.CallWhenDisposed` | queue/ring.go:93-148 | a call on a disposed buffer ends with Disposed and changes nothing |
| `RingOutcomes.PollAlone` | queue/ring.go:134-172 | from every state of every run, a Poll that moves alone returns the head if there is one and its Put is done; otherwise it changes nothing and times out or goes round again as the clock says |
| `RingOutcomes.PutAlone` | queue/ring.go:87-119 | from every state of every run, a Put or Offer that moves alone appends its item if there is room and no Poll still in the slot; otherwise it changes nothing, and Offer answers false while Put goes round again |
| `RingOutcomes.NewIsFifoIff` | queue/ring.go:63-71 | NewRingBuffer of a size gives a bounded FIFO queue if and only if the size is at least two |
| `Gcas.StepKeepsInv` | trie/ctrie/ctrie.go:776-841 | every step of writers, readers and helpers keeps the invariant of nodes, I-nodes and threads |
| `Gcas.RunInv` | trie/ctrie/ctrie.go:776-841 | so it holds in every state of every interleaving |
| `Gcas.ResolvesOnce` | trie/ctrie/ctrie.go:799-841 | an attempt is resolved at most once: `prev` goes from the old node to nil or to failed(old), and never changes again |
| `Gcas.TrueIffCommitted` | trie/ctrie/ctrie.go:776-786 | gcas returns true if and only if its node is committed, then and in every later state, whatever its thread does next |
| `Gcas.RefusedForGood` | trie/ctrie/ctrie.go:776-786 | a node whose gcas lost its first CAS is never installed |
| `Gcas.StepKeepsStrict` | trie/ctrie/ctrie.go:776-841 | while direct loads of `in.main` meet only committed nodes, only committed nodes are ever displaced |
| `Gcas.ReadIsLinearizable` | trie/ctrie/ctrie.go:789-796 | in such runs gcasRead returns a committed node that was the I-node's value at some moment of the call |
| `Gcas.FailureRestores` | trie/ctrie/ctrie.go:811-820 | in such runs a failed node is only ever replaced by the committed node it had displaced |
| `Gcas.StepIsAtomicCas` | trie/ctrie/ctrie.go:776-841 | in such runs each I-node is an atomic compare-and-swap register: a step changes no value or commits one attempt on the value it expected |
| `Gcas.RawLoadsBreakReads` | trie/ctrie/ctrie.go:734-740 | once a direct load of `in.main` meets a pending node, a gcasRead can return a pending node |
| `Gcas.ReadsCommittedIffNoRawLoads` | trie/ctrie/ctrie.go:734-841 | gcasRead returns committed nodes in all runs if and only if direct loads of `in.main` meet only committed nodes |
| `Gcas.ReadsCommittedWithoutMismatch` | trie/ctrie/ctrie.go:789-841 | whatever direct loads meet, gcasRead returns only committed nodes for as long as no helper has met another generation or a read-only trie |
| `GcasOutcomes.GenerationDecides` | trie/ctrie/ctrie.go:823-837 | in every run, a committed attempt had a helper that, while the attempt was pending in its I-node, read a root of the I-node's generation of a trie that may be written; a failed one had a helper that read another root |
| `GcasOutcomes.BeforeTheFirstSnapshot` | trie/ctrie/ctrie.go:799-841 | while all roots have the generation of all I-nodes and no trie is read-only, no attempt fails and gcasRead returns only committed nodes, whatever direct loads meet |
| `GcasOutcomes.GcasLoses` | trie/ctrie/ctrie.go:776-786 | a gcas whose I-node does not hold the expected node answers false and changes nothing |
| `GcasOutcomes.GcasAlone` | trie/ctrie/ctrie.go:776-841 | in every run, a gcas alone on an I-node that holds the expected node answers true exactly if the root it reads is of the I-node's generation and writable; then the I-node holds the new node, committed, otherwise what it held before |
| `GcasOutcomes.GcasReadAlone` | trie/ctrie/ctrie.go:789-841 | in every run, a gcasRead alone returns a committed node as it is, puts back and returns the node before a failed one, and first resolves a pending one as the root says |
| `GcasOutcomes.ReadHadItsValue` | trie/ctrie/ctrie.go:789-796 | in every run whose direct loads meet only committed nodes, what gcasRead returns was the value of its I-node in some state between the call and the return |
| `CtrieNodes.GetPresent` | trie/ctrie/ctrie.go:755-761 | a set bit's position, the number of set bits below it, is within the array, and each clear bit has no branch |
| `CtrieNodes.BranchHasBit` | trie/ctrie/ctrie.go:755-761 | every array position belongs to exactly the set bit of that rank |
| `CtrieNodes.InsertedGets` | trie/ctrie/ctrie.go:139-151 | inserting sets one branch, keeps all others, and the array length stays the number of set bits |
| `CtrieNodes.UpdatedGets` | trie/ctrie/ctrie.go:155-161 | updating replaces one branch and keeps all others |
| `CtrieNodes.RemovedGets` | trie/ctrie/ctrie.go:165-178 | removing clears one branch and keeps all others; the array length stays the number of set bits |
| `CtrieNodes.ListRemovedFinds` | trie/ctrie/ctrie.go:236-245 | removing a key from a list node loses exactly that key |
| `CtrieNodes.ListInsertedFinds` | trie/ctrie/ctrie.go:231-233 | inserting into a list node binds exactly that key |
| `CtrieStore.FindPasses` | trie/ctrie/ctrie.go:538-588 | a search from the root passes every I-node whose place matches the key's hash chunks |
| `CtrieStore.FindFramed` | trie/ctrie/ctrie.go:538-588 | a search does not see changes off its path or in I-nodes its trie does not reach |
| `CtrieStore.StepFinds` | trie/ctrie/ctrie.go:776-786 | one write is seen exactly by the searches that meet the rewritten I-node |
| `CtrieStore.StepReach` | trie/ctrie/ctrie.go:80-86 | after a write a trie reaches only new I-nodes and I-nodes it reached before |
| `CtrieStore.StepMoves` | trie/ctrie/ctrie.go:464-532 | writes of the root's generation form a run of writes that touches only what the trie reaches |
| `CtrieStore.OthersReach` | trie/ctrie/ctrie.go:322-340 | a trie that does not reach what is written reaches the same afterwards |
| `CtrieStore.OthersFind` | trie/ctrie/ctrie.go:322-340 | and finds the same afterwards |
| `CtrieStore.Contracts` | trie/ctrie/ctrie.go:671-682 | a C-node and its contraction hold the same for every key that comes by |
| `CtrieStore.WriteFinds` | trie/ctrie/ctrie.go:464-532 | a write that keeps all branches but one is seen only by the keys of that branch |
| `CtrieStore.PairOfEntries` | trie/ctrie/ctrie.go:116-135 | a new C-node with two singletons holds exactly the two entries |
| `CtrieStore.PairBelow` | trie/ctrie/ctrie.go:116-135 | a new C-node over a deeper pair holds exactly the two entries |
| `CtrieStore.PairInList` | trie/ctrie/ctrie.go:116-135 | past the last chunk a list node holds exactly the two entries, however much their hashes collide |
| `CtrieStore.RenewWrites` | trie/ctrie/ctrie.go:182-193 | renewing the children of an I-node changes no search, lengthens no path, and leaves the next I-node in the root's generation |
| `CtrieStore.EntryWrites` | trie/ctrie/ctrie.go:471-519 | writing a singleton into a free branch, or over one with the same key, puts exactly that entry |
| `CtrieStore.PairWrites` | trie/ctrie/ctrie.go:496-514 | replacing a singleton by a new I-node puts exactly the new entry and keeps the old one |
| `CtrieStore.RemovalWrites` | trie/ctrie/ctrie.go:620-645 | removing a singleton, contracted or not, removes exactly that key |
| `CtrieStore.ListWrites` | trie/ctrie/ctrie.go:652-661 | rewriting a list node keeps the invariant |
| `CtrieStore.TidyWrites` | trie/ctrie/ctrie.go:685-713 | resurrecting tombs and contracting is a step that keeps every branch's contents |
| `CtrieStore.Cleaned` | trie/ctrie/ctrie.go:715-721 | cleaning changes no search and makes the path through a tomb shorter |
| `CtrieStore.DroppedFromList` | trie/ctrie/ctrie.go:652-661 | removal from a list node, with the last entry entombed, removes exactly that key |
| `CtrieStore.ListsAll` | trie/ctrie/ctrie.go:387-423 | the entries of all branches are the entries of the I-node |
| `CtrieStore.LeafYields` | trie/ctrie/ctrie.go:387-423 | tombs and list nodes yield exactly their entries |
| `CtrieStore.ListCounts` | trie/ctrie/ctrie.go:372-383 | a list with a map's entries once each is as long as the map |
| `CtrieStore.RemovalIsCompact` | trie/ctrie/ctrie.go:667-682 | removing an entry and contracting leaves an I-node below a root no empty C-node and no lone entry that is not a tomb |
| `CtrieStore.LeadsToEntry` | trie/ctrie/ctrie.go:667-682 | no I-node below a root is dead: where all main nodes below roots are compact, as in every state the class reaches, each I-node leads to an entry whose hash starts with its place |
| `Ctrie.OnlyItself` | trie/ctrie/ctrie.go:322-340 | snapshot isolation: what one trie writes leaves the contents and isolation of every other trie unchanged |
| `Ctrie.CopyKeeps` | trie/ctrie/ctrie.go:80-86 | going over to a copied root in a new generation keeps all contents and isolates the trie from all others |
| `Ctrie.ShareKeeps` | trie/ctrie/ctrie.go:330-334 | an old root may be shared by read-only tries |
| `Ctrie.ClearKeeps` | trie/ctrie/ctrie.go:343-355 | an empty root in a new generation is isolated from all other tries |
| `Ctrie.Tries.constructor` | trie/ctrie/ctrie.go:269-283 | New is one empty trie that may be written |
| `Ctrie.Tries.NewMain` | trie/ctrie/ctrie.go:116-135 | newMainNode holds exactly its two entries, at every level and for every hash function, and ends |
| `Ctrie.Tries.Renewed` | trie/ctrie/ctrie.go:182-193 | every I-node below is copied to the generation, with the main node it had |
| `Ctrie.Tries.Compress` | trie/ctrie/ctrie.go:685-702 | every tomb below is resurrected and all else is kept |
| `Ctrie.Tries.Clean` | trie/ctrie/ctrie.go:715-721 | clean changes no search and shortens the path it was called for |
| `Ctrie.Tries.CleanParent` | trie/ctrie/ctrie.go:734-753 | cleanParent changes no search, and the parent no longer leads to the tomb it was called for |
| `Ctrie.Tries.Iinsert` | trie/ctrie/ctrie.go:464-532 | on true exactly the entry was put; on false nothing changed and the path became shorter; it ends although it re-enters the same I-node |
| `Ctrie.Tries.Ilookup` | trie/ctrie/ctrie.go:538-588 | the value found is the one the trie holds; renewing and cleaning on the way change no search |
| `Ctrie.Tries.IlookupReadOnly` | trie/ctrie/ctrie.go:538-588 | on a read-only trie the value found is the one it holds and nothing is written |
| `Ctrie.Tries.Iremove` | trie/ctrie/ctrie.go:594-665 | on true exactly the key is gone and the value is the one it had; on false nothing changed and the path became shorter |
| `Ctrie.Tries.DoInsert` | trie/ctrie/ctrie.go:431-436 | the clean-and-retry recursion of insert ends |
| `Ctrie.Tries.DoLookup` | trie/ctrie/ctrie.go:438-445 | the clean-and-retry recursion of lookup ends |
| `Ctrie.Tries.DoRemove` | trie/ctrie/ctrie.go:447-454 | the clean-and-retry recursion of remove ends |
| `Ctrie.Tries.Insert` | trie/ctrie/ctrie.go:287-294 | the trie's map gets the entry, no other trie changes; a read-only trie panics |
| `Ctrie.Tries.Lookup` | trie/ctrie/ctrie.go:298-300 | the answer is that of the trie's map and no map changes |
| `Ctrie.Tries.Remove` | trie/ctrie/ctrie.go:304-307 | the trie's map loses the key, the answer is what it was bound to, no other trie changes; a read-only trie panics |
| `Ctrie.Tries.Snapshot` | trie/ctrie/ctrie.go:311-340 | a snapshot is a new trie with the same map, read-only or not; a read-only trie is its own |
| `Ctrie.Tries.Clear` | trie/ctrie/ctrie.go:343-355 | the trie's map becomes empty and no other trie changes |
| `Ctrie.Tries.Traverse` | trie/ctrie/ctrie.go:387-423 | traverse yields each entry below an I-node exactly once |
| `Ctrie.Tries.Iterate` | trie/ctrie/ctrie.go:361-383 | iterating yields each entry of the map exactly once, and Size is the number of keys |
| `Ctrie.Tries.Do` | trie/ctrie/ctrie.go:287-355 | each call has the effect it would have on maps that share nothing |
| `Ctrie.Tries.Run` | trie/ctrie/ctrie.go:287-355 | so has every sequence of calls on every family of tries and snapshots |
| `Ctrie.OthersUntouched` | trie/ctrie/ctrie.go:309-340 | in every such sequence, calls on other tries leave a trie's contents alone |
| `BTree.FindAt` | btree/btree.go:11-23 | find stops at the index its neighbours determine |
| `BTree.Descend` | btree/btree.go:378-409 | the child find leads to is the one whose key range holds the key |
| `BTree.SplitJoin` | btree/btree.go:327-348 | split yields two nodes and an item with the same contents and legal sizes |
| `BTree.SplitChildFlat` | btree/btree.go:353-369 | splitting a child keeps the contents |
| `BTree.SplitChildShape` | btree/btree.go:353-369 | splitting a full child keeps sizes and depths legal |
| `BTree.RootSplit` | btree/btree.go:101-108 | splitting a full root puts a legal root with one item on top |
| `BTree.StealLeftGrows` | btree/btree.go:226-241 | stealing from the left sibling keeps contents and shape and leaves the child an item to spare |
| `BTree.StealRightGrows` | btree/btree.go:244-258 | stealing from the right sibling does too |
| `BTree.MergeKeeps` | btree/btree.go:261-305 | merging two minimal children keeps contents and shape |
| `BTree.GrowWorks` | btree/btree.go:224-308 | growing the child a key leads to keeps the contents and leaves that child an item to spare |
| `BTree.NoMoreGrowing` | btree/btree.go:224-308 | after growing, find leads to a child that need not grow, so the mutual recursion ends and its trailing return is not reached |
| `BTree.MaybeSplitChild` | btree/btree.go:353-369 | contents and shape are kept and the child gone down to is not full |
| `BTree.Insert` | btree/btree.go:378-409 | the contents become the sorted contents with the key, the shape stays legal, and the result says whether the key was there |
| `BTree.InsertInChild` | btree/btree.go:389-409 | the same through the recursive call |
| `BTree.RemoveMax` | btree/btree.go:147-159 | the greatest item goes and is returned; the node had an item to spare |
| `BTree.Remove` | btree/btree.go:116-146 | the contents lose exactly the key, the result says whether it was there, the height falls only at the root |
| `BTree.GrowChildAndRemove` | btree/btree.go:224-308 | the same through growing a child and re-entering the node |
| `BTree.ReplaceByPredecessor` | btree/btree.go:129-136 | an inner item is replaced by its predecessor, so exactly the key goes |
| `BTree.Lookup` | btree/btree.go:316-324 | get finds a key if and only if it is in the contents |
| `BTree.Tree.constructor` | btree/btree.go:414-418 | a new tree is empty |
| `BTree.Tree.Get` | btree/btree.go:77-83 | Get agrees with the key set |
| `BTree.Tree.ReplaceOrInsert` | btree/btree.go:86-111 | the key set becomes the old one and the key; sorted, equal depth, legal sizes; the result is nil if and only if the key was absent |
| `BTree.Tree.Delete` | btree/btree.go:113-146 | the key set becomes the old one without the key; the tree stays legal; the result is nil if and only if the key was absent |
| `BTree.InsMeans` | btree/btree.go:378-409 | what the insertion means: sorted, and the key set grows by the key |
| `BTree.DelMeans` | btree/btree.go:116-146 | what the deletion means: sorted, and the key set shrinks by the key |
| `FibNodes.MergeLists` | fibheap/fibheap.go:329-349 | the spliced cycle has exactly the entries of both and is seen from the smaller of the two first entries |
| `FibNodes.CutLinks` | fibheap/fibheap.go:363-399 | taking an entry out of its parent's child list keeps degrees, child lists and parents in agreement |
| `FibNodes.CutRoots` | fibheap/fibheap.go:363-399 | the cut entry joins the root list and the least root stays first |
| `FibNodes.CutMarks` | fibheap/fibheap.go:363-399 | after a cut the mark rule holds for all but the parent, and for the parent once it is marked |
| `FibNodes.LinkMarks` | fibheap/fibheap.go:212-229 | a root linked under one of its degree keeps the mark rule |
| `FibNodes.LinkKeeps` | fibheap/fibheap.go:212-229 | linking two roots of one degree keeps links, heap order, mark rule and root list |
| `FibNodes.FiledLink` | fibheap/fibheap.go:199-229 | the degree table stays exact when two roots become one |
| `FibNodes.AllDone` | fibheap/fibheap.go:188-244 | with all roots visited, no two have one degree and the minimum is first |
| `FibNodes.RootBelow` | fibheap/fibheap.go:128-133 | the first root has the least priority of all entries |
| `FibNodes.TreesApart` | fibheap/fibheap.go:33-38 | the trees of two children have no entry in common |
| `FibNodes.TotalAtLeastFib` | fibheap/fibheap.go:363-399 | the mark rule makes the children's trees add up to Fib(degree + 2) - 1 |
| `FibNodes.TreeAtLeastFib` | fibheap/fibheap.go:363-399 | a tree whose root has degree d has at least Fib(d + 2) entries |
| `FibNodes.DegreeBound` | fibheap/fibheap.go:188-229 | in every heap of n entries, Fib(degree + 2) is at most n for every entry |
| `FibNodes.CascadeCuts` | fibheap/fibheap.go:363-399 | cutNode cuts exactly the entry and the marked entries above it up to the first that is not marked; every other entry keeps its parent, and an entry that loses a child changes its mark |
| `FibNodes.DegreeIsLogarithmic` | fibheap/fibheap.go:188-229 | in every heap of n entries every degree is at most twice the logarithm of n |
| `FibNodes.RaiseKeepsOrderIff` | fibheap/fibheap.go:271-284 | setting an entry below -math.MaxFloat64 to it, as Delete does, keeps the heap order if and only if no child of it is below |
| `FibHeap.Heap.constructor` | fibheap/fibheap.go:115-115 | a new heap is empty |
| `FibHeap.Heap.Min` | fibheap/fibheap.go:128-133 | Min is an entry of least priority, or fails exactly on the empty heap |
| `FibHeap.Heap.TakeOut` | fibheap/fibheap.go:152-174 | the minimum goes and its children become roots |
| `FibHeap.Heap.File` | fibheap/fibheap.go:189-233 | the inner loop ends with every visited root in the table at its degree |
| `FibHeap.Heap.Consolidate` | fibheap/fibheap.go:181-244 | no two roots have one degree, the least is first, entries and priorities are conserved, children stay where they were with their marks, and a root that becomes a child is not marked |
| `FibHeap.Heap.DequeueMin` | fibheap/fibheap.go:147-247 | an entry of least priority goes and nothing else; all invariants hold; no two roots have one degree; entries other than the roots and the children of the one that goes keep parent and mark |
| `FibHeap.Heap.CutNode` | fibheap/fibheap.go:363-399 | cutting with its cascade (`CascadeCuts`) keeps links, order, marks and the least root first, for any chain of marked parents |
| `FibHeap.Heap.DecreaseKeyUnchecked` | fibheap/fibheap.go:351-361 | exactly that entry's priority changes; the entry is cut, with its cascade, exactly if its new priority is no more than its parent's, and no link changes otherwise; the entry is heap.min if none is lower |
| `FibHeap.Heap.DecreaseKey` | fibheap/fibheap.go:251-268 | succeeds exactly when the heap has entries, the entry is given and the new priority is lower |
| `FibHeap.Heap.Delete` | fibheap/fibheap.go:271-284 | of an entry not below -math.MaxFloat64, takes out exactly it if and only if no other entry is below; otherwise another goes and it stays, lowered |
| `FibHeap.Heap.Enqueue` | fibheap/fibheap.go:118-125 | the entry is added and nothing else changes |
| `FibHeap.Heap.Merge` | fibheap/fibheap.go:291-307 | the new heap has exactly the entries of both, and both become empty; of a heap merged with itself the result counts every entry twice, so it is a heap if and only if the two differ or are empty |
| `FibHeap.DeleteTakesTheOther` | fibheap/fibheap.go:271-284 | a heap of two entries, one below -math.MaxFloat64, of which Delete takes out that one instead of the one given |
| `IntervalTree.Compare` | augmentedtree/atree.go:43-53 | the direction is right exactly when the node is below the interval in the order on (low, id) |
| `IntervalTree.SetRange` | augmentedtree/atree.go:344-369 | min and max become those of the interval and the children |
| `IntervalTree.RotateFlat` | augmentedtree/atree.go:371-386 | rotate keeps the in-order sequence |
| `IntervalTree.DoubleRotateFlat` | augmentedtree/atree.go:388-393 | doubleRotate keeps the in-order sequence |
| `IntervalTree.PlugFlat` | augmentedtree/atree.go:148-219 | the tree around the path is what lies before the node, the node's tree and what lies after it |
| `IntervalTree.MendFlat` | augmentedtree/atree.go:193-201 | the rotations of add keep the in-order sequence |
| `IntervalTree.MendRB` | augmentedtree/atree.go:193-201 | the rotations of add mend the one red-red edge and keep all black heights |
| `IntervalTree.MendRangeSingle` | augmentedtree/atree.go:371-386 | rotate computes exact ranges although it reads the parent's stale one |
| `IntervalTree.MendRangeDouble` | augmentedtree/atree.go:388-393 | so does doubleRotate |
| `IntervalTree.MendIsDue` | augmentedtree/atree.go:193-214 | whenever a rotation is due, `helper`, `grandParent`, `parent`, `last` and `dir`, updated as the code does, name the true ancestors and sides, and the uncle is black, although some of them are stale after earlier rotations |
| `IntervalTree.VisitCalm` | augmentedtree/atree.go:180-191 | a round without rotation keeps the loop invariant |
| `IntervalTree.VisitMend` | augmentedtree/atree.go:180-201 | a round with a rotation keeps it, and the search gets nearer its end although it first goes back up |
| `IntervalTree.DescendPlaced` | augmentedtree/atree.go:207-214 | following compare stays on the way to where the interval belongs |
| `IntervalTree.Finish` | augmentedtree/atree.go:217-218 | putting the path together and blackening the root gives a well-formed tree with exact ranges |
| `IntervalTree.Insert` | augmentedtree/atree.go:148-219 | the interval is in, and nothing else; order, colours, black heights and exact ranges hold |
| `IntervalTree.PushRotate` | augmentedtree/atree.go:259-262 | delete's rotation of the node keeps order and black heights and makes the node red |
| `IntervalTree.PushPaint` | augmentedtree/atree.go:267-270 | the exchange of colours with the sibling does too |
| `IntervalTree.PushLift` | augmentedtree/atree.go:271-288 | so do the rotations of the parent |
| `IntervalTree.SiblingBlack` | augmentedtree/atree.go:264-266 | the sibling delete looks at is there and black |
| `IntervalTree.Push` | augmentedtree/atree.go:252-291 | a round of delete keeps the rules and leaves the node or the next one red; the node found stays on the path |
| `IntervalTree.FoundIff` | augmentedtree/atree.go:255-257 | the loop has seen the id if and only if the interval is in the tree |
| `IntervalTree.TakenFlat` | augmentedtree/atree.go:294-301 | overwriting the node found and unlinking the last one removes exactly the interval |
| `IntervalTree.TakenRB` | augmentedtree/atree.go:294-306 | and keeps the black heights |
| `IntervalTree.Remove` | augmentedtree/atree.go:229-307 | the interval is gone and nothing else; order, colours and black heights hold |
| `IntervalTree.AdjustRanges` | augmentedtree/atree.go:77-90 | all ranges become exact and nothing else changes |
| `IntervalTree.NoHits` | augmentedtree/atree.go:63-75 | a child whose range does not overlap has no overlapping interval |
| `IntervalTree.QueryNode` | augmentedtree/atree.go:63-75 | the pruned query visits exactly the intervals x of the subtree with x.low <= high and low <= x.high that overlap in the other dimensions, each as often as it is there, in order |
| `IntervalTree.IntervalSet.constructor` | augmentedtree/atree.go:416-418 | a new tree is empty |
| `IntervalTree.IntervalSet.Add` | augmentedtree/atree.go:222-226 | an interval with a new id is added and the number counts it |
| `IntervalTree.IntervalSet.Delete` | augmentedtree/atree.go:310-317 | exactly the given intervals go; afterwards all ranges are exact again |
| `IntervalTree.IntervalSet.Query` | augmentedtree/atree.go:322-338 | the answer is exactly the intervals x stored with x.low <= high and low <= x.high that overlap in the other dimensions, each as often as it is stored, in the order of (low, id) |
| `IntervalTree.IntervalSet.Len` | augmentedtree/atree.go:143-145 | the number of intervals |
| `SymMerge.MergePermutes` | sort/symmerge.go:109-125 | the specification, the stable two-way merge, is a permutation of both lists |
| `SymMerge.MergeSorts` | sort/symmerge.go:109-125 | and sorted |
| `SymMerge.MergeIsStable` | sort/symmerge.go:109-125 | and stable: equal elements keep the order of the first list before the second |
| `SymMerge.CutOrders` | sort/symmerge.go:55-66 | at the cut on the anti-diagonal all before may precede all after |
| `SymMerge.MergeSplits` | sort/symmerge.go:109-125 | such a cut splits the merge in two merges |
| `SymMerge.SwapBlocks` | sort/symmerge.go:71-75 | symSwap exchanges two equally long blocks and nothing else |
| `SymMerge.Rotate` | sort/symmerge.go:79-106 | the Euclid-like block swaps amount to exchanging two adjacent blocks |
| `SymMerge.BinarySearch` | sort/symmerge.go:55-66 | the search ends at a boundary on the anti-diagonal |
| `SymMerge.SearchLists` | sort/symmerge.go:11-23 | the same search across two lists |
| `SymMerge.FindCut` | sort/symmerge.go:109-119 | the cut found divides both runs where CutOrders needs it |
| `SymMerge.CutAndRotate` | sort/symmerge.go:109-121 | after the rotation merging the halves is merging the runs |
| `SymMerge.MergeInPlace` | sort/symmerge.go:109-125 | on two adjacent sorted runs symMerge leaves exactly the stable merge and touches nothing outside them |
| `SymMerge.Decompose` | sort/symmerge.go:38-51 | the active site is the middle stretch of the longer list |
| `SymMerge.Prepare` | sort/symmerge.go:179-196 | the four pieces rejoin to the two lists and every element of the first two may precede every element of the others |
| `SymMerge.SymMerge` | sort/symmerge.go:133-170 | the stable merge of the two lists, with the lists exchanged if the first is longer by two or more; a sorted permutation in every case |
| `SymMerge.StableIffNotMuchLonger` | sort/symmerge.go:133-196 | SymMerge is the stable merge for all sorted lists of two lengths if and only if the first is at most one longer or the second is empty |
| `HashMap.Find` | hashmap/fastinteger/hashmap.go:45-53 | the probe ends, at the key's slot or at the empty slot its search reaches |
| `HashMap.FoundMeans` | hashmap/fastinteger/hashmap.go:45-53 | an empty slot at the end of the search means the key is not stored |
| `HashMap.StoreKeeps` | hashmap/fastinteger/hashmap.go:55-63 | filling that slot keeps every key reachable |
| `HashMap.Set` | hashmap/fastinteger/hashmap.go:55-63 | the table becomes that of the map with the key bound |
| `HashMap.Get` | hashmap/fastinteger/hashmap.go:65-72 | the answer is that of the map |
| `HashMap.SweepStep` | hashmap/fastinteger/hashmap.go:80-86 | a round of re-insertion keeps all other packets reachable |
| `HashMap.SweepEnds` | hashmap/fastinteger/hashmap.go:80-86 | at the end of the cluster every packet is reachable again |
| `HashMap.Sweep` | hashmap/fastinteger/hashmap.go:80-86 | the sweep ends and the table is that of the map without the key, across the wrap-around |
| `HashMap.Delete` | hashmap/fastinteger/hashmap.go:74-88 | the table becomes that of the map without the key |
| `HashMap.RoomLeft` | hashmap/fastinteger/hashmap.go:109-135 | fewer entries than slots leave an empty slot, so probes end |
| `HashMap.Rehash` | hashmap/fastinteger/hashmap.go:109-119 | the new bucket holds the same map |
| `HashMap.FastIntegerHashMap.constructor` | hashmap/fastinteger/hashmap.go:163-173 | New is the empty map, and its slots are the least power of two that is at least the hint, or 16 for no hint |
| `HashMap.FastIntegerHashMap.Lookup` | hashmap/fastinteger/hashmap.go:123-125 | Get answers for the map |
| `HashMap.FastIntegerHashMap.Rebuild` | hashmap/fastinteger/hashmap.go:109-119 | the bucket becomes exactly twice as long and the map stays |
| `HashMap.FastIntegerHashMap.Put` | hashmap/fastinteger/hashmap.go:128-135 | Set binds the key, at most three quarters of the slots are in use, and the bucket doubles exactly if they would not be |
| `HashMap.FastIntegerHashMap.Remove` | hashmap/fastinteger/hashmap.go:145-149 | Delete unbinds exactly the key |
| `HashMap.FastIntegerHashMap.Len` | hashmap/fastinteger/hashmap.go:152-154 | Len is the number of keys and of the values replaced, so the number of keys if and only if no Set has replaced a value |
| `HashMap.LenOvercounts` | hashmap/fastinteger/hashmap.go:128-135 | setting one key twice makes Len 2 |
| `HashMap.MasksFind` | hashmap/fastinteger/hashmap.go:45-53 | Home and Next, by remainder and wrap-around, are what the masks of find compute |
| `Hilbert.DistanceOfCell` | numerics/hilbert/hilbert.go:62-92 | on the curve of every order the distance of the cell at a distance is that distance |
| `Hilbert.CellOfDistance` | numerics/hilbert/hilbert.go:62-92 | and the cell at the distance of a cell is that cell |
| `Hilbert.EndPoints` | numerics/hilbert/hilbert.go:77-92 | the curve of every order starts at (0, 0) and ends at (side - 1, 0) |
| `Hilbert.NeighboursOnCurve` | numerics/hilbert/hilbert.go:77-92 | consecutive cells of the curve of every order have Manhattan distance 1 |
| `Hilbert.Rotate` | numerics/hilbert/hilbert.go:47-58 | rotate is the reflection and exchange that place a quadrant, within 32 bits |
| `Hilbert.EncodeStep` | numerics/hilbert/hilbert.go:62-73 | a turn of Encode takes one level off although coordinates are unmasked and may be negative |
| `Hilbert.PeeledSum` | numerics/hilbert/hilbert.go:77-92 | what Decode has used up and what is left add up to the distance |
| `Hilbert.DecodeStep` | numerics/hilbert/hilbert.go:77-92 | a turn of Decode adds one level |
| `Hilbert.Encode` | numerics/hilbert/hilbert.go:62-73 | Encode is the distance on the curve of order 31, without overflow |
| `Hilbert.Decode` | numerics/hilbert/hilbert.go:77-92 | Decode is the cell on the curve of order 31, without overflow |
| `Hilbert.RoundTripFromCell` | numerics/hilbert/hilbert.go:62-92 | Decode inverts Encode on all of [0, 2^31) x [0, 2^31) |
| `Hilbert.RoundTripFromDistance` | numerics/hilbert/hilbert.go:62-92 | Encode inverts Decode on all of [0, 2^62) |
| `Hilbert.DecodeNeighbours` | numerics/hilbert/hilbert.go:77-92 | consecutive distances decode to neighbouring cells |
| `DelayQueue.StepKeepsInv` | timewheel/heap.go:34-102 | every step of the poller and of any number of Offers keeps the invariant |
| `DelayQueue.RunInv` | timewheel/heap.go:34-102 | so it holds in every state of every interleaving |
| `DelayQueue.AtMostOneSender` | timewheel/heap.go:86-102 | at most one Offer is committed to sending on wakeupC |
| `DelayQueue.CommittedIffPollerWaits` | timewheel/heap.go:34-102 | one is committed exactly when the poller waits with `sleeping` reset |
| `DelayQueue.DrainingCanProceed` | timewheel/heap.go:60-64 | draining wakeupC never blocks without a sender |
| `DelayQueue.SenderCanProceed` | timewheel/heap.go:95-100 | a committed Offer is received |
| `DelayQueue.SleepIsSafe` | timewheel/heap.go:34-102 | no wakeup is lost: a sleeping poller's timer covers every item unless an Offer is about to wake it |
| `DelayQueue.DeliversTheLeast` | timewheel/heap.go:34-83 | nothing pushed is lost or duplicated, and what is delivered is due and least |
| `DelayQueue.DeliversIffDue` | timewheel/heap.go:34-83 | in every run, a look at the queue delivers if and only if an item is due: a least item then leaves the queue for the consumer; otherwise nothing leaves it, `sleeping` is set, and the timer is for a least item if there is one |
| `DelayQueue.OfferAdds` | timewheel/heap.go:86-102 | in every run, an Offer past its critical section has added exactly its item, and goes on to wake the poller exactly if the item is before all others |
| `DelayQueue.QueueChanges` | timewheel/heap.go:34-102 | in every run, the queue changes only by an Offer's item coming in or a least item going to the consumer |
| `DelayQueue.DueItemCanBeDelivered` | timewheel/heap.go:34-102 | from every state of every run with a due item, a least item can be on its way to the consumer within four steps, without a new call |
| `TimeWheel.TruncateTwice` | timewheel/timewheel.go:166-171 | truncating to a coarser tick can go through a finer one |
| `TimeWheel.NoLapCollision` | timewheel/timewheel.go:127-139 | the bucket of a timer is free or already stands for the timer's time |
| `TimeWheel.PutKeeps` | timewheel/timewheel.go:127-139 | storing a timer keeps the invariant of all levels |
| `TimeWheel.OverflowKeeps` | timewheel/timewheel.go:140-151 | a new overflow wheel keeps it |
| `TimeWheel.TakenKeeps` | timewheel/timewheel.go:59-74 | taking the earliest bucket and advancing all clocks keeps it |
| `TimeWheel.ReleaseKeeps` | timewheel/bucket.go:26-44 | the flushed bucket is free again |
| `TimeWheel.AddKeeps` | timewheel/timewheel.go:120-156 | add keeps the invariant, stores the timer exactly if it is not due within the tick, a re-inserted one on a strictly lower level, and never touches the bucket being flushed |
| `TimeWheel.SettleKeeps` | timewheel/timewheel.go:157-162 | addOrRun gives the timer one place and starts it exactly if it is due within the tick |
| `TimeWheel.FlushKeeps` | timewheel/bucket.go:26-44 | Flush settles every timer of the bucket on a lower level or starts it, and moves no other |
| `TimeWheel.ExpireKeeps` | timewheel/timewheel.go:76-99 | delivering a bucket keeps the invariant, moves the clocks to its time and settles exactly its timers |
| `TimeWheel.TimingWheel.constructor` | timewheel/timewheel.go:28-56 | a new wheel, of any number of buckets, satisfies the invariant, holds no timer, and its clock is the beginning of the tick of the start time |
| `TimeWheel.TimingWheel.Add` | timewheel/timewheel.go:120-156 | the recursion of add over the chain of wheels computes AddTo, with all that AddKeeps says, and ends |
| `TimeWheel.TimingWheel.StoreAt` | timewheel/timewheel.go:127-139 | the timer joins the bucket of its time, which is queued exactly if it was not |
| `TimeWheel.TimingWheel.AddOrRun` | timewheel/timewheel.go:157-162 | computes Settle, with all that SettleKeeps says |
| `TimeWheel.TimingWheel.AfterFunc` | timewheel/timewheel.go:108-117 | a new timer has one place, and is started exactly if it is due within the tick |
| `TimeWheel.TimingWheel.AdvanceClock` | timewheel/timewheel.go:59-74 | every level's clock becomes the time truncated to its tick, although the recursion stops early |
| `TimeWheel.TimingWheel.FlushFirst` | timewheel/bucket.go:26-44 | one timer leaves the bucket and is settled at a lower level or started |
| `TimeWheel.TimingWheel.Flush` | timewheel/bucket.go:26-44 | every timer of the bucket is settled at a lower level or started, and no other moves |
| `TimeWheel.TimingWheel.Expire` | timewheel/timewheel.go:76-99 | popping the earliest bucket, advancing and flushing keeps the invariant and settles exactly its timers |
| `TimeWheel.TimingWheel.Do` | timewheel/timewheel.go:76-117 | each call of AfterFunc and each delivery is a step of a run |
| `TimeWheel.TimingWheel.Drain` | timewheel/timewheel.go:76-99 | delivering buckets until there are none ends, and then every timer added has started |
| `TimeWheel.RunInv` | timewheel/timewheel.go:76-162 | in every state of every run of AfterFunc calls and deliveries from New on, the invariant holds and exactly the timers added are known, with the times they were added for |
| `TimeWheel.RunGrows` | timewheel/timewheel.go:76-162 | what was started stays started, and the clock does not go back |
| `TimeWheel.ClocksInStep` | timewheel/timewheel.go:59-74 | in every state of every run each level's clock is the level-0 clock truncated to its tick |
| `TimeWheel.QueuedIffFilled` | timewheel/bucket.go:21-65 | in every state of every run a bucket is queued exactly once, under its own time, exactly when it holds timers |
| `TimeWheel.BucketIsOneTick` | timewheel/timewheel.go:127-139 | in every state of every run all timers of a bucket are due in the one tick the bucket stands for, which is not past |
| `TimeWheel.StartsAtMostOnce` | timewheel/timewheel.go:157-162 | in every run a timer is started at most once, and once started it waits nowhere |
| `TimeWheel.StartedInTime` | timewheel/timewheel.go:157-162 | in every run a started task is one that was added, starts less than a tick before its time, not after it if it has waited, and was flushed at most once per level |
| `TimeWheel.ExpireWorks` | timewheel/timewheel.go:76-99 | each delivery brings timers nearer to their start and none farther |
| `TimeWheel.DeliveriesEnd` | timewheel/timewheel.go:76-99 | a sequence of deliveries is no longer than the levels the waiting timers have to go |
| `TimeWheel.RunsExactlyOnce` | timewheel/timewheel.go:76-162 | in every run, once no bucket is left to deliver, every timer added has been started exactly once, for its time, after at most as many flushes as levels |
| `TimeWheel.AddClimbs` | timewheel/timewheel.go:120-156 | add goes on above a level exactly if the chain of ticks and clocks says so |
| `TimeWheel.EndsIff` | timewheel/timewheel.go:120-156 | add of a timer comes to a level at which it returns if and only if wheels have at least two buckets or the timer is due within the tick |
| `TimeWheel.OneBucketClimbs` | timewheel/timewheel.go:120-156 | with one bucket to a wheel a timer due in the next tick climbs from every level |
| `TimeWheel.WheelsNeedTwoBuckets` | timewheel/timewheel.go:120-156 | add ends for every timer if and only if wheels have at least two buckets |
| `TimeWheel.ReturnsIffEnds` | timewheel/timewheel.go:108-156 | in every state of every run AfterFunc is callable exactly if add ends |
| `WheelTimes.ClockShows` | timewheel/timewheel.go:40-99 | in every state of every run the clock is the time of the last bucket delivered or, before any was, the beginning of the tick of the start time |
| `WheelTimes.StartsAtOnceIff` | timewheel/timewheel.go:108-162 | in every run AfterFunc starts its task at once if and only if its time is before the end of the tick of the last bucket delivered or, before any was, not after the tick of the start time |
| `WheelTimes.WaitsOnLowestLevel` | timewheel/timewheel.go:120-156 | in every run a timer not started at once waits on the lowest level whose span holds its time, in the bucket of its time, and no more overflow wheels are made than that level needs |
| `WheelTimes.DeliveryStartsIff` | timewheel/timewheel.go:76-99 | in every run the delivery of a bucket starts exactly those of its timers that are due before the end of its tick of the level-0 clock |
| `WheelTimes.StartedByOneCall` | timewheel/timewheel.go:76-162 | in every run each started task was started by the AfterFunc that added it, within the tick of the clock, or by the delivery of a bucket whose time is less than a tick before the task's and not after it |

## Left out

- RingBuffer: counters are unbounded integers, so wrap-around of the 64-bit counters is not modelled; the branch for a negative difference of unsigned numbers cannot be taken; the clock of a timed Poll is an arbitrary answer at each round; Gosched, the two loads of Len and a buffer of size zero are not modelled.
- Gcas: the RDCSS on the root is one step that changes the root's generation; its own descriptor protocol is not modelled.
- Ctrie: concurrent calls are not modelled beyond module Gcas, nor is the removal path of a list node that reports success on a lost gcas (trie/ctrie/ctrie.go:657-664); the hash factories are not modelled and a persistent list is a sequence; the iterator is read to its end; bitCount's arithmetic is not modelled, a position being the number of set bits below.
- Ctrie.Tries.Snapshot: a snapshot that may be written copies the old root where the code copies the copy it has just made of it; both have the same main node.
- BTree: nodes are values, so update in place, aliasing of slices and their capacities are not captured; contents are a set of keys, and what happens to a second item with an equal key is only modelled as far as the key goes; Delete requires a root, on which the code dereferences a nil pointer.
- FibHeap: circular lists are sequences from the entry their owner points at, so the sibling pointers themselves are not captured; an entry's parent is cleared before, not after, the cascade goes on; priorities are reals, so NaN and infinities are not, and the error of Merge for a nil heap is not modelled.
- FibHeap.Heap.Delete: requires a priority of the entry no lower than -math.MaxFloat64; below it Delete raises the entry and takes out heap.min, which is the entry only if it was heap.min, and the heap order may be lost (FibNodes.RaiseKeepsOrderIff).
- IntervalTree: nodes are values on a path of frames, so update in place and aliasing are not captured; an interval that is added has a new id, and one that is deleted is the one stored under its id; dimensions above the first are an arbitrary predicate; Traverse, a walk over all nodes with a stack, is not modelled.
- SymMerge: the two goroutines of an unequal merge work on disjoint arrays and are modelled one after the other; MultithreadedSortComparators is not modelled, because its pairing works only for chunk counts that are powers of two.
- HashMap: the load factor test is on integers; keys and the hash are unbounded.
- HashMap.Find: requires a table with an empty slot, which the load factor guarantees.
- TimeWheel: taking a due bucket, advancing the clocks and flushing it are one step, so the poller's reading one bucket ahead is not modelled, nor are Start, Stop, timer.Stop and real time; times are unbounded integers. A call of AfterFunc that does not return, with fewer than two buckets to a wheel, is no step of a run.
- DelayQueue: container/heap is modelled by its contract, a multiset with a least element; the exit path of Poll is not modelled.
- Hilbert: distances beyond 2^62 - 1 and negative coordinates are not modelled.
- The persistent and concurrent trees btree/immutable, btree/palm, btree/plus, tree/avl, rangetree and rtree are not modelled: batches of goroutines and storage back ends around a B-tree, and copies of nodes that tree/avl/avl.go:263-281 and btree/plus/node.go:39-43 do not make or link as intended.
- The tries trie/dtrie, trie/xfast and trie/yfast are not modelled: a map that changes shared nodes (trie/dtrie/node.go:76), and integer sets whose threads past a common ancestor are not kept (trie/xfast/xfast.go:357-406).
- bitarray, slice/skip and numerics/optimization are not modelled: set operations word by word, a list with random levels, and floating-point search.
- batcher, cache, futures, graph, list, set, threadsafe, queue.go and priority_queue.go are not modelled: locks and channels around lists and maps.
