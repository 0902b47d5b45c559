# A verified model of the core of CLara

CLara lets OpenCL programs (consumers) use devices of other machines (providers)
through an agent. This project models the parts that its correctness rests on and
proves what they are for: the red-black tree of libavl with its explicit stacks and
in-place rotations, the re-entrant lock under any interleaving of threads, the locked
set built from both, the stream framing with its relay and compression, the life of a
virtual ID between agent, control channel and provider, reference counts, platform
lending, and the lookups in the tables. `dafny verify dfyconfig.toml` checks it.

## How the model is laid out

- `RbNodes`, `RbContext`: heap nodes as `RbNode` objects; a `Tree` value names the node
  at each position, and a `Ctx` value is the path that the arrays `pa` and `a` of the
  source spell, with the subtrees it leaves aside. `Image` reads the heap into a finite
  map once, so facts about links and colours are facts about values.
- `RbDeleteSteps`, `RbFixup`, `RbRemove`: `rb_delete`. The fixup invariant is "path plus
  focused subtree, one black node short". The source writes the fixup loop, and the
  repair loop of `rb_probe`, twice with 0 and 1 exchanged; the model writes it once over
  the direction.
- `RbProbeSteps`, `RbInsert`: `rb_probe`. `RbFind`, `RbReplace`, `RbTraverse`, `RbDestroy`,
  `RbCopy`, `RbVerify`: the other functions of `common/rb.c`; `Rb` is the tree object.
- `RbHeight`: how many nodes it takes to make a tree as high as the stacks, and which keys
  can be sought in it; `RbSharp` builds the least tree that is too high, on the heap.
- `Lock`: every access to the shared words is one step of one thread; `ReentrantLock` is
  the same lock as one thread sees it. `Set` is the locked set of both, and `Lookup` and
  `Ids` its clients; `SetPass` and `SetOps` are its passes and operations among any number
  of threads, with `malloc` and `free` among them, and `SetAlone` says that the code run by
  one thread takes their steps.
- `LockCalls`, `SetCalls`, `LoadBalancerCalls`, `IdCalls`: what whole calls do in the runs of
  these step relations, from entry to return, whatever comes in between, and alone.
- `Channel`, `Block`, `Stream`: an ordered, boundary-preserving message channel, as
  sections 1.5.2 and 6.6 of RFC 4960 give it, and the framing above it.
- `Provider` says what each message does to the provider's tables; `ProviderMain` is the
  program on its two locked sets; `IdProtocol` is the protocol between agent and provider,
  and `ProviderSteps` joins the two. `Objects`, `LoadBalancer`: the tables of the agent;
  `AgentSteps` says that what `Objects` does to them are steps of the protocol.

Loops over mutable state are methods with loops; objects are classes. Concurrency is a
step relation over states, and its theorems speak of every state of every run.

## Where the code departs from its intent

- `include/rb.h:28-34` says that a maximum height of 32 allows for 65,535 to
  4,294,967,295 nodes. `rb_probe` and `rb_delete` use stack entry 0 for the header, and
  `RbHeap.Descend` says with which stack pointer the search for a key ends.
  `RbSharp.SharpTree` builds a valid tree of 131,070 nodes in which the search for the key
  0 has written entry 32 of stacks that end with entry 31. `RbHeight.SearchesFit` says
  exactly in which trees the searches for all keys fit, and `RbHeight.SmallTreesFit` that
  those of 131,069 nodes always do. `rb_probe` therefore requires that the search for its
  item fits, `rb_delete` that the entries do which it uses for its key (`RbNodes.Reach`: the
  search, the way to the successor, and the one that case 1 of the fixup may push), and the
  members of the set that use stacks a bound on its size.
- `common/set.c:98-101` frees what `rb_insert` returns for a present key, which is the
  item still in the tree and not the new one. From then on the tree refers to a block that
  `free`, or whoever `malloc` hands it out to, may write to. `Set.Play` promises the answers
  and contents of a map up to the first such insertion, and to the end when there is none or
  the new item is freed instead, whichever free blocks `malloc` hands out. `Set.Aftermath`
  says that this is exact: for every history with such an insertion and everything that the
  block may hold afterwards, `set_find` answers as it should if and only if the block holds
  the same key and datum again. The tree stays linked and red-black in shape
  (`Set.LockedSet.Overwritten`); only the order of its keys is lost.
- The retry of `id_create` (`agent/src/id.c:41`) takes this path. `Ids.IdCreate` promises an ID
  that is not in use if and only if no draw collided; `Ids.DrawnTwice` says that after a
  collision the ID in use is accepted when it is drawn again unless the block holds it, and
  in `Ids.CollidingDraw` the block goes to the next item, so that the pool forgets an ID in
  use.
- `set_find` reads the datum of the item after it has unlocked: `SetOps.SafeExactly` says
  when that is safe, `SetOps.UnsafeFind` is a run in which it is not.
- `clReleaseObject` leaves the provider's `id_map` entry in place, so an ID drawn again
  trips the assert at `provider/src/provider.c:748`: `IdProtocol.RedrawnIdTrips` says exactly
  when, `IdProtocol.RedrawnIdExample` is such a run. The entry is also what lets a release
  call reach the provider: `agent_execute` releases the object before it passes the call on.
- `clReleaseObject` and `object_release` compare neither the caller with the owner nor the
  counter with zero. A platform or a device is in `agent->objects` with no reference, so its
  release wraps `refcnt`: `Objects.Agent.ReleaseObject` keeps the tables sound if and only if
  the ID is unknown or its counter positive, and `Objects.ReleasePlatform` releases a
  platform, which no consumer can retain afterwards. `Objects.Agent.RetainObject` keeps them
  sound if and only if the 32-bit counter does not wrap.
- `stream_recv` fails on a buffer longer than a RAW stream unless all blocks are full ones:
  `Stream.StreamRecv` says exactly which lengths it takes.
- `verify_tree` does not look at the colour of the root: `RbVerify.RedRootPasses`.
- `set_next` cannot tell a NULL datum from the end: `Set.Pass` says what a pass then sees.

## Model

| member | source | states |
|---|---|---|
| `RbNodes.Compare` | common/set.c:34-46 | the sign of the result is the order of the unsigned 64-bit keys |
| `RbNodes.HeldTreeIsUnique` | include/rb.h:44-52 | the heap determines the one tree that hangs from a link |
| `RbNodes.BalancedIsBlackHeight` | common/rb.c:868-925 | equal black counts on all paths fix the number that the leftmost path gives |
| `Rb.RbTree.constructor` | common/rb.c:76-91 | a new tree is valid, empty and made of fresh nodes |
| `Rb.RbTree.Delete` | common/rb.c:549-765 | the item that the search comes upon leaves the in-order sequence and no other, count falls by one, and the tree is red-black again, whatever the order of the keys; with ascending keys it is NULL exactly for an absent key, and they still ascend; required of the stacks are the entries that this key takes |
| `RbRemove.DeleteFrom` | common/rb.c:556-764 | the same on the heap |
| `RbNodes.ReachBelowHeight` | common/rb.c:556-640 | the entries that a deletion uses are no fewer than those of the search and at most one more than the height |
| `RbNodes.SoughtInOrder` | common/rb.c:493-512 | when the keys ascend, a search comes upon a key if and only if it is in the tree |
| `RbHeap.Descend` | common/rb.c:564-590 | the stacks spell the path to the node with the key, or to the null link where it belongs; the stack pointer is one more than the turns that key takes |
| `RbRemove.Unlink` | common/rb.c:595-638 | the node (or its successor, whose item moves up) is out; the in-order sequence lost one item; one black node is missing at the top of the stack if a black node went |
| `RbRemove.SeekLeftmost` | common/rb.c:615-621 | the walk ends at the successor and the stacks spell its path |
| `RbRemove.RemovedHere` | common/rb.c:593-629 | putting the subtrees of the found node together removes exactly its item and keeps the order |
| `RbFixup.Fixup` | common/rb.c:641-762 | a tree one black node short at x becomes a red-black tree with the same sequence; that the loop ends and meets no null sibling or nephew and no end of a stack is what makes the body well-formed |
| `RbFixup.Round` | common/rb.c:643-758 | one round keeps the one-short invariant; the stack pointer falls, or it stays and the loop condition becomes false |
| `RbFixup.BlackSibling` | common/rb.c:645-663 | case 1 leaves a black, non-null sibling, a red parent, and a stack one longer at most |
| `RbFixup.LastRotation` | common/rb.c:676-699 | cases 3 and 4 repair the whole tree |
| `RbDeleteSteps.SiblingExists` | common/rb.c:645-662 | a subtree one black node short has a sibling that is no null link |
| `RbDeleteSteps.Case1Heap` | common/rb.c:650-655 | the writes of case 1 make the heap hold the rotated path |
| `RbDeleteSteps.Case1Sound` | common/rb.c:647-663 | case 1 keeps the deficit and makes the parent red |
| `RbDeleteSteps.Case2Sound` | common/rb.c:665-673 | case 2 moves the deficit one level up, or ends it at a red node |
| `RbDeleteSteps.Case3Sound` | common/rb.c:676-687 | case 3 keeps the deficit and makes the outer nephew red |
| `RbDeleteSteps.Case4Sound` | common/rb.c:689-699 | case 4 ends the deficit |
| `RbDeleteSteps.Case4Order` | common/rb.c:694-696 | the rotation of case 4 keeps the in-order sequence |
| `RbDeleteSteps.DeficitRepaired` | common/rb.c:761-762 | painting x black repairs what is left when the loop ends |
| `Rb.RbTree.Probe` | common/rb.c:341-490 | the item goes in where the search ends, or nothing changes when it comes upon the key, whatever the order of the keys; ascending keys still ascend; the returned slot belongs to the node with the key, after the rotations too |
| `RbInsert.ProbeFrom` | common/rb.c:348-489 | the same on the heap, with the new node fresh |
| `RbInsert.ProbeLoop` | common/rb.c:409-485 | the loop ends, stays within the stacks, and turns a tree with one red-red pair into one with none, same sequence, same data in every node |
| `RbInsert.PaintRoot` | common/rb.c:487 | painting the root black completes the tree |
| `RbInsert.PutIn` | common/rb.c:369-402 | an item put where the search ended keeps the keys ascending |
| `RbProbeSteps.Uncle1Sound` | common/rb.c:416-422 | recolouring moves the one red-red pair two levels up |
| `RbProbeSteps.Inner2Sound` | common/rb.c:426-436 | the inner rotation keeps the one red-red pair and makes it an outer one |
| `RbProbeSteps.Outer3Sound` | common/rb.c:438-447 | the outer rotation removes it |
| `Rb.RbTree.Insert` | common/rb.c:769-778 | NULL and the item inserted when the search does not come upon the key, and the item in the tree and nothing changed when it does; with ascending keys that is whether the key was present |
| `Rb.RbTree.Replace` | common/rb.c:784-800 | inserts, or swaps the one item with the key for the new one and returns it |
| `Rb.RbTree.Overwrite` | include/rb.h:120-132 | writing an equal-keyed item through the slot keeps the tree valid and replaces exactly one item |
| `Rb.RbTree.Rewrite` | common/set.c:98-101 | writing to a block changes what the nodes that refer to it find there, and nothing else; the tree stays red-black in shape |
| `RbReplace.SoughtRewritten` | common/set.c:98-101 | once the block of an item has been written to, a search for the key that it had comes upon it if and only if it holds that key again |
| `Rb.DeleteUndoesInsert` | common/rb.c:341-765 | deleting what was just inserted restores the sequence |
| `Rb.InsertUndoesDelete` | common/rb.c:341-765 | inserting what was just deleted restores the sequence |
| `Rb.RbTree.Find` | common/rb.c:493-512 | the item that the search comes upon; with ascending keys NULL exactly for an absent key |
| `Rb.RbTree.FindClose` | common/rb.c:516-543 | NULL exactly for the empty tree; otherwise no key lies strictly between the item and the key sought |
| `RbFind.FindFrom` | common/rb.c:493-512 | the same on the heap, whatever the order of the keys |
| `RbFind.FindCloseFrom` | common/rb.c:516-543 | the same on the heap |
| `Rb.RbTree.Count` | common/rb.c:160-165 | the number of items |
| `RbTraverse.RbTraverser.Init` | include/rb.h:102-104 | the traverser will return every item |
| `RbTraverse.RbTraverser.Next` | common/rb.c:295-333 | each call takes the first of the remaining in-order items, NULL when there are none, and stays within its stack |
| `Rb.RbTree.Walk` | common/rb.c:257-289 | the function is called for every item, in order |
| `RbTraverse.Walk` | common/rb.c:257-289 | the same on the heap |
| `Rb.RbTree.Destroy` | common/rb.c:101-150 | every node is freed exactly once, children before their parent; the function sees the datum of each |
| `RbDestroy.Destroy` | common/rb.c:107-146 | the same on the heap; that no node is read once it is freed is asserted at each read |
| `RbDestroy.PostOrderOnce` | common/rb.c:107-146 | post-order lists every node once |
| `RbDestroy.ChildrenFirst` | common/rb.c:107-146 | post-order lists a child before its parent |
| `Rb.RbTree.Copy` | common/rb.c:172-253 | fresh nodes, same shape and colours, copied data, same count; the copy is a valid tree exactly when the copies keep the order of the keys |
| `RbCopy.CopyNodes` | common/rb.c:180-252 | the same on the heap, within the stacks, with the old nodes untouched |
| `RbCopy.CopyRedBlack` | common/rb.c:167-253 | the copy is red-black exactly when the copied keys ascend |
| `RbCopy.CopyOrder` | common/rb.c:247-251 | the copied items stand where the old ones stood |
| `RbHeight.LeastSize` | include/rb.h:28-34 | no red-black tree of given height, black height and root colour has fewer nodes |
| `RbHeight.LeastIsAttained` | include/rb.h:28-34 | any distinct nodes with ascending keys, that many, make up such a tree |
| `RbHeight.SmallTreesFit` | include/rb.h:28-34 | every tree of fewer than 131,070 nodes, and so of 65,535, is lower than RB_MAX_HEIGHT |
| `RbHeight.BoundIsSharp` | include/rb.h:28-34 | of any 131,070 distinct nodes with ascending positive keys there is a red-black tree in which the search for 0 leaves the stack pointer at 33 |
| `RbHeight.SearchesFit` | common/rb.c:556-590 | the searches for all 64-bit keys stay within the stacks if and only if the tree is no higher than they are long and no null link at that depth lies between keys with room for another |
| `RbHeight.GappedSearchesFit` | common/rb.c:556-590 | with gaps between the keys, if and only if the tree is lower than that |
| `RbSharp.SharpTree` | include/rb.h:28-34 | builds a valid tree of 131,070 nodes in which the search for 0 writes entry 32 |
| `RbHeight.CountFitsInt` | include/rb.h:83 | while the stacks suffice, the int that counts nodes does not overflow |
| `RbVerify.RecurseTree` | common/rb.c:872-925 | counts the nodes, returns the black height, and complains exactly about trees that are out of order or bounds, unbalanced or have a red-red pair |
| `RbVerify.VerifyTree` | common/rb.c:928-942 | passes exactly the ordered, balanced trees without red-red pair and with the right count |
| `RbVerify.RedRootPasses` | common/rb.c:872-942 | a red root is not noticed |
| `Lock.MutualExclusion` | common/lock.c:79-107 | in every run at most one thread is inside; semaphore and holders add up to one; owner and cnt are the thread inside and its nesting depth; the assert of line 101 never fails |
| `Lock.RacesAreBenign` | common/lock.c:85-89 | a thread reads owner equal to itself only and always when it is inside; the re-check after the semaphore always succeeds; who touches cnt or writes owner is the only holder |
| `Lock.NoDeadlock` | common/lock.c:79-107 | while a thread is in the lock's code, one of them can step, or somebody is inside in its own code |
| `Lock.StepRefines` | common/lock.c:79-107 | each step is invisible to a re-entrant mutex, or acquires, or releases |
| `Lock.RunRefines` | common/lock.c:79-107 | every run is a run of a re-entrant mutex |
| `Lock.RunInv` | common/lock.c:79-107 | the inductive invariant holds in every state of every run |
| `Lock.QuietIsObject` | common/lock.c:79-107 | with all threads elsewhere, the words are those of a ReentrantLock |
| `Lock.ReentrantLock.Wait` | common/lock.c:79-93 | alone, lock_wait acquires the mutex once more |
| `Lock.ReentrantLock.Post` | common/lock.c:95-107 | alone, lock_post releases it once |
| `LockCalls.CallsAddUp` | common/lock.c:79-107 | in every run a thread outside the lock's code is as deep inside as it has completed lock_wait calls more than lock_post calls; it has acquired the mutex once for each of the former and released it once for each of the latter |
| `LockCalls.EachCallActsOnce` | common/lock.c:79-107 | between the entry and the return of a lock_wait its thread acquires exactly once and releases never, and of a lock_post the other way round |
| `LockCalls.WaitAlone` | common/lock.c:79-93 | lock_wait on the object is a run of the steps in which nobody else takes one |
| `LockCalls.PostAlone` | common/lock.c:95-107 | so is lock_post |
| `Set.LockedSet.Insert` | common/set.c:84-108 | for every state of the tree and every block that malloc hands out: what goes in, what is returned and what is freed; on an intact set true and the entry added if and only if the key was absent, and intact afterwards if and only if that or the new item is what is freed |
| `Set.LockedSet.InsertAnywhere` | common/set.c:84-108 | on an intact set the same whichever block malloc hands out |
| `Set.LockedSet.Overwritten` | common/set.c:98-101 | writing to a block that has been freed changes what the tree finds there and leaves it linked |
| `Set.InsertFacts` | common/set.c:84-108 | on an intact set the block that malloc hands out makes no difference; as written, the set is intact afterwards if and only if the key was absent |
| `Set.LockedSet.Remove` | common/set.c:110-128 | the item that the search comes upon goes and is freed; on an intact set true if and only if the key was present, the entry gone, and the set intact |
| `Set.LockedSet.Find` | common/set.c:130-149 | true if and only if the search comes upon the key, with what is read there; on an intact set if and only if the key is present, with its datum |
| `Set.LockedSet.Count` | include/set.h:79-83 | the size of the map |
| `Set.LockedSet.Start` | include/set.h:64-69 | the lock is held and the pass has every item before it |
| `Set.LockedSet.Next` | common/set.c:151-164 | on an intact set the datum of the next item in order, NULL at the end; the hold on the lock is unchanged |
| `Set.LockedSet.Finish` | include/set.h:71-75 | the lock is released once |
| `Set.MapOfInserted` | common/set.c:84-108 | an item put into an ascending sequence adds one entry to the map and changes no other |
| `Set.MapOfRemoved` | common/set.c:110-128 | an item taken out takes away one entry |
| `Set.MapOfSize` | include/set.h:79-83 | as many entries as items |
| `Set.Play` | common/set.c:84-149 | over every history the answers are those of a finite map up to and with the first insertion under a present key as written; without one, or with the new item freed, so are all answers and the contents, and exactly then the set is intact |
| `Set.Aftermath` | common/set.c:98-101 | for every history with such an insertion and everything that the freed block may hold: the next set_find for that key is right if and only if the block holds the same key and datum again |
| `Set.Misled` | common/set.c:98-149 | the same from every state in which the tree refers to a block that is free |
| `Set.TakenAgain` | common/set.c:84-108 | from such a state set_insert accepts the key in use if and only if the block holds another one |
| `Set.Perform` | common/set.c:84-149 | on an intact set one operation answers as the map does, whichever block malloc hands out, and does what it does unless it inserts, as written, under a present key |
| `Set.Pass` | include/set.h:64-75 | start, next until NULL, finish: the contents in strictly ascending key order, each once, up to the first NULL datum |
| `Set.ListingIsComplete` | include/set.h:64-75 | such a listing misses no key |
| `Ids.IdCreate` | agent/src/id.c:29-46 | an ID that is not in use, which enters id_pool, is certain if and only if no draw collided or the new item is freed; otherwise the pool's own item of an ID in use has been freed |
| `Ids.DrawnTwice` | agent/src/id.c:34-43 | after a collision, as written, an ID in use is accepted when it is drawn again if and only if the freed block holds another key |
| `Ids.CollidingDraw` | agent/src/id.c:34-43 | 7 is in use, 7 and 8 are drawn, and malloc hands out for 8 the block freed for 7: the pool holds 8 alone, and 7 is accepted again |
| `SetOps.Linearizable` | common/set.c:84-149 | in every run of any number of threads in which no insertion has met a present key, freed blocks being handed out again, an operation that returns had a moment between its call and its return at which its answer was the map's, for set_find as long as the block of the item found has not been freed |
| `SetOps.ContentsFollow` | common/set.c:84-149 | in every run the contents are those of a map after the operations in the order of their bodies, up to and with the first insertion under a present key |
| `SetOps.MetIs` | common/set.c:84-108 | the history variable that the others speak of is false exactly in the runs without such an insertion |
| `SetOps.StepLinearizes` | include/set.h:79-83 | until then a body acts and answers as the map does though it reads and writes in two steps, no other step changes the contents, and the count read without the lock is theirs |
| `SetOps.SafeExactly` | common/set.c:139-144 | the answer of set_find is certain to be the one found under the lock if and only if the block has not been freed since, or has gone to somebody who has written the same datum |
| `SetOps.SafeUnderLock` | common/set.c:130-149 | while the caller keeps the lock around set_find, and no insertion has met a present key, that is so |
| `SetOps.UnsafeFind` | common/set.c:110-149 | a run in which another thread has removed and freed the item before it is read |
| `SetOps.WriteTidyExactly` | common/set.c:84-128 | a body keeps tree, free blocks and blocks about to be freed apart if and only if it does not insert under a present key |
| `SetOps.TidyHolds` | common/set.c:84-128 | in every run without such an insertion nothing is freed twice and nothing that the tree refers to is free |
| `SetOps.RepeatLosesEntry` | common/set.c:98-101 | after one has returned, anybody may be handed out the block to which the tree refers, and write anything to it |
| `SetAlone.Alone` | common/set.c:84-149 | an operation of the set as the code runs it with nobody else about is a run of the step relation, with the same answer and contents |
| `SetAlone.NextAlone` | common/set.c:151-164 | set_next as the code runs it moves the traverser as the step relation of the passes does |
| `SetAlone.StartAlone` | include/set.h:64-69 | so does set_start |
| `SetPass.PassSeesContents` | common/set.c:151-164 | in every run of any number of threads, during a pass nobody else is inside, the contents are those at set_start, and what was returned is an initial part of their keys in order, all of them once NULL was returned |
| `SetPass.OthersCannotEndPass` | include/set.h:64-75 | no step of another thread changes pass, traverser or contents |
| `SetCalls.NthNext` | common/set.c:151-164 | in every run, from set_start to set_finish and whatever other threads do, the contents stay and each set_next of the thread finds the next key of those at set_start; after the last one it finds nothing, and then the first again |
| `SetCalls.FirstRoundNext` | common/set.c:151-164 | the n-th set_next returns the n-th key, and the one after the last key NULL |
| `SetCalls.LockAddsUp` | include/set.h:64-75 | in every run a thread holds the lock of the set once for each set_start without its set_finish, and once more while it is in the body of an operation |
| `SetCalls.GivesBack` | common/set.c:84-149 | so a thread that has finished its passes and is in no body holds no lock |
| `SetCalls.PassGoesOn` | include/set.h:64-69 | a thread inside may always start a pass or change the contents, and go on with its pass |
| `Block.BlockSend` | common/block.c:30-67 | announces the length, then sends exactly the bytes in pieces of at most 1024 |
| `Block.BlockRecv` | common/block.c:69-100 | writes exactly the announced bytes and consumes exactly the block |
| `Block.BlockForward` | common/block.c:102-151 | the block goes on with the same length and bytes whatever part of each piece the channel accepts; each piece fits the buffer |
| `Stream.StreamSend` | common/stream.c:33-124 | announces the format and block size that the caller gives, RAW and 1 MiB when it gives none, and puts on the wire the data cut into blocks of at most that size, encoded in that format, between start and end; returns len |
| `Stream.StreamRecv` | common/stream.c:126-226 | succeeds if and only if the length asked for is the sent one, or greater with LZO or with full blocks only; it then rebuilds the data, returns its length, and leaves what follows the stream and the rest of the buffer alone |
| `Stream.SuitsNext` | common/stream.c:178-200 | the first block that an unsuitable buffer cannot take exists, and a suitable one takes every block |
| `Stream.StreamForward` | common/stream.c:228-288 | the relayed stream has the same parameters and blocks in the same order; returns their total size |
| `Stream.Transfer` | common/stream.c:33-288 | send, any number of relays, receive is the identity, for every byte string, block size above zero (or no bytes) and format |
| `Stream.BlocksFit` | common/stream.c:66-71 | no block is longer than blksz + blksz/16 + 67 |
| `Stream.Cut` | common/stream.c:78-101 | the blocks are non-empty, of at most the block size, all but the last full, and concatenate to the data |
| `Stream.ComingNext` | common/stream.c:180-200 | each block decodes to the next bytes of the data and fits the receiver's buffers |
| `ProviderMain.Program.Handle` | provider/src/provider.c:699-825 | on the two locked sets and the records they point to: no assert fails and no NULL is followed if and only if Accepts holds of the tables, and then tables, memory and answer are what Apply says; an EXECUTE answers and leaves in memory what the OpenCL function makes of the translated arguments and the memory |
| `ProviderMain.Program.Serve` | provider/src/provider.c:652-833 | over any sequence of messages the program gets exactly to the first that is not accepted, answering each before it |
| `ProviderMain.Program.Fetch` | provider/src/provider.c:797-825 | fails if and only if the handle lacks an allocation or a mapping; otherwise both entries and both records go |
| `ProviderMain.Program.MapAtPtr` | provider/src/provider.c:753-778 | fails if and only if the pointer is mapped, to NULL or with the virtual ID taken; otherwise swaps the word in the cell |
| `ProviderMain.Program.Allocate` | provider/src/provider.c:699-711 | fails if and only if one of the two tables has the handle; otherwise both get it |
| `ProviderMain.Program.FindAllocation` | common/alloc.c:45-61 | the scan of the locked set yields the allocation record under the handle, NULL if there is none |
| `ProviderSteps.TakeTurn` | provider/src/provider.c:652-833 | in whatever state of a run of the protocol the program takes the next message, it does not fail, and what it does is a step of the protocol |
| `Provider.ApplyHandles` | provider/src/provider.c:699-825 | handling with a given address and OpenCL function is one of the ways that the protocol leaves open |
| `Provider.AfterAllAgrees` | provider/src/provider.c:652-833 | over any sequence of messages each handle keeps its own buffer in both tables |
| `ProviderMain.Program.TranslateArgs` | common/rpc_server.c:59-71 | fails if and only if a selected non-zero argument is not mapped; otherwise exactly those are replaced, in place, by what they map to in the locked set |
| `ProviderMain.Program.Execute` | common/rpc_server.c:59-76 | fails exactly then; otherwise answer and memory are those of the OpenCL function, called with the translated arguments |
| `Provider.Translated` | common/rpc_server.c:59-71 | argument i is what id_map has under it if the mask selects it and it is not zero, and otherwise as it was |
| `Provider.ReturnsRealId` | common/rpc_server.c:59-76 | a function that returns its argument i answers the real ID behind it |
| `Provider.HandlesAgree` | provider/src/provider.c:699-825 | every accepted message keeps each handle with its own buffer in both tables |
| `Provider.MapAtPtrSwaps` | provider/src/provider.c:753-778 | afterwards the cell holds the virtual ID, which maps back to the real ID it replaced and which the agent is told |
| `Provider.FetchUndoesAllocate` | provider/src/provider.c:797-825 | fetching removes exactly the two entries that allocating made |
| `IdProtocol.ProviderNeverFails` | provider/src/provider.c:743-778 | in every run, with any platforms and devices attached and shared by all consumers, no assert of the provider fails on the next message, and each selected argument of an EXECUTE maps to the real ID on record, a handle to its own buffer |
| `IdProtocol.NameableResolves` | agent/src/opencl_object.c:41-57 | an ID a call may name is mapped, or its MAPPING is ahead in the queue |
| `IdProtocol.RunInv` | agent/src/remote.c:106-126 | the invariant over IDs, queue, answers and tables holds in every state of every run |
| `IdProtocol.HeadAccepted` | provider/src/provider.c:144-151 | under the invariant provider_id_map finds every argument |
| `IdProtocol.ProviderTurnKeeps` | provider/src/provider.c:699-825 | handling the first message keeps the invariant |
| `IdProtocol.StepKeeps` | agent/src/agent_opencl.h:66-87 | so does every step of the agent, MAPPING messages sent without the lock included |
| `IdProtocol.RedrawnIdTrips` | agent/src/opencl_object.c:76-102 | the MAPPING of an ID that id_create's guard lets through is accepted if and only if the ID was never sent to this provider |
| `IdProtocol.KnownIsSent` | agent/src/consumer_handler.c:209-306 | the agent's record of an ID tells whether some earlier queue announced it, or it was attached; IDs of local buffers that were given back do not count |
| `IdProtocol.SharedDeviceExample` | provider/src/provider.c:729-742 | a run in which two consumers have a function called on the same device |
| `IdProtocol.RedrawnIdExample` | provider/src/provider.c:743-751 | a run after which the MAPPING of a released and redrawn ID is refused |
| `IdCalls.EveryRun` | agent/src/remote.c:28-126 | every run of the protocol is one of those that the members of IdCalls speak of |
| `IdCalls.AllocateAnswered` | agent/src/remote.c:28-66 | in every run, between an ALLOCATE and its answer there is exactly one turn of the provider that answers; it handles that message and makes a new buffer of the size asked for, and then the consumer that asked may use the handle |
| `IdCalls.MapAtPtrAnswered` | agent/src/agent_opencl.h:70-87 | likewise for MAPATPTR: the real ID that stands in the buffer at that turn is what the agent records under the new ID, which stands there afterwards |
| `IdCalls.ExecuteAnswered` | agent/src/remote.c:68-104 | likewise for EXECUTE: at that turn each selected argument leads to what the agent has on record, and the answer goes to the caller |
| `IdCalls.FetchAnswered` | agent/src/forward.c:29-52 | likewise for a FETCH that wants the data: the answer is the size that was asked for when the buffer was allocated, and the provider has forgotten the handle |
| `IdCalls.RequestAnswered` | agent/src/remote.c:28-104 | what these four have in common: under the lock no other answer comes in between |
| `IdCalls.SizeKept` | agent/src/remote.c:28-66 | in every run a handle that may be used leads to a buffer of the size that was asked for |
| `IdCalls.OwnerKept` | agent/src/opencl_object.c:29-58 | in every run an ID belongs to the consumer for whom it was made until it is given back |
| `IdCalls.ObjectKept` | agent/src/opencl_object.c:41-57 | in every run the ID of a new object leads nowhere or to the real ID it was made with, for ever, and its MAPPING is sent before it may be named |
| `IdCalls.PoolFollows` | agent/src/id.c:29-53 | in every run id_pool holds the IDs that have been made and not been taken back |
| `IdCalls.GivenBackUnsent` | agent/src/consumer_handler.c:298-306 | an ID that is given back was never sent to this provider and may be drawn again |
| `IdCalls.FirstInFirstOut` | agent/src/remote.c:106-126 | in every run the provider handles the messages in the order in which they are sent, each once |
| `IdCalls.BufferRoundTrip` | agent/src/consumer_handler.c:229-240 | from every quiet state a buffer of any size can be given and fetched, which leaves the provider's tables as they were |
| `IdCalls.PointerOnce` | agent/src/agent_opencl.h:70-87 | from every quiet state the object to which a buffer points can be given to its consumer |
| `IdCalls.ObjectOnce` | agent/src/opencl_object.c:29-58 | and so can a new object |
| `IdCalls.ReleaseOnce` | agent/src/opencl_object.c:76-102 | a consumer may release an object, a platform or a device, and the provider still finds the real ID for the call that does so |
| `Objects.StepSound` | agent/src/object.c:36-94 | a call that gets through keeps the tables sound, attached platforms and devices included, if and only if the counter does not wrap |
| `Objects.Agent.Attach` | agent/src/provider_handler.c:146-170 | a platform or device gets a new ID and a record without reference or owner, and the tables stay sound, if no draw freed an item of id_pool, which is certain if and only if none collided |
| `Objects.Agent.CreateObject` | agent/src/opencl_object.c:29-58 | a NULL object makes no ID; otherwise, under the same condition, a fresh non-zero ID with one reference, in all three tables |
| `Objects.Agent.RetainObject` | agent/src/opencl_object.c:60-74 | the assert passes if and only if nobody else holds references; then one more reference, sound if and only if the 32-bit counter does not wrap |
| `Objects.Agent.ReleaseObject` | agent/src/opencl_object.c:76-102 | one reference less modulo 2^32, whoever calls; the last one takes the object out of all three tables; sound if and only if the ID is unknown or had a reference |
| `Objects.Agent.ObjectRetain` | agent/src/object.c:36-55 | refuses another consumer while references are held; the first retain enters the consumer's set |
| `Objects.Agent.ObjectRelease` | agent/src/object.c:57-72 | the last release leaves the consumer's set; without a reference the counter wraps |
| `Objects.Agent.Play` | agent/src/opencl_object.c:29-102 | over every sequence of requests that get through and wrap no counter the tables stay sound and are what the events make of them, if no draw freed an item of id_pool; that is certain if and only if none collided |
| `Objects.ReleasePlatform` | agent/src/opencl_object.c:76-102 | a platform released by a consumer has the greatest counter and refuses to be retained |
| `Objects.RefcntIsBalance` | agent/src/opencl_object.c:60-102 | over every history of calls that get through an object lasts until a release finds retains minus releases at zero modulo 2^32, and its counter is that balance |
| `AgentSteps.Create` | agent/src/opencl_object.c:29-58 | creating an object on the agent's tables takes the steps NewObject and SendMapping of the protocol |
| `AgentSteps.ReleaseOne` | agent/src/opencl_object.c:76-102 | a release takes the step Release or Discard when the counter reaches zero, and otherwise none |
| `AgentSteps.DroppedStep` | agent/src/object.c:57-94 | pool, records and stages match afterwards as they did before |
| `LoadBalancer.Balancer.Allocate` | agent/src/loadbalancer.c:90-115 | lends the free platform of least ID, fails only when all are taken |
| `LoadBalancer.Balancer.Release` | agent/src/loadbalancer.c:117-147 | clears both pointers, or reports that there was nothing to release |
| `LoadBalancer.PlatformsAreNotShared` | agent/src/loadbalancer.c:90-147 | in every interleaving of pointer accesses a consumer's platform points back at it, no two consumers share one, the consistency check never fails, a platform found free is free when lent |
| `LoadBalancer.QuietIsValid` | agent/src/loadbalancer.c:90-147 | with nobody in between, every platform's consumer points back at it |
| `LoadBalancer.FailureSawAllTaken` | agent/src/loadbalancer.c:98-112 | in every run an allocation fails only if each platform was taken at some moment of its scan |
| `LoadBalancer.ScanSawTaken` | agent/src/loadbalancer.c:98-102 | each platform that a scan has passed was taken when the scan read it |
| `LoadBalancer.HastyReleaseShares` | agent/src/loadbalancer.c:142-143 | with these two writes exchanged there is a run from the start in which two consumers share a platform |
| `LoadBalancerCalls.ReleaseReleases` | agent/src/loadbalancer.c:117-147 | in every run a consumer that has a platform and starts a call has none when its thread is back, and the last that the thread has done is to take the platform's pointer from itself to NULL |
| `LoadBalancerCalls.AllocateLends` | agent/src/loadbalancer.c:90-115 | in every run a consumer without a platform that starts a call is lent one that points at it, or its scan has passed all of them; the lock of the set is free when its thread is back |
| `LoadBalancerCalls.LockFollows` | agent/src/loadbalancer.c:98-112 | in every run the lock of the set is held by exactly the thread that is between set_start and set_finish |
| `LoadBalancerCalls.AllocateAlone` | agent/src/loadbalancer.c:90-115 | lb_allocate_platform on the object is a run of the steps in which nobody else takes one |
| `LoadBalancerCalls.ReleaseAlone` | agent/src/loadbalancer.c:117-147 | so is lb_release_platform |
| `Lookup.FindAllocation` | common/alloc.c:45-61 | the linear scan finds what a lookup by key finds, NULL included |
| `Lookup.FindByReal` | common/map.c:69-88 | of the mappings to a real ID the one with the least virtual ID, if there is one |
| `Lookup.FindByVirt` | common/map.c:55-67 | the mapping under the virtual ID, if there is one |
| `Lookup.TranslateList` | common/map.c:90-119 | the longest prefix that the locked set translates is translated, the rest untouched, with one array or two |
| `Lookup.FirstMatch` | common/map.c:77-86 | the first hit of a pass over a set; the lock is given back |

## Left out

- common/net.c: sockets, SCTP calls, packing and error returns; the channel keeps order and boundaries, and each send accepts at least one byte.
- LZO: a parameter with two laws, that decompressing undoes compressing and that the output has at most n + n/16 + 67 bytes; sizes are unbounded integers, so the overflow of that sum for huge block sizes is not modelled.
- Stream.StreamSend: a block size of zero with data to send is excluded; the loop of the source would never end.
- Stream.StreamRecv: with LZO a buffer that is too short is written beyond its end; the model stops there.
- Rb.RbTree.Delete: cmp is the comparison of common/set.c and items are its items; the unused fields cache and pad of a node, param, arenas and rb_free are not modelled.
- Rb.RbTree.Destroy: the bits of the variable ab are booleans in an array; freeing is recorded in a list.
- Rb.RbTree.Copy: copy is a function of the item without side effects.
- Memory: allocation never fails; of all freed memory only the items of sets are handed out again.
- Lock: memory accesses are atomic and sequentially consistent, the semaphore is a counter; lock_destroy, set_destroy, consumer_destroy and the other teardown paths, which free memory that other threads may use, are not modelled.
- Set.LockedSet.Insert: the new item that leaks on a duplicate key is not tracked; freeing a block twice does no more than have it handed out twice, and a block is written to between the operations of one thread.
- SetPass: the bodies of the set operations are single steps; SetOps.StepLinearizes is what makes them so.
- SetOps: the lock is the mutex that Lock.RunRefines makes of it, and a body is a read of the tree and a write; after an insertion under a present key a body may do anything.
- Ids.IdCreate: as written it stops at the first draw that collides, and so do the members of Objects.Agent that draw; what the code goes on to do reads a block that is free.
- IdProtocol: one provider, whose platforms and devices are attached when a run begins, so a consumer that is faster than the end of provider_startup is not modelled; streams mixed with unlocked MAPPING messages, provider detachment and the reverse proxy, which is unfinished, are not part of it; the thread order within one consumer is not imposed, so the model has more runs than the code. A memory cell that holds 0 makes the agent's assert in agent_opencl.h:84 fail; the model then records no object.
- ProviderMain.Program.Handle: OpenCL functions are a parameter; the bytes of buffers, MEMPUT, PING, the extra data of ALLOCATE and failed sends are left out, and only cells that hold words are modelled.
- Objects.Agent.CreateObject: objects are kept under their IDs, so the sharing of one record between agent->objects and consumer->objects is not modelled, and these two sets are maps; one thread runs; rand() eventually offers a fresh value.
- LoadBalancer: load balancing after a provider has detached.
- The wrappers of single OpenCL functions, the function tables, device information, debug printing and signal handling.
