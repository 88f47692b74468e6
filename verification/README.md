# nabi: verified models of six in-place structures and protocols

Dafny models of the parts of nabi whose correctness depends on state changed in place
agreeing with something simpler. Each model takes the form of its source: classes over
arrays and linked nodes, loops with invariants, and locked sections as atomic steps.

- **The emulated binder engine** (`Binder*.dfy`, `Bytes.dfy`). `BinderArena` places buffers in
  a receiver's arena. `BinderCalls` is the table of calls owed a reply. `BinderPending` is the
  compacting buffer of commands with pointers into itself. `BinderNodes` and `BinderObjects` give
  objects their handles and rename them, byte for byte, for each receiver. `BinderParcel` and
  `BinderScatter` carry scatter-gather buffers from the sender's memory to the receiver's, and
  `BinderCarriage` takes a whole parcel through renaming, gathering, the arena and scattering, and
  `BinderReceived` says of the bytes alone what the receiver is to find.
  `BinderRegistry` says what each section under the registry lock does, and `BinderShared` is the
  registry in place with the loops those sections run. `BinderSystem` is every process and thread
  at once: registry, handles, wake fifos, every open of the device with its table of calls, and
  where each thread has got to. `BinderWake`, `BinderFates`, `BinderReplies` and `BinderDelivery`
  say what each of its steps keeps, `BinderRuns` what holds in every state of every run.
  `BinderSent` traces every message delivered to the call or reply that made it, `BinderContexts`
  keeps contexts apart, and `BinderRefs` ties an endpoint's references to its descriptors.
  `BinderLock` says what the lock each process keeps over its opens forbids, and `BinderCases` gives
  the runs that end badly, all of them within that lock. What holds of every run holds of more
  interleavings than the lock leaves.
- **The khash table** (`Probe.dfy`, `Rounding.dfy`, `Khash.dfy`): triangular probing, the rounding
  macro bit by bit, tombstones and the in-place kick-out rehash, refined to a finite map for any
  sequence of operations.
- **The red-black tree** (`Rb*.dfy`): elements with parent, child and colour fields on the heap,
  rewritten by rotations and fix-up loops, refined to an ordered sequence of elements.
  `RbTheory`, `RbInsert` and `RbRemove` are about trees as values, `RbHeap` about the heap that
  spells one, `RbSearch` about the order, `RbTree` holds the operations.
- **The stage-2 registry** (`Stage2*.dfy`): forward map, reverse index and reference counts against
  a hypervisor table that refuses one host page at two places, with handover and replay. The two
  hash tables are taken as the finite maps that `Khash` shows them to be.
- **The Linux aio context** (`Aio*.dfy`): the protocol between submitters, worker, reapers and
  cancellers (`Aio`), what an event says of the request it is for (`AioEvents`), its two
  linked lists, whose every use is a run of that protocol (`AioContext`), and vectored buffers (`AioVectors`).
- **The header reader** (`KernelHeaders.dfy`): a stack machine over lines, equal to the structured
  meaning of nested conditionals.

`dafny verify dfyconfig.toml` checks the project.

Seven properties one might expect do not hold of the code as it stands. Each has a concrete case
and the exact condition under which it does hold:

- a security-context pointer queued with a transaction names the right bytes if and only if
  everything fits, one of the four slots for such pointers is left, and no compaction falls after
  the first of its two offsets is taken and before the pointer is noted
  (`BinderPending.ContextPointer`, `BinderPending.WrongPointer`, `BinderPending.LateCompaction`);
- a message reaches the endpoint its sender looked up, and a call the owner of the object it is on,
  if and only if that endpoint still has the slot when the message is posted, because the lookup is
  made before the lock is taken (`BinderRuns.ReachesWhoWasMeant`, `BinderRuns.CallReachesObject`,
  `BinderRuns.StrayMeans`, `BinderCases.Astray`);
- a waiting reply can be collected by none but the thread it is owed to if and only if no other
  thread is reading the endpoint under the same port name, because threads are told apart by port
  names, which are a process's own (`BinderRuns.OnlyOwedCollects`, `BinderRuns.OwnPortsSuffice`,
  `BinderLock.OnlyOwedCollectsLocked`, `BinderCases.WrongProcess`);
- the next call is recorded as owed a reply if and only if fewer than 64 are outstanding on its
  descriptor; the reply to one that is not goes to an earlier caller (`BinderReplies.RecordedExactly`,
  `BinderRuns.RepliesGoBack`, `BinderCases.SixtyFifth`);
- a sender that could not wake its receiver takes its own message back if and only if that message
  is still waiting, because what the place holds is not looked at (`BinderRuns.WithdrawsOwn`,
  `BinderCases.WithdrawsAnothers`);
- an aio context keeps every request it accepts if and only if none was submitted between the cancel
  of the last of several queued ones and the next time the queue is empty (`Aio.NothingLost`,
  `Aio.ThirdIsLost`, `AioContext.Context.Cancel`, `AioContext.Stranded`);
- mapping and unmapping keep the stage-2 maps inverse and equal to the hypervisor's if and only if
  a range is mapped throughout or not at all and keeps its host pages (`Stage2.MapInverse`,
  `Stage2.UnmapExact`, `Stage2Registry.MovedBlock`, `Stage2Registry.HalfUnmapped`).

The documentation of the aio code says that results arrive in order of completion; with its
single worker that is the order of submission, which is what is proved.

## Model

| member | source | states |
|---|---|---|
| `Probe.RoundUpIsLeast` | include/util/khash.h:176 | rounding up is to the least power of two that is large enough |
| `Rounding.SmearFills` | include/util/khash.h:176 | the five shifts and ors of the macro set every bit below the highest one |
| `Rounding.MacroRoundsUp` | include/util/khash.h:176 | on 32-bit words the bit-smearing macro rounds up exactly so, for everything up to 2^31, and wraps to 0 above it |
| `Khash.TargetIsMacro` | include/util/khash.h:249-250 | the size a resize asks for is what the macro gives on 32-bit words for every request up to 2^31, and 4 beyond |
| `Khash.GrowthIsMacro` | include/util/khash.h:310-318 | a full table of up to 2^30 buckets grows to twice as many, as the macro rounds |
| `Khash.LimitNearest` | include/util/khash.h:303 | the load limit is the whole number nearest to 0.77 of the buckets, a half going up |
| `Probe.NoEarlyMeeting` | include/util/khash.h:49-53 | two probes of one key meet only when their steps sum to 2n-1 or more, so the first n are distinct |
| `Probe.FirstReturn` | include/util/khash.h:235-240 | for every hash, a probe over n = 2^k buckets first returns to its start at step 2n-1 |
| `Probe.EveryBucket` | include/util/khash.h:281 | the first n probes reach every bucket, which is what ends the unguarded loop of the rehash |
| `Khash.SearchIsExact` | include/util/khash.h:230-243 | a search that meets an empty bucket, or goes all the way round, without meeting the key shows the key is not stored |
| `Khash.FirstEmpty` | include/util/khash.h:281 | the unguarded probe ends at a bucket that is empty and that the key's own probe sequence reaches through used ones |
| `Khash.PlaceOne` | include/util/khash.h:277-292 | one step of the kick-out chain places the pair in hand, takes up the one it displaces, and loses or doubles none |
| `Khash.Settle` | include/util/khash.h:271-294 | one bucket's whole kick-out chain ends, with every pair of it in the new table or still to come |
| `Khash.Rehash` | include/util/khash.h:269-296 | when the rehash ends every live pair is in the new table exactly once and reachable, and the old table is used up |
| `Khash.Table.constructor` | include/util/khash.h:212-214 | a new table is valid, empty and has no buckets |
| `Khash.Table.Get` | include/util/khash.h:230-243 | the bucket of a stored key, holding it and its value, or the number of buckets exactly if the key is absent; it ends even with no bucket empty |
| `Khash.Table.Resize` | include/util/khash.h:244-306 | expanding, shrinking or clearing tombstones leaves the map the same; a request too small for the pairs is refused and changes nothing; -1 exactly if a needed allocation fails; otherwise the table has the size asked for and no tombstone |
| `Khash.Table.Slot` | include/util/khash.h:319-336 | where a key goes: its own bucket if it is stored, else a bucket that is not live and that the key's probe sequence reaches |
| `Khash.Table.Put` | include/util/khash.h:307-348 | the map gains the key (or keeps it); the code is 0 exactly if the key was present, 1 for a bucket never used, 2 for a deleted one, -1 only for a failed allocation, and then the map is the same; a table below its limit keeps its size, and one at it is cleared of tombstones at the same size if half is enough, and is else the next power of two |
| `Khash.Table.Del` | include/util/khash.h:349-355 | exactly the key of a live bucket leaves the map; the occupied count stays |
| `Khash.Table.Clear` | include/util/khash.h:223-229 | the map becomes empty and the buckets stay |
| `Khash.Table.SetValue` | include/util/khash.h:337-347 | writing through the bucket that put returned changes that key's value and nothing else |
| `Khash.Apply` | include/util/khash.h:223-355 | each operation answers and acts as the finite map does |
| `Khash.Run` | include/util/khash.h:223-355 | any sequence of operations gives the answers, and ends with the contents, of the finite map |
| `Khash.LoadIsBounded` | include/util/khash.h:310-318 | size and occupied counts are exact and within the load limit, and one bucket is always empty |
| `RbTheory.HeightBound` | include/util/tree.h:58-59 | a balanced tree of n elements has height at most 2 lg(n+1), stated as 2^height <= (n+1)^2 |
| `RbHeap.TurnLeftKeeps` | include/util/tree.h:340-358 | the pointer writes of a left rotation, anywhere in a tree, spell the rotated tree with all parent links |
| `RbHeap.TurnRightKeeps` | include/util/tree.h:360-378 | the pointer writes of a right rotation spell the rotated tree with all parent links |
| `RbInsert.GenerationKeeps` | include/util/tree.h:441-447 | recolouring under a red uncle moves the only red-red edge up and keeps black heights |
| `RbInsert.RaiseKeeps` | include/util/tree.h:448-455 | the final rotation removes the red-red edge and keeps black heights |
| `RbRemove.LiftKeeps` | include/util/tree.h:485-490 | rotating a red sibling away keeps the shortfall where it is and gives a black sibling |
| `RbRemove.NephewKeeps` | include/util/tree.h:499-508 | straightening the near nephew keeps every black height and makes the far one red |
| `RbRemove.RepairKeeps` | include/util/tree.h:509-515 | the final rotation makes up the missing black on every path |
| `RbRemove.SuccessorInorder` | include/util/tree.h:566-605 | putting the successor in an element's place and taking it from its own leaves the order, less that element |
| `RbTree.Head.RotateLeft` | include/util/tree.h:340-358 | the heap spells the rotated tree, at the root or below any parent |
| `RbTree.Head.RotateRight` | include/util/tree.h:360-378 | the heap spells the rotated tree, at the root or below any parent |
| `RbTree.Head.InsertColor` | include/util/tree.h:432-475 | from one red element under a red parent to a balanced tree with the same order of elements |
| `RbTree.Head.Insert` | include/util/tree.h:624-654 | the equal element with nothing changed, or the new element added in its place with order, parent links, colours and black heights kept |
| `RbTree.Head.RemoveColor` | include/util/tree.h:477-554 | from a subtree one black short to a balanced tree with the same order of elements |
| `RbTree.Head.Successor` | include/util/tree.h:568-570 | the leftmost element of the right subtree and the way down to it |
| `RbTree.Head.Splice` | include/util/tree.h:606-617 | an element with at most one child is bypassed and the rest of the tree stays spelled |
| `RbTree.Head.Substitute` | include/util/tree.h:586-597 | an element takes over another's place, links and colour |
| `RbTree.Head.Remove` | include/util/tree.h:556-622 | exactly the given element leaves; order, parent links, colours, black heights and black root are kept, in the one-child and successor cases |
| `RbTree.Head.Find` | include/util/tree.h:656-673 | an element that compares equal, or null exactly if there is none |
| `RbTree.Head.NFind` | include/util/tree.h:675-695 | an element that compares equal if there is one, otherwise the first element above the key, or null if all are below |
| `RbTree.Head.Next` | include/util/tree.h:697-718 | the element that follows in the order, or null for the last |
| `RbTree.HeightOfTree` | include/util/tree.h:58-59 | every tree the operations build has height at most 2 lg(n+1) |
| `RbSearch.RegionCompareIsOrder` | src/mm/mm.c:82-93 | the comparison of memory regions is an order the tree can use, in which equal means overlapping, below that every address of the one is under every address of the other, and above the reverse |
| `BinderArena.Arena.BlockedUntil` | src/fs/binder.c:970-985 | 0 exactly if the range is free; otherwise no offset before the answer is free either |
| `BinderArena.Arena.Search` | src/fs/binder.c:1035-1056 | next fit with wrap-round ends, gives the first free range from the mark to the end, or else from the front, and fails exactly if no offset anywhere has room |
| `BinderArena.Arena.Take` | src/fs/binder.c:1010-1068 | 0 exactly if nothing was asked for, no offset has room or no record is free; otherwise the next fit from the mark, inside the arena, recorded once, with the mark at its end; live buffers stay disjoint and inside |
| `BinderArena.Arena.Release` | src/fs/binder.c:1072-1081 | true exactly if a live buffer starts there; then exactly that buffer is freed and a repeat is refused |
| `BinderArena.Arena.Set` | src/fs/binder.c:2286-2309 | the arena is registered once; null, tiny, unmapped and second registrations are refused and change nothing |
| `BinderPending.UnreadShifted` | src/fs/binder.c:920-934 | moving the pointers with the bytes does not change which are unread |
| `BinderPending.Pending.Compact` | src/fs/binder.c:920-935 | compaction changes neither the stream nor the place reached in it, and keeps exactly the pointers with both ends unread |
| `BinderPending.Pending.Queue` | src/fs/binder.c:898-944 | an append is refused exactly if it and the unread bytes exceed 65536, and otherwise extends the stream; surviving pointers name the same stream positions |
| `BinderPending.Pending.QueueFixup` | src/fs/binder.c:953-961 | a pointer is noted if one of the four slots is left, and dropped otherwise |
| `BinderPending.Pending.QueueWithContext` | src/fs/binder.c:2031-2041 | the four appends leave a pointer that names the label exactly if ContextFits |
| `BinderPending.ContextPointer` | src/fs/binder.c:2031-2041 | the pointer is right if and only if everything fits, a slot for it is left and no compaction falls after its first offset is taken |
| `BinderPending.WrongPointer` | src/fs/binder.c:2031-2041 | a buffer that holds everything and whose pointer names other bytes: the compaction comes with the label |
| `BinderPending.LateCompaction` | src/fs/binder.c:2031-2041 | queueing and reading on a new buffer comes to that state, and leaves the whole transaction queued with a pointer 100 bytes off |
| `BinderPending.Pending.Read` | src/fs/binder.c:2212-2240 | what is read is the next bytes of the stream, changed only in the eight-byte slots whose pointers lie wholly in the read, which hold the guest address of their target |
| `BinderPending.FilledExactly` | src/fs/binder.c:2221-2233 | a pointer is delivered filled exactly if one read takes its whole slot and its target; otherwise the placeholder is delivered, and no later read fills it |
| `BinderCalls.DeepestIsLast` | src/fs/binder.c:1277-1296 | the deepest entry of a thread is the one noted last |
| `BinderCalls.PushKeeps` | src/fs/binder.c:1255-1274 | filling a free slot pushes one debt on one thread's stack and leaves every other stack |
| `BinderCalls.PopKeeps` | src/fs/binder.c:1276-1296 | clearing the deepest slot pops that debt and leaves every other stack |
| `BinderCalls.FullExactly` | src/fs/binder.c:1255-1274 | the table is full exactly if the replies owed by all its threads together number 64 |
| `BinderCalls.NotesKeeps` | src/fs/binder.c:1255-1274 | noting a call in a table with room adds it to the noting thread's debts and to no other's |
| `BinderCalls.TakenKeeps` | src/fs/binder.c:1276-1296 | taking a call removes the innermost debt of the taking thread and no other |
| `BinderCalls.Calls.Note` | src/fs/binder.c:1255-1274 | a thread owes one reply more, unless all 64 slots are taken; other threads owe what they owed |
| `BinderCalls.Calls.Take` | src/fs/binder.c:1276-1296 | the innermost debt of the thread is returned and forgotten, or 0 if it has none; other threads owe what they owed |
| `BinderNodes.NodeFor` | src/fs/binder.c:707-725 | an object's one handle, entered in the first free place if it had none; 0 exactly if it is unknown and the table is full |
| `BinderNodes.Translate` | src/fs/binder.c:1601-1653 | one object is renamed for its receiver; refused exactly if it is an unknown own object and the table is full; announced exactly when first registered |
| `BinderNodes.RegisteredKeeps` | src/fs/binder.c:707-725 | registration keeps one handle per (owner, pointer) and changes no handle there was |
| `BinderNodes.OneHandle` | src/fs/binder.c:697-706 | two handles that name one object are one handle |
| `BinderNodes.SentKeeps` | src/fs/binder.c:1601-1653 | what an object means (owner, pointer, strong or weak), read from its kind and the low half of its name, is the same to receiver and sender, and its flags stay |
| `BinderNodes.Arrives` | src/fs/binder.c:1601-1653 | an object arrives as a pointer exactly if it came as a handle to its owner, with the registered cookie; a self-sent object stays a handle, with cookie 0; a handle to anyone else stays as it was |
| `BinderNodes.SameEverywhere` | src/fs/binder.c:1591-1655 | sent by its owner through any chain of endpoints, an object means the same at each of them |
| `BinderNodes.ComesHome` | src/fs/binder.c:1591-1655 | back at its owner it is the pointer, kind and first-registered cookie it left with |
| `BinderObjects.FlatWritten` | src/fs/binder.c:125-129 | an object written into a message's bytes is read back as it was |
| `BinderObjects.TranslateAll` | src/fs/binder.c:1591-1659 | for objects that do not overlap, each in turn is translated where it lies and no other byte changes; the sender is told of each newly registered object once, in order |
| `BinderObjects.MessageKeeps` | src/fs/binder.c:1591-1655 | in a translated message every object that meant something to the sender means the same to the receiver |
| `BinderRegistry.ReachesOne` | src/fs/binder.c:670-696 | a handle reaches at most one endpoint |
| `BinderShared.Shared.Resolve` | src/fs/binder.c:670-696 | the slot of the context's manager for handle 0, or of the object's owner in the same context; -1 exactly if there is none |
| `BinderParcel.LayOut` | src/fs/binder.c:1464-1467 | data, offsets and buffers follow one another on eight-byte boundaries without overlap, and there is an entry for every eight bytes of the table of offsets |
| `BinderParcel.PlacesGrow` | src/fs/binder.c:1673-1692 | the places given to the buffers are disjoint and in order |
| `BinderParcel.PlacesPacked` | src/fs/binder.c:1673-1692 | each buffer goes at the first multiple of eight after the one before it |
| `BinderParcel.BufWritten` | src/fs/binder.c:134-137 | a buffer object written at an offset of the table is read back field by field: pointer, length, parent and parent offset |
| `BinderParcel.ObjKept` | src/fs/binder.c:1669-1692 | rewriting pointer fields never changes what the table of offsets names |
| `BinderParcel.Gather` | src/fs/binder.c:1669-1693 | each buffer is copied to its place and its pointer becomes that offset; refused exactly if some buffer does not fit or is unmapped, with the first one's error |
| `BinderScatter.Unpatched` | src/fs/binder.c:1963-1977 | bytes outside the parents' slots are as they were staged |
| `BinderScatter.SlotFilled` | src/fs/binder.c:1963-1977 | a slot that no later one meets holds its child's address |
| `BinderScatter.RelocateStep` | src/fs/binder.c:1929-1979 | one object's turn gives it its address and fills its parent's slot, and leaves the other objects |
| `BinderScatter.Scatter` | src/fs/binder.c:1924-1979 | every offset becomes an address in the allocation, and every slot, as far into the parent as the child says, is filled |
| `BinderScatter.GraphDelivered` | src/fs/binder.c:1669-1979 | the pointer graph is delivered: each pointer leads to where its buffer was placed and to a copy of the sender's bytes outside the slots, each slot to its child, all copies disjoint inside the allocation |
| `BinderCarriage.RenamedParse` | src/fs/binder.c:1591-1693 | renaming the objects of a parcel leaves its buffer objects and their pointers as they were, where no two objects share a byte |
| `BinderCarriage.AllRead` | src/fs/binder.c:123-137 | what the table of offsets names is what the bytes say: kind, low bit of the flags, length, parent and parent offset, each at its own place |
| `BinderCarriage.ConveyedReceived` | src/fs/binder.c:1591-1979 | a parcel that arrives is received, byte for byte: in the bytes alone, each buffer's pointer leads to a copy of the sender's, each place a child's address belongs in holds the child's pointer, each object means what it meant, and every other byte is the sender's |
| `BinderCarriage.Arrives` | src/fs/binder.c:1591-1979 | renamed, gathered and scattered, a parcel names the same objects, they mean to the receiver what they meant to the sender, the pointer graph is delivered, and every byte outside those objects and the buffers' pointers is the same |
| `BinderCarriage.Stage` | src/fs/binder.c:1464-1693 | the sender's half: refused for size, for a full table of handles, or with the first bad buffer's error, and otherwise renamed and gathered |
| `BinderCarriage.Land` | src/fs/binder.c:1870-1979 | the receiver's half: a buffer of the arena that was free, or none exactly if there is no room or record, and the parcel relocated to it |
| `BinderCarriage.Carry` | src/fs/binder.c:1464-1979 | from the sender's write to the receiver's arena: any parcel of at most 8192 bytes whose objects do not overlap and whose parents come earlier arrives as Arrives says and is received as ConveyedReceived says of its bytes, or is refused for one of the source's reasons, or waits for room |
| `BinderRegistry.OpensKeeps` | src/fs/binder.c:1095-1143 | opening, with or without reaping, keeps ids, managers and message numbers distinct |
| `BinderRegistry.AltersKeeps` | src/fs/binder.c:2373-2392 | adopting, closing, dropping and becoming manager keep them distinct |
| `BinderRegistry.PostsKeeps` | src/fs/binder.c:1765-1766 | posting under the next number keeps message numbers distinct |
| `BinderRegistry.WithdrawsKeeps` | src/fs/binder.c:1791-1798 | withdrawing keeps them distinct |
| `BinderShared.Shared.Open` | src/fs/binder.c:1095-1143 | the first free slot, after reaping if there was none, becomes a new endpoint of that process and context under the next id, with one reference and an empty queue; -1 exactly if every slot belongs to a live process; no other slot changes but those of the dead |
| `BinderShared.Shared.Adopt` | src/fs/binder.c:561-581 | one more reference on the endpoint and nothing else, or nothing exactly if it is not there |
| `BinderShared.Shared.Close` | src/fs/binder.c:1202-1216 | one reference fewer and nothing else, and the last takes the endpoint with it |
| `BinderShared.Shared.SetManager` | src/fs/binder.c:2370-2392 | refused exactly if another live endpoint manages the context; otherwise this endpoint does, and nothing else changes |
| `BinderShared.Shared.Post` | src/fs/binder.c:1479-1528 | the message goes whole to the first free place of the slot under the next number; -1 exactly if all 32 are taken |
| `BinderShared.Shared.Withdraw` | src/fs/binder.c:1789-1798 | the place is given back exactly if the endpoint is still the one to be woken, without regard to what the place now holds, and the endpoint with it if its process is gone |
| `BinderShared.Shared.Collect` | src/fs/binder.c:1816-2048 | every message of the slot but the replies owed to other threads is collected, in order of place, each in a live buffer of its own of the right size, and those replies and every other slot stay; unless it stops at a message for which the arena has no room or no record, or whose buffer is not mapped |
| `BinderShared.PassExact` | src/fs/binder.c:1832-1870 | a pass takes a message exactly if it is no reply, is owed to nobody or to its own thread, and touches no other |
| `BinderShared.WholePass` | src/fs/binder.c:1832-1870 | a whole pass leaves of its slot the replies owed to other threads, and of every other slot everything |
| `BinderShared.PassCollects` | src/fs/binder.c:1832-2045 | a pass is a sequence of single collections |
| `BinderSystem.NoReturn` | src/fs/binder.c:1132-1139 | no step brings an id back into use |
| `BinderWake.AwakeKept` | src/fs/binder.c:2242-2272 | every step, of any thread, keeps each waiting message expected by somebody |
| `BinderFates.FatesKept` | src/fs/binder.c:1765-2045 | every step keeps each number given out in exactly one place: waiting, collected, withdrawn or gone with its slot |
| `BinderFates.TakesBack` | src/fs/binder.c:1789-1798 | a withdrawal takes out the sender's own message exactly if that is still waiting |
| `BinderReplies.RoutedKept` | src/fs/binder.c:1255-1296 | every step keeps each open's table in order and, while no more than 64 calls on it were ever unanswered, equal to the calls its threads have collected and not answered |
| `BinderReplies.ReplyGoesBack` | src/fs/binder.c:1441-1455 | a reply is addressed to the endpoint and thread of the latest unanswered call on its descriptor, answers that one, and touches no other thread's |
| `BinderReplies.RecordedExactly` | src/fs/binder.c:1255-1274 | while no more than 64 calls on its descriptor were ever outstanding, a collected call is recorded exactly if fewer than 64 are |
| `BinderDelivery.PlacedKept` | src/fs/binder.c:1479-1528 | every step keeps a message at the endpoint looked up, unless it was posted after the slot changed hands |
| `BinderDelivery.TracedKept` | src/fs/binder.c:1895-1899 | every step keeps what a message says of its object, its sender and the thread a reply is owed to true of the handle table and of the threads that used the endpoint |
| `BinderRuns.AlwaysDistinct` | src/fs/binder.c:1095-1143 | in every state of every run live ids are distinct, each context has at most one manager and waiting messages have distinct numbers |
| `BinderRuns.NeverReused` | src/fs/binder.c:1095-1143 | an id that has gone out of use is never in use again |
| `BinderRuns.HandlesLast` | src/fs/binder.c:697-725 | over any run a handle goes on naming the same object under its first cookie, and no object gets a second handle |
| `BinderRuns.EveryFate` | src/fs/binder.c:1765-2045 | every message ever posted is waiting, was collected or withdrawn once, or went with its slot, and only one of these |
| `BinderRuns.CollectedOnce` | src/fs/binder.c:1832-2045 | no message is collected twice |
| `BinderRuns.WithdrawsOwn` | src/fs/binder.c:1789-1798 | in every run a withdrawing sender takes out its own message exactly if that is still waiting |
| `BinderRuns.NoLostWakeup` | src/fs/binder.c:1765-1801 | while an endpoint's fifo is held open, a waiting message means a byte in it, a sender yet to wake it or withdraw, or a reader about to look again |
| `BinderRuns.RepliesGoBack` | src/fs/binder.c:1441-1455 | in every run a reply goes to the latest call its thread collected on that descriptor and has not answered, while no more than 64 on it were ever unanswered at once |
| `BinderRuns.OnlyOwedCollects` | src/fs/binder.c:1832-1868 | in every state of every run, a waiting reply can be collected by none but the thread it is owed to exactly if no other thread is reading the endpoint under that port name |
| `BinderRuns.OwnPortsSuffice` | src/fs/binder.c:1832-1868 | which is so where no two users of the endpoint share a port name and the slot has not changed hands |
| `BinderRuns.CollectsExactly` | src/fs/binder.c:1832-1868 | a thread reading an endpoint can collect a waiting message next exactly if it is no reply, or one owed to nobody or to the thread's port name |
| `BinderRuns.AnyReaderCollects` | src/fs/binder.c:1832-1868 | in every state of every run any thread reading the endpoint can collect a waiting message that is not owed to another |
| `BinderRuns.OwedThreadCollects` | src/fs/binder.c:1832-1868 | a reply owed to a thread has been collected under its port name, and by that thread itself where no two users of the endpoint share a port and the slot had not changed hands |
| `BinderRuns.ReachesWhoWasMeant` | src/fs/binder.c:1435-1457 | a collected message reached the endpoint looked up exactly if it is not one of those posted into a changed slot |
| `BinderRuns.StrayMeans` | src/fs/binder.c:1479-1528 | those are exactly the messages for which the slot had another id when they were posted |
| `BinderRuns.CallReachesObject` | src/fs/binder.c:1895-1899 | in every run a collected call on a handle carries the pointer and first cookie of the object the handle names, and reached that object's owner exactly if it is not one of those |
| `BinderSent.DeliveredWasSent` | src/fs/binder.c:1435-1524 | in every run every message delivered is, field by field, a call some thread made before, from the endpoint of its descriptor to the manager of that context or the owner of the object, or a reply to the latest call its thread had not answered; a call comes with its object, and one on handle 0 with the caller's cookie |
| `BinderContexts.CallsStayInContext` | src/fs/binder.c:670-696 | in every run a call is sent only to an endpoint of the context its own endpoint was opened in, and on handle 0 to the one manager of it |
| `BinderRefs.AlwaysCounted` | src/fs/binder.c:561-581 | in every run a live endpoint has at least as many references as descriptors opened on it and closes under way, and exactly as many while no process has died |
| `BinderRefs.LastCloseEnds` | src/fs/binder.c:1202-1216 | closing a descriptor ends the endpoint only if no other is left on it, and exactly then while no process has died |
| `BinderRefs.HeldOutlivesCloses` | src/fs/binder.c:1202-1216 | in every run an endpoint that some descriptor is open on outlives the close of another |
| `BinderLock.OneHolder` | src/fs/binder.c:2329-2438 | where every step waits for its process's lock, no two threads of a process are ever inside it at once, between taking the lock and the end of the call or the wait of an empty read |
| `BinderLock.OnlyOwedCollectsLocked` | src/fs/binder.c:2195-2209 | the condition on a waiting reply, exactly, with that lock: no other thread whose process leaves it the lock is reading under the port name |
| `BinderCases.Astray` | src/fs/binder.c:1435-1479 | a run within the locks in which a call on one endpoint's object is collected by the next owner of the slot, with the first owner's pointer and cookie |
| `BinderCases.WrongProcess` | src/fs/binder.c:1234-1239 | a run within the locks in which two processes hold one endpoint and the reply to a thread of one is collected by a thread of the other with the same port name |
| `BinderCases.WithdrawsAnothers` | src/fs/binder.c:1789-1798 | a run within the locks, whatever the fifo holds, in which a process whose message was collected withdraws the one a third process has since left in its place |
| `BinderCases.SixtyFifth` | src/fs/binder.c:1255-1274 | a run within the locks in which the reply to the last of 65 unanswered calls, collected in as many reads, goes to the caller before it |
| `Stage2.Recorded` | lib/vmm_arm64.c:95-110 | what recording a range leaves at every block and every host page, with reference counts kept |
| `Stage2.Forgotten` | lib/vmm_arm64.c:112-128 | forgetting a range removes its blocks and their host pages and keeps the maps inverse |
| `Stage2.OneBlock` | lib/vmm_arm64.c:130-150 | one host page has one block |
| `Stage2.AcceptedExactly` | lib/vmm_arm64.c:217-240 | the hypervisor accepts a mapping exactly if the range is mapped throughout or not at all and none of its pages is mapped elsewhere |
| `Stage2.MapInverse` | lib/vmm_arm64.c:217-240 | an accepted mapping keeps the maps inverse exactly if the range keeps every host page it had |
| `Stage2.UnmapExact` | lib/vmm_arm64.c:243-257 | unmapping keeps the invariant exactly if the range is mapped throughout or not at all |
| `Stage2Registry.Registry.RecordRange` | lib/vmm_arm64.c:95-110 | the loop over granules leaves what recording the range means |
| `Stage2Registry.Registry.ForgetRange` | lib/vmm_arm64.c:112-128 | the loop over granules leaves what forgetting the range means |
| `Stage2Registry.Registry.Map` | lib/vmm_arm64.c:217-240 | success, and keeping the invariant, each exactly under its condition; every granule of the range has its host page and the permission, counts are kept, and no other block or page changes |
| `Stage2Registry.Registry.Unmap` | lib/vmm_arm64.c:243-257 | exactly the blocks of the range and their host pages are forgotten, and the invariant kept exactly under its condition |
| `Stage2Registry.Registry.BlockFor` | lib/vmm_arm64.c:151-176 | the host page's own block with its permission widened by exactly what was asked and references kept, or the offered one with it, or with read where none was asked; no other block changes; the invariant is kept exactly if the offered block was free |
| `Stage2Registry.Registry.Ref` | lib/vmm_arm64.c:187-193 | one reference more on a known block and nothing else |
| `Stage2Registry.Registry.Unref` | lib/vmm_arm64.c:196-205 | one reference fewer; true exactly if a known block has none left |
| `Stage2Registry.Registry.ClearRefs` | lib/vmm_arm64.c:207-215 | every count is 0 and nothing else changes |
| `Stage2Registry.Registry.Reprotect` | lib/vmm_arm64.c:331-339 | a known block has exactly the new permission, in registry and hypervisor alike, and its host page, its count and every other block are as they were |
| `Stage2Registry.Registry.Reflush` | lib/vmm_arm64.c:341-350 | registry and hypervisor are as they were |
| `Stage2Registry.Registry.Execute` | lib/vmm_arm64.c:95-350 | any run of legal operations succeeds, keeps the maps inverse and the hypervisor's table equal to the registry |
| `Stage2Registry.RefsSurvive` | lib/vmm_arm64.c:100-103 | in any legal run a block's count changes only by counting or unmapping it |
| `Stage2Registry.PermissionsSurvive` | lib/vmm_arm64.c:151-350 | in any legal run a block's permission changes only by mapping, unmapping or widening it, or by changing it |
| `Stage2Registry.ReprotectLasts` | lib/vmm_arm64.c:331-339 | a permission given to a known block is what it has after any legal run that does not do one of these |
| `Stage2Registry.MovedBlock` | lib/vmm_arm64.c:217-240 | a block moved to another page is accepted and leaves the old page indexed |
| `Stage2Registry.HalfUnmapped` | lib/vmm_arm64.c:243-257 | unmapping a half-mapped range leaves a block mapped and unregistered |
| `Stage2Handover.Snapshot` | lib/vmm_arm64.c:265-281 | every block once by arena offset, as far as there is room, and how many there are |
| `Stage2Handover.Restore` | lib/vmm_arm64.c:291-309 | every entry with an arena offset is back at that offset's address, nothing else is there, and the hypervisor agrees |
| `Stage2Handover.HandoverKeeps` | lib/vmm_arm64.c:265-309 | snapshot then restore gives the same place, arena offset and permission for every arena-backed block and leaves out the others |
| `Stage2Handover.SnapshotRestorable` | lib/vmm_arm64.c:265-309 | a snapshot of a consistent registry can be restored wherever offsets have aligned addresses of their own |
| `Stage2Handover.Handover` | lib/vmm_arm64.c:265-309 | snapshot and restore into a new registry: with room for the list and the arena in place, the new registry is valid, agrees with its hypervisor and holds exactly the arena-backed blocks at their offsets and permissions |
| `Stage2Handover.Replay` | lib/vmm_arm64.c:354-364 | a new virtual machine accepts every mapping and ends equal to the registry |
| `Aio.OneFewer` | src/fs/aio.c:595-611 | cancelling one request takes it, and it alone, out of the order |
| `Aio.NextKeeps` | src/fs/aio.c:145-189 | every step keeps: reaped, ready, running and queued, in this order, are the accepted requests less the cancelled and the lost ones |
| `Aio.LostExactly` | src/fs/aio.c:404-408 | a request is lost exactly when it is accepted while the tail still names a cancelled one |
| `Aio.Conserved` | src/fs/aio.c:397-411 | in every interleaving live is at most max, and is queued plus running plus ready exactly if no request was submitted behind a loose tail |
| `Aio.ReapedInOrder` | src/fs/aio.c:495-511 | requests are reaped in order of submission, none twice, none cancelled, and none is passed over but the lost ones |
| `Aio.NothingLost` | src/fs/aio.c:397-411 | every accepted request is reaped, cancelled or still in the context exactly if none was submitted behind a loose tail |
| `Aio.ThirdIsLost` | src/fs/aio.c:404-603 | submit, submit, cancel the second, submit: the third is accepted, counted, and on no list |
| `AioEvents.EventsTrue` | src/fs/aio.c:451-456 | in every run each event reaped carries the address its request was submitted with and the result the worker finished it with |
| `AioEvents.ResultLasts` | src/fs/aio.c:170-176 | from when a request is finished to when it is reaped its result does not change, whatever else is finished |
| `AioEvents.SubmittedFound` | src/fs/aio.c:397-411 | a request submitted to a context with room and no loose tail is on the queue under the address it was submitted with, last, where a cancel of that address finds it |
| `AioContext.Context.Submit` | src/fs/aio.c:397-411 | the request is linked at the end of the queue, or behind a loose tail is linked nowhere the queue reaches; refused exactly if live has reached max |
| `AioContext.Context.Take` | src/fs/aio.c:157-161 | the worker has the first request and the queue is the rest |
| `AioContext.Context.Finish` | src/fs/aio.c:170-176 | the request is linked at the end of the ready list with its result, and every other request keeps its own |
| `AioContext.Context.Reap` | src/fs/aio.c:496-502 | the first ready request is reaped with the result it was finished with, and the list is the rest |
| `AioContext.Context.Search` | src/fs/aio.c:596-611 | the first request with the address, and the one before it |
| `AioContext.Context.Cancel` | src/fs/aio.c:593-612 | the first request with the address leaves the queue; the tail is left off the queue's end exactly if the request was the last of several, or the tail was off it already and the queue is not empty |
| `AioContext.Unlinked` | src/fs/aio.c:600-605 | taking one request out keeps both chains, and the tail exactly if it was not the last of several |
| `AioContext.Stranded` | src/fs/aio.c:404-408 | a request appended after such a cancel is on no list |
| `AioContext.Perform` | src/fs/aio.c:145-612 | each operation on the linked lists is the step of the protocol it names, or none exactly if that step cannot be taken |
| `AioContext.Drive` | src/fs/aio.c:145-612 | whatever sequence of operations is tried on a new context, its states are those of the run it names, and each event it returns carries the address and the result of its request |
| `AioVectors.Gather` | src/fs/aio.c:324-356 | the stretches in order in one buffer; refused exactly for more than 1024 or one outside memory |
| `AioVectors.GatheredAt` | src/fs/aio.c:344-353 | byte k of a stretch comes after every byte of the stretches before it |
| `AioVectors.Scatter` | src/fs/aio.c:431-449 | what was read is written into the stretches in order until it is used up; refused exactly if that much of them is not all in memory |
| `AioVectors.Outside` | src/fs/aio.c:440-447 | no byte outside the stretches changes |
| `AioVectors.RoundTrip` | src/fs/aio.c:324-449 | a buffer scattered over separate stretches and gathered again is the same buffer |
| `KernelHeaders.Resolve` | util/kernel_headers.py:134-217 | the one-pass reader with its stack gives, of every well-nested header, the first true branch of each group, and refuses it exactly if its meaning meets an unknown condition; every other header is refused |
| `KernelHeaders.SkipBlock` | util/kernel_headers.py:160-212 | in an untaken branch nothing is evaluated, defined or put out |
| `KernelHeaders.RunBlock` | util/kernel_headers.py:160-212 | in a live region the machine gives what the block means |
| `KernelHeaders.BalancedIsNested` | util/kernel_headers.py:183-206 | balanced headers are exactly the lines of some nested block |
| `KernelHeaders.ResolveIsMeaning` | util/kernel_headers.py:134-217 | every well-nested header gives the first true branch of each group and is refused exactly if its meaning meets an unknown condition, a name being known if it is defined so far, defined anywhere in the header, known not to be, or in the header's own namespace |
| `KernelHeaders.IfdefExactly` | util/kernel_headers.py:160-174 | where a line is live, an #ifdef goes on as its body means if the name is defined (for the negated form, if it is not), as what follows the body means if it is not, and the header is refused there exactly if nothing is known of the name |
| `KernelHeaders.LocalIs` | util/kernel_headers.py:134-153 | the header's own names are those it defines in any branch, taken or not |
| `KernelHeaders.UnbalancedIsRefused` | util/kernel_headers.py:183-217 | every unbalanced header is refused |

## Left out

- khash: flag bits packed sixteen to a word and the set variant without values; the load limit is the integer form of 0.77n + 0.5.
- `Khash.Table.Resize`: bucket counts are naturals, so a table of 2^31 buckets grows where the macro would wrap and the request be refused; a shrinking reallocation, whose failure the source does not look at, always succeeds.
- Red-black tree: augmentation, RB_PREV and RB_MINMAX, and the splay trees of the same header; the first two mirror what is here.
- Binder sizes: 64-bit wrap-around of sums in arena, pending buffer and parcel bounds; sizes and offsets are naturals.
- `BinderScatter.Scatter`: 64-bit wrap-around of a parent offset is not modelled, so a slot beyond the message is simply not written.
- Binder staging: the copy of data and offsets into a zeroed record before objects are translated, and the retry while a queue is full, which are a plain copy and a bounded wait.
- `BinderCarriage.Carry`: objects that share bytes, or a parent that comes after its child, are carried but nothing is said of them.
- Binder descriptors: BINDER_TYPE_FD stamping, descriptor arrays and the broker.
- Binder commands: the parsing of the write buffer, death notifications, and version and thread-limit requests.
- Binder timing: polling, sleeping, real fifos, file locks and shared mappings; a fifo is a byte count, a process's death an oracle, and each locked section one step.
- `BinderRuns.NoLostWakeup`: a sender whose wake found nobody holding the fifo counts as on its way until it withdraws, because the fifo may be opened in between.
- `BinderSystem.Next`: the cookie a replier passes along, which no receiver of a reply reads, is 0; a read that goes on to re-arm is allowed to for any reason, which includes bytes still pending; the pending bytes themselves are in BinderPending.
- Guest memory: a mapped address stands for a contiguous region; address translation is an oracle.
- Stage 2: the framework's partial unmap is taken as refused without effect; registers, vCPUs, trampoline, cache maintenance and exits are not modelled.
- Stage 2 iteration: hash-table order is any order; arena addresses are assumed functions.
- aio: the operations themselves, eventfd signals, timeouts and condition variables, the table of contexts, and freeing on destroy.
- `Aio.NothingLost`: a cancelled request is freed, so a submit behind a loose tail writes into freed memory; that the new request is then on no list holds as long as that memory has not become a live request again, and what such a write does to one is not modelled.
- Header reader: the regular expressions that classify lines, and the evaluation of an expression, which is an oracle that may fail.
