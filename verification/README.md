# Verification of a distributed transactional database

This Dafny project models the parts of the database where correctness is hardest to see from one
function, and proves what they promise. It stands on its own: nothing of the database is run.

- **Indexable skip list** (`RandomAccessSkipList`, with `SpanLinks` as its pure side). Nodes with one
  `next` pointer and one `span` distance per level are changed in place. A ghost sequence of nodes in
  level-0 order carries the invariant; each operation refines one on a sorted sequence.
- **Plain skip list** (`PlainSkipList`, `SortedChains`). Every level is a sorted chain of the nodes that
  reach it. The order of both lists is any strict weak order (`Ordering`).
- **Start / stop / cleanup barrier** (`PhaseBarrier`) and the **phase loop of the Aria managers**
  (`AriaBarrier`). One step is one statement of a manager or a thread, or one delivered message; messages
  are a bag, so they arrive in any order. The theorems are about every state of every run, for any
  number of nodes (at least two) and threads; `AriaEnding`, by the measure in `AriaGain`, bounds what is
  left of a run once the stop flag is up. `AriaBatch` is the compaction between two batches.
- **Reservation words** (`AriaReservation`). Load and compare-and-swap are separate steps of any number
  of threads, and a swap may fail spuriously.
- **Clay planner**: `CoAccessGraph` is the graph as a function of the transaction history alone,
  `ClayPlanner` the maps and queues that the planner keeps, `MovePlans` what its planning loop may do,
  `ClumpSearch` and `Connectivity` the search for clumps, `Sums` the sums over keys and pairs.
- **Wire path**: `StreamReader` reassembles messages, `MessageHeader` has the packed headers,
  `RouterCodec` routed transactions; `Bits` and `Bytes` are their foundations.
- **Operation log** (`OperationCodec`, `TpccRows`, `TpccReplay`). New-Order and Payment (Clauses 2.4.2.2 and 2.5.2.2
  of the TPC-C specification) on a master, the operation they encode, and its replay.
- **Placement** (`Placement`): cyclic replica ranges, the two Star placements, the routing words.
- **Query clusterer** (`QueryClusterer`, `IndexBitmap`). The answers of the similarity tests and of the
  nearest-neighbour tree are parameters: what they decide is proved for all of them.

`dafny verify dfyconfig.toml` checks everything.

Some properties hold only under a condition that the code does not enforce. Each is proved as an if and
only if.

- The default level generator is safe exactly until the skip list has its full height
  (`LevelDraws.NextLevelIsLinked`).
- The reserved id of a kind is the least one, and calls are refused exactly by smaller ids, exactly if the
  calls of that kind do not mix the id 0 with others, because 0 also stands for no reservation
  (`AriaReservation.LeastExactly`, `AriaReservation.RefusedExactly`).
- Stored loads are those of the graph exactly if one-key transactions access keys of coordinator 0, because
  such a transaction never looks its key up (`CoAccessGraph.LoadIsGraphLoad`).
- A booked move is exact exactly if the key leaves no co-accessed key behind and is never accessed alone
  (`CoAccessGraph.MoveIsExact`). For a plan of several keys `MovePlans.BookedFallsShort` says by how much the
  bookings and the graph differ.
- A message is handed out exactly if it fits the buffer of 4 MB and its bytes have been read
  (`StreamReader.BufferedReader.Await`).
- The message count in a header is right exactly below 2^15, the length of a piece exactly below 4096 bytes,
  so for routed transactions exactly up to 447 keys, and their destination exactly within a signed 32-bit
  integer (`MessageHeader.FlushCounts`, `MessageHeader.PieceHeaderIsFaithful`, `RouterCodec.PieceIsWellCut`,
  `RouterCodec.ReceivedIsSent`).
- A replayed customer is that of the master exactly if the text was written anew or holds no zero byte
  (`TpccReplay.CustomerFollows`).
- The search for a free index finds the lowest one exactly if it is not misled: it keeps its position within
  the first byte when that byte is full (`IndexBitmap.Bitmap.NextUnsettedBit`). The clusterer always
  searches from 0, where this does not happen.

In four places the code departs from its own checks or comments, and the model follows the code. A piece
header is checked to be shorter than 2^14 bytes, but its length field has 12 bits. A message count is
checked to be below 2^20, but its field has 15. A commit in `protocol/Star/Star.h` leaves the ids of the
master's rows as they were and gives the new id to the operation only, so only a replica's rows carry it.
`protocol/Aria/AriaExecutor.h` says at line 342 that the ids of a batch start from 1, but the first worker
counts from 0.

## Model

| member | source | states |
|---|---|---|
| RandomAccessSkipList.SkipList.constructor | common/skiplist/random_access_skip_list.h:845-861 | an empty list satisfies the whole invariant: on every level the nodes of at least that level, linked in strictly increasing order, every span the level-0 distance of its link |
| RandomAccessSkipList.SkipList.FindChain | common/skiplist/random_access_skip_list.h:892-919 | the result is the rank of the value, and the chain holds on every level the last node before that rank that reaches the level |
| RandomAccessSkipList.SkipList.FindChainTo | common/skiplist/random_access_skip_list.h:925-953 | the same search path for a given node, whose index it returns |
| RandomAccessSkipList.SkipList.FindEndChain | common/skiplist/random_access_skip_list.h:959-984 | the search path of the end of the list |
| RandomAccessSkipList.SkipList.NewLevel | common/skiplist/random_access_skip_list.h:1212-1221 | a draw below the levels in use is kept, one past them opens exactly the next level |
| LevelDraws.NextLevelIsLinked | common/skiplist/skip_list_detail.h:187-194 | a node stays on linked levels exactly when the draw is below the number of levels or a level is still unused; so the default generator with its inclusive clamp is safe for every random number exactly until the list has its full height |
| RandomAccessSkipList.SkipList.Insert | common/skiplist/random_access_skip_list.h:990-1036 | set insertion on the sorted contents; the tail comes back exactly when the key was there, and then no node changes; otherwise one node is added, on the level that its draw gives; the invariant with all spans is kept |
| SpanLinks.SpliceLinked | common/skiplist/random_access_skip_list.h:1010-1025 | the patch loop, run at the search path of a rank, makes every link and every span right for the longer list |
| RandomAccessSkipList.InsertKeepsInv | common/skiplist/random_access_skip_list.h:1010-1029 | all writes of an insertion keep the invariant and give the contents of a set insertion |
| RandomAccessSkipList.SkipList.Remove | common/skiplist/random_access_skip_list.h:1041-1074 | exactly the element at the position of the node is gone, all links and spans are right again |
| RandomAccessSkipList.SkipList.RemoveBetween | common/skiplist/random_access_skip_list.h:1106-1166 | exactly the closed range of positions between the two nodes is gone, spans included |
| SpanLinks.CutLinked | common/skiplist/random_access_skip_list.h:1052-1064 | rewriting the path links so that they bridge a range makes every remaining link and span right for the shorter list |
| SpanLinks.BridgePathsHere | common/skiplist/random_access_skip_list.h:1132-1151 | the links that remove_between computes from two search paths do bridge the range on every level |
| RandomAccessSkipList.RemovalKeepsInv | common/skiplist/random_access_skip_list.h:1141-1151 | the bridged links and the one prev write keep the invariant, and the contents lose exactly the range |
| RandomAccessSkipList.SkipList.RemoveAll | common/skiplist/random_access_skip_list.h:1079-1101 | the list is empty again; the number of levels in use stays |
| RandomAccessSkipList.ClearedKeepsInv | common/skiplist/random_access_skip_list.h:1090-1096 | relinking the head to the tail with spans of one gives the invariant of the empty list |
| RandomAccessSkipList.SkipList.At | common/skiplist/random_access_skip_list.h:1171-1190 | the node holding the element with that index in sorted order; the span walk ends before the tail |
| RandomAccessSkipList.SkipList.IndexOf | common/skiplist/random_access_skip_list.h:1203-1208 | the one index whose node this is, or the size for the tail; with At, both directions of the inverse |
| RandomAccessSkipList.SkipList.Find | common/skiplist/random_access_skip_list.h:874-887 | the last node that is not greater than the value, or the head |
| RandomAccessSkipList.SkipList.Contains | common/skiplist/random_access_skip_list.h:644-648 | true exactly when an equivalent element is in the contents |
| RandomAccessSkipList.SkipList.Erase | common/skiplist/random_access_skip_list.h:593-605 | set deletion, with the number of erased elements |
| RandomAccessSkipList.SkipList.EraseAt | common/skiplist/random_access_skip_list.h:688-693 | exactly the element at the index is gone |
| Ordering.EraseUndoesInsert | common/skiplist/random_access_skip_list.h:593-605 | erasing a key that was not there before its insertion gives the old contents back |
| PlainSkipList.SkipList.constructor | common/skiplist/skip_list.h:1003-1017 | an empty list satisfies the invariant: each level a sorted chain of exactly the nodes that reach it, prev pointers along level 0, allocated nodes exactly the linked ones |
| PlainSkipList.SkipList.Insert | common/skiplist/skip_list.h:1102-1164 | set insertion; a duplicate is linked and removed again, and then all chains, the item count and the set of allocated nodes are as before; otherwise the node is at its rank on each level it reaches, whatever hint was given |
| PlainSkipList.SkipList.InsertHinted | common/skiplist/skip_list.h:655-665 | for any hint in the list the same result as without one |
| PlainSkipList.SkipList.LinkDown | common/skiplist/skip_list.h:1116-1134 | walking down and linking as it goes puts the new node at its rank on exactly the levels up to its own |
| PlainSkipList.SkipList.Link | common/skiplist/skip_list.h:1110-1144 | before the test for a duplicate the list is right up to that duplicate, which is the first of its key on each level, so that a removal can find it |
| SortedChains.AddedInv | common/skiplist/skip_list.h:1128-1141 | linking a node at its rank on its levels keeps the invariant, with a strict order exactly claimed when the key is new |
| SortedChains.FirstInAdded | common/skiplist/skip_list.h:1154-1159 | a just linked node is the first of its key on each of its levels, and unlinking it gives all chains back |
| PlainSkipList.SkipList.DuplicateTest | common/skiplist/skip_list.h:1155-1155 | the one comparison behind the new node finds exactly the duplicates |
| PlainSkipList.SkipList.Remove | common/skiplist/skip_list.h:1169-1219 | the node is off every level and freed, nothing else changes |
| SortedChains.DroppedInv | common/skiplist/skip_list.h:1174-1207 | unlinking a node keeps the invariant |
| PlainSkipList.SkipList.RemoveBetween | common/skiplist/skip_list.h:1248-1296 | all levels lose exactly the nodes in the closed value range, and the contents the elements in it |
| SortedChains.KeptInv | common/skiplist/skip_list.h:1263-1284 | unlinking a closed value range level by level keeps the invariant |
| PlainSkipList.SkipList.Release | common/skiplist/skip_list.h:1287-1294 | the removed nodes still lead from the first to the end, so the item count drops by exactly their number |
| Ordering.ErasedBetweenIsRange | common/skiplist/skip_list.h:1271-1283 | the elements between the rank of the low and the upper bound of the high value are exactly those in the closed range |
| PlainSkipList.SkipList.RemoveAll | common/skiplist/skip_list.h:1224-1244 | the list is empty, the number of levels stays |
| PlainSkipList.SkipList.Find | common/skiplist/skip_list.h:1063-1078 | the last node not greater than the value, or the head |
| PlainSkipList.SkipList.Contains | common/skiplist/skip_list.h:739-743 | true exactly when an equivalent element is in the list |
| PlainSkipList.SkipList.Erase | common/skiplist/skip_list.h:688-701 | set deletion, with the number of erased elements |
| PlainSkipList.SkipList.EraseNode | common/skiplist/skip_list.h:705-714 | exactly the element of the given node is gone |
| PhaseBarrier.RunKeepsInv | core/Manager.h:33-80 | an inductive invariant of every run with any number of nodes and threads and any delivery order: counters, status words, and how many SIGNAL, STOP and ACK messages are queued, under way and consumed |
| PhaseBarrier.NoEarlyCleanup | core/Manager.h:33-98 | no node publishes CLEANUP before every thread on every node has left its execution loop and been counted |
| PhaseBarrier.StopsAreExact | core/Manager.h:145-164 | in every run a manager past its wait for STOP messages has consumed exactly one from every other node, none is under way to it and its queue is empty, although they carry no sender |
| PhaseBarrier.StatusIsSeen | core/Executor.h:165-199 | a status word goes through STOP, START, STOP, CLEANUP and from START on is overwritten only after every local thread has acted on it |
| PhaseBarrier.CoordinatorReturnsLast | core/Manager.h:33-57 | when the coordinator returns every manager is done, every thread has finished its cleanup, and no message is left |
| PhaseBarrier.NoStopBeforeFlag | core/Manager.h:45-49 | no thread leaves its execution loop before the stop flag is up |
| PhaseBarrier.StuckIsDone | core/Manager.h:33-80 | in a reachable state where nothing can move everything is done |
| PhaseBarrier.EveryRunEndsDone | core/Manager.h:33-98 | runs are no longer than an explicit bound in nodes and threads, and one that cannot go on has ended properly |
| AriaBarrier.RunKeepsInv | protocol/Aria/AriaManager.h:46-149 | an inductive invariant of every run over any number of rounds |
| AriaBarrier.NeverReadAndCommit | protocol/Aria/AriaManager.h:46-149 | no node is in Aria_READ while another is in Aria_COMMIT |
| AriaBarrier.EpochsAgree | protocol/Aria/AriaManager.h:46-149 | the epochs of two nodes differ by at most one, and all are equal while any node is in Aria_READ |
| AriaBarrier.BarrierHolds | protocol/Aria/AriaManager.h:62-88 | past its wait for STOP messages a manager has an empty queue, none is under way to it, and all threads of all nodes are done with the phase |
| AriaBarrier.StopsAreExact | protocol/Aria/AriaManager.h:66-86 | in every run a manager that has taken n-1 STOP messages has taken exactly one of the current phase from each other node, none is under way to it and its queue is empty |
| AriaBarrier.SignalIsExpected | protocol/Aria/AriaManager.h:94-149 | a waiting manager has at most one signal queued, and it is the one its phase asks for: COMMIT, or READ, or EXIT once the coordinator leaves |
| AriaBarrier.StatusIsSeen | protocol/Aria/AriaExecutor.h:127-285 | a status word is overwritten only after every local thread has acted on it |
| AriaBarrier.StuckIsDone | protocol/Aria/AriaManager.h:46-149 | when nothing but the stop flag can move, the flag is up and everything is done |
| AriaBarrier.RunsNeverDeadlock | protocol/Aria/AriaManager.h:46-149 | the same for the last state of every run |
| AriaEnding.StoppedRunsEnd | protocol/Aria/AriaManager.h:46-149 | once the stop flag is up the coordinator leaves its loop at the head of this round or of the next, and a run goes on for no more steps than an explicit bound in nodes and threads, whatever rounds came before; when it cannot go on everything is done |
| AriaBatch.CleanupBatch | protocol/Aria/AriaManager.h:151-174 | the aborted transactions are in front, in their old order and numbered from 0; the queue holds the same transactions; no other id changed |
| AriaBatch.CompactSwap | protocol/Aria/AriaManager.h:156-166 | one swap keeps the front part equal to the aborted transactions seen so far, in order |
| AriaReservation.SetRtsFields | protocol/Aria/AriaHelper.h:105-112 | setting the read id changes that field only |
| AriaReservation.SetWtsFields | protocol/Aria/AriaHelper.h:114-121 | setting the write id changes that field only |
| AriaReservation.SetEpochFields | protocol/Aria/AriaHelper.h:96-103 | setting the epoch changes that field only |
| AriaReservation.FieldsDetermineWord | protocol/Aria/AriaHelper.h:96-137 | the three fields are the whole word |
| AriaReservation.NewValueIsReserve | protocol/Aria/AriaHelper.h:46-94 | for every id, 0 included, the decision and the new word of one call are those of an atomic reservation on the three fields |
| AriaReservation.RunLinearizes | protocol/Aria/AriaHelper.h:46-94 | any interleaving of loads and swaps of any number of threads, with spurious failures, is equivalent to the returned calls executed atomically in some order, with the same answers |
| AriaReservation.ReplayEpoch | protocol/Aria/AriaHelper.h:54-54 | no call takes the word past the epoch, so the check on the epoch never fires |
| AriaReservation.RefusedByLive | protocol/Aria/AriaHelper.h:60-63 | in every run a call is refused exactly when a smaller live id of its kind was there before it, where a call with id 0 erases the ids of its kind that came before |
| AriaReservation.FinalWord | protocol/Aria/AriaHelper.h:46-94 | at the end of every complete run the epoch is that of the calls and each field is the least live id of its kind |
| AriaReservation.LeastInRun | protocol/Aria/AriaHelper.h:46-94 | when the calls of a kind do not mix the id 0 with others, the field is at the end of every complete run their least id, a reservation made before in the epoch included |
| AriaReservation.LeastExactly | protocol/Aria/AriaHelper.h:46-94 | the field is the least id of its kind in every complete run, if and only if the calls of the kind do not mix the id 0 with others; with a mix there is a run that ends with another id |
| AriaReservation.RefusedBySmaller | protocol/Aria/AriaHelper.h:60-63 | without such a mix a call is refused exactly when a smaller id of its kind took effect before it |
| AriaReservation.RefusedExactly | protocol/Aria/AriaHelper.h:60-63 | refusal by a smaller id that took effect before holds in every run, if and only if the calls of the kind do not mix the id 0 with others |
| AriaReservation.ZeroErases | protocol/Aria/AriaExecutor.h:342-342 | writers 5, 0 and 9 in this order are all admitted and leave 9, so neither promise holds for the ids that a batch starts with |
| AriaReservation.SmallestWins | protocol/Aria/AriaHelper.h:46-94 | the smallest id of its kind is never refused, whatever the ids |
| CoAccessGraph.LoadIsGraphLoad | common/MyMove.h:1651-1775 | after any history every coordinator has exactly the load read off the graph, if and only if every one-key transaction accesses a key of coordinator 0 |
| CoAccessGraph.DegreesSymmetric | common/MyMove.h:1690-1764 | edges have the same degree in both directions |
| CoAccessGraph.CoPositive | common/MyMove.h:1690-1764 | there is an edge exactly between keys that some transaction accesses together |
| CoAccessGraph.ReceiverChange | common/MyMove.h:2099-2119 | for a key anywhere the load of the destination in the graph changes by what is booked and, if the key does move, by the edges to its former neighbours; a key that is there already costs nothing |
| CoAccessGraph.SenderChange | common/MyMove.h:2121-2149 | the same for the sender, with exactly what is booked wrongly for a key that was never there |
| CoAccessGraph.ReceiverChangeOfPlan | common/MyMove.h:2099-2119 | for a plan of any number of keys the load of the destination in the graph changes by what is booked, by the edges to neighbours left behind, less twice the co-accesses within the plan |
| CoAccessGraph.SenderChangeOfPlan | common/MyMove.h:2121-2149 | the same for the sender of a plan |
| CoAccessGraph.MoveIsExact | common/MyMove.h:2099-2149 | after any history the loads booked for a one-key move are those of the graph rebuilt with the key at its new place, if and only if the key has no co-accessed key at its old place and is never accessed alone |
| ClayPlanner.Clay.UpdateRecordDegreeSet | common/MyMove.h:1651-1775 | the stored edges, counts and loads are those of the history with the transaction appended |
| ClayPlanner.Clay.UpdateHottestTuple | common/MyMove.h:1863-1875 | the count of the key grows by one and the key is in the index |
| ClayPlanner.Clay.UpdateNodeLoad | common/MyMove.h:1876-1883 | an edge is charged to the coordinators of both its ends |
| ClayPlanner.Clay.BookPair | common/MyMove.h:1690-1764 | one co-access is booked on its edge, whose ends have the coordinators of the routing |
| ClayPlanner.Clay.StoredGraphAddsUp | common/MyMove.h:1651-1775 | stored edges are symmetric in degree, and stored loads are sums over the stored counts and degrees exactly without misplaced one-key transactions |
| ClayPlanner.Clay.CostDeltaForReceiver | common/MyMove.h:2099-2119 | the sum over the records of what they cost the receiver in the graph of the history |
| ClayPlanner.Clay.CostDeltaForSender | common/MyMove.h:2121-2149 | the sum over the records of what they take off the sender in the graph of the history |
| ClayPlanner.Clay.BookMove | common/MyMove.h:1400-1404 | the booked loads after a one-key move |
| ClayPlanner.Clay.BookedMoveIsExact | common/MyMove.h:1400-1404 | they are the loads of the history with the key at its new place, if and only if the key has no neighbour at its old place and is never accessed alone |
| ClayPlanner.Clay.MyFindClump | common/MyMove.h:1538-1597 | terminates; clumps are disjoint and without repetition, have more than one key and are closed and connected; access counts are those of the history and the frequency of a clump is their sum |
| ClayPlanner.Clay.ClumpsAreChains | common/MyMove.h:1538-1597 | two different keys share a clump exactly when a chain of transactions links them |
| ClayPlanner.Clay.Explore | common/MyMove.h:1553-1586 | what the queue reaches from one key, no key twice |
| ClumpSearch.SearchDone | common/MyMove.h:1553-1586 | when the queue is empty the visited keys are exactly the component of the root, or nothing if the root was visited before |
| ClumpSearch.ClumpsAreComponents | common/MyMove.h:1538-1597 | different keys share a clump exactly when a path connects them |
| Connectivity.ComponentOf | common/MyMove.h:1553-1586 | a closed set that is connected to its root is a connected component |
| ClayPlanner.Clay.GetNeighborCached | common/MyMove.h:1912-1933 | a key that is marked changes nothing; otherwise it and all keys ever accessed together with it are marked, and the queue grows by exactly one stored edge to each of them that was not marked before |
| ClayPlanner.Clay.PopTop | common/MyMove.h:1374-1379 | the queued edge with the highest degree leaves the queue |
| ClayPlanner.Clay.InitialDestPartition | common/MyMove.h:1885-1911 | of the coordinators other than the sender the first of those that would pay least |
| ClayPlanner.Clay.UpdateDest | common/MyMove.h:1817-1841 | the destination stays while it is feasible; otherwise the most related coordinator, else the least loaded one takes its place if feasible |
| ClayPlanner.Clay.GetMostRelatedCoordinator | common/MyMove.h:1943-1979 | some edge of the plan leads to the result, and no coordinator has a greater sum of degrees of such edges |
| ClayPlanner.Clay.IsFeasible | common/MyMove.h:2089-2098 | the destination would stay below the average load, or lose load |
| ClayPlanner.Clay.Book | common/MyMove.h:1400-1404 | the sender gets the cost of the plan for it, and then the destination |
| ClayPlanner.Clay.FindClumpMain | common/MyMove.h:1312-1440 | a call makes a chain of plans. Each begins, while the load is above the average, with the first unmarked key of the heap, whose unmarked neighbours join what earlier plans left in the queue; it takes the queued edges by falling degree, its destination adapted at every step; its last feasible stage is handed out as soon as the bound of infeasible stages is reached or the queue is empty, and is booked. The call ends when the load is down, the heap is used up, or a plan with an empty queue never was feasible. No key is in two plans |
| MovePlans.PlanHelps | common/MyMove.h:2089-2098 | every plan leaves its destination below the average load or with less than before |
| MovePlans.PlanIsLong | common/MyMove.h:1375-1432 | a plan is its first key with the edges taken, all but at most the bound of infeasible ones |
| MovePlans.CheapestIsFeasible | common/MyMove.h:1885-1911 | a plan starts feasible if any other coordinator would have less load with its key |
| MovePlans.RedirectedHelps | common/MyMove.h:1817-1841 | a plan stays infeasible only if neither the most related nor the least loaded coordinator would do |
| MovePlans.RelatedIsCheaper | common/MyMove.h:1943-1979 | among coordinators that have none of the keys yet the most related one is the cheapest |
| MovePlans.BookedFallsShort | common/MyMove.h:1400-1404 | how the loads booked for a plan of several keys differ from those of the graph with the keys at their new place |
| StreamReader.FrontIsFrame | common/BufferedReader.h:52-66 | once its header has arrived the buffer front shows the length of the first undelivered message, and that many bytes are that message |
| StreamReader.BufferedReader.constructor | common/BufferedReader.h:15-16 | nothing is delivered, and the unread stream is all messages |
| StreamReader.BufferedReader.HasMessage | common/BufferedReader.h:111-128 | true exactly when the whole next message is in the buffer |
| StreamReader.BufferedReader.Compact | common/BufferedReader.h:82-98 | the live bytes are unchanged and at the front, by either copying branch |
| StreamReader.BufferedReader.FetchMessage | common/BufferedReader.h:74-109 | without a whole message in the buffer exactly one read, for all the free room, whose bytes follow the live ones; with one there none; live bytes followed by the unread stream stay the same |
| StreamReader.BufferedReader.NextMessage | common/BufferedReader.h:44-72 | delivers exactly the messages of the stream, whole and in order, for every chunking; delivered bytes, live bytes and the unread stream always add up to the original; the next message comes if and only if it is whole after the read that the call makes |
| StreamReader.BufferedReader.Await | core/Dispatcher.h:54-66 | over any number of polls a message comes if and only if the reads have brought it into the buffer; one that fits comes after as many polls as it has bytes at the latest, if the reads bring something, and one that does not fit never comes |
| StreamReader.BufferedReader.InTime | common/BufferedReader.h:100-108 | what the reads bring, piece by piece, completes a message that fits as soon as that many of them bring something, and never one that does not |
| StreamReader.Socket.ReadAsync | common/Socket.h:161-169 | the next bytes of the stream, no more than the next piece and the room, or none if the read fails |
| Bits.SetThenGet | common/Message.h:138-175 | a field reads back as it was set |
| Bits.SetKeepsOthers | common/Message.h:138-207 | setting a field changes no other one |
| MessageHeader.FlushCounts | common/Message.h:113-118 | a flush stores the size and counts one more piece modulo 2^15, exactly while the count fits; the ids stay |
| MessageHeader.PieceHeaderReads | common/MessagePiece.h:70-87 | what a piece header reads back as: the length modulo 4096, what exceeds that added to the type |
| MessageHeader.PieceHeaderIsFaithful | common/MessagePiece.h:70-97 | the length comes back exactly when it is below 4096, and then the type too |
| RouterCodec.WireMessage.Flush | common/Message.h:113-118 | the message holds one more piece and its header says so |
| RouterCodec.WireMessage.ReadPieces | common/Message.h:42-87 | the iterator gives exactly the appended pieces; their number is the header count exactly below 2^15 |
| RouterCodec.NewRouterTransactionMessage | core/ControlMessage.h:62-116 | appends one piece, of the announced size |
| RouterCodec.PieceIsWellCut | core/ControlMessage.h:62-116 | the iterator finds the end of the piece exactly when it has at most 447 keys |
| RouterCodec.RouterTransactionHandler | core/ControlMessage.h:307-400 | recovers every field of the transaction that was encoded |
| RouterCodec.ReceivedIsSent | core/ControlMessage.h:340-380 | the destination comes back exactly when it survives a signed 32-bit integer |
| RouterCodec.SendAll | core/ControlMessage.h:62-116 | one piece for each of any number of transactions |
| RouterCodec.ReceiveAll | core/Executor.h:271-308 | as many pieces as transactions, each recovered; the header count agrees exactly below 2^15 |
| TpccReplay.NewOrder.ReadRows | benchmark/tpcc/Transaction.h:111-178 | the rows of all lines before any write; an unused item number ends the transaction |
| TpccReplay.NewOrder.Execute | benchmark/tpcc/Transaction.h:101-260 | an order that is ok writes for each line the row read with the quantity down by the order, up by 91 if fewer than 10 would be left, one more order, and one more remote order exactly for another warehouse; the district has one more order number; the operation encodes exactly the write set |
| TpccReplay.NewOrder.SupplyLine | benchmark/tpcc/Transaction.h:228-260 | one line changes and logs its stock row as the order makes it |
| TpccRows.OrderCounts | benchmark/tpcc/Transaction.h:221-260 | an order counts once on each stock row it names, however many lines name it, as a remote one exactly if the row is of another warehouse; the quantity is that of the last such line; all other rows stay |
| TpccRows.HomeOrder | benchmark/tpcc/Transaction.h:246-248 | an order with home lines only leaves every remote count as it was |
| TpccReplay.NewOrder.Commit | protocol/Star/Star.h:260-274 | the write set is written in order, so that the last line of a repeated key wins |
| TpccRows.QuantityStaysInRange | benchmark/tpcc/Transaction.h:228-241 | the restocking rule of Clause 2.4.2.2 keeps a quantity between 10 and 100 in that range, by multiples of 91 |
| TpccReplay.Payment.Execute | benchmark/tpcc/Transaction.h:1016-1088 | the two year-to-date sums grow by the amount; the customer pays and is counted if the payment is executed for good, and with bad credit the printed numbers stand in front of the old text; the operation encodes the three rows with the printed part |
| TpccReplay.Payment.PayCustomer | benchmark/tpcc/Transaction.h:1039-1088 | the customer row changes only in the execution phase, and its text only with bad credit |
| TpccReplay.Payment.Commit | protocol/Star/Star.h:260-274 | the three rows are written |
| TpccReplay.Database.ApplyOperation | benchmark/tpcc/Database.h:909-1006 | decodes either kind of operation and changes exactly the rows it names, stamped with its id |
| TpccReplay.Database.ApplyOrder | benchmark/tpcc/Database.h:916-943 | any number of order lines is replayed in order |
| TpccReplay.Database.ApplyPayment | benchmark/tpcc/Database.h:945-1005 | the three rows of a payment are replayed |
| TpccRows.AssignedIsSame | common/FixedString.h:56-69 | assigning a text to itself through a C string changes nothing exactly if it holds no zero byte |
| TpccReplay.CustomerFollows | benchmark/tpcc/Database.h:980-1004 | the replayed customer is that of the master, if and only if the master wrote the text anew or the old text holds no zero byte |
| TpccRows.PaidHasNoZero | benchmark/tpcc/Transaction.h:1066-1068 | one payment brings no zero byte into a text; that the texts hold none at the start is a condition of TpccReplay.Run, which carries it through |
| TpccReplay.StockFollows | benchmark/tpcc/Database.h:929-943 | a stock row that was the same on both sides is the same afterwards, however often a key is repeated, and is stamped exactly if it was written |
| TpccReplay.ReplicateOrder | benchmark/tpcc/Database.h:909-943 | a whole New-Order with its replay: rows equal before are equal after, the touched ones stamped with the id of the operation |
| TpccReplay.ReplicatePayment | benchmark/tpcc/Database.h:909-1006 | the same for a Payment, with the exact condition on the customer text |
| TpccReplay.Run | benchmark/tpcc/Database.h:909-1006 | any sequence of both transactions does to the master, one after the other, what each is for, and, replayed in order, leaves a replica with the values of the master |
| TpccRows.RunCountsOrders | benchmark/tpcc/Transaction.h:186-189 | over any run the next order number of a district goes up by the orders taken there, modulo 2^32 |
| TpccRows.RunCountsLines | benchmark/tpcc/Transaction.h:243-248 | over any run the order count of a stock row goes up by the orders that name it, and its remote count by those of other warehouses |
| TpccRows.RunCountsPayments | benchmark/tpcc/Transaction.h:1073-1074 | over any run the payment count of a customer goes up by the payments executed for good |
| OperationCodec.Encoder.Put | common/Encoder.h:24-38 | a field is appended, and what is still to come completes the operation |
| OperationCodec.Decoder.Int32 | common/Encoder.h:58-63 | reads back the signed number that was written and leaves the rest |
| IndexBitmap.Bitmap.constructor | common/bitmap.h:72-78 | no index is in use |
| IndexBitmap.Bitmap.SetBit | common/bitmap.h:86-90 | exactly this index joins the used ones |
| IndexBitmap.Bitmap.ClearBit | common/bitmap.h:92-96 | exactly this index leaves the used ones |
| IndexBitmap.Bitmap.NextUnsettedBit | common/bitmap.h:98-119 | from any start: a free index not below it, or -1; it is the lowest one, and -1 means that none is free, if and only if the search is not misled by a full first byte; from the first position of a byte it never is |
| IndexBitmap.FullByteMisleads | common/bitmap.h:98-119 | with indices 0 to 7 of 16 in use a search from 1 does not give 8, the lowest free index |
| QueryClusterer.QueryClusterer.constructor | brain/query_clusterer.h:55-60 | no template, no cluster, no index in use |
| QueryClusterer.QueryClusterer.CreateNewCluster | brain/query_clusterer.h:154-169 | a cluster with one template and the lowest index that was free; indices stay different and are the used bits |
| QueryClusterer.QueryClusterer.GetNN | brain/kd_tree.h:125-147 | null exactly for an empty tree, otherwise the cluster at the place the tree answers |
| QueryClusterer.QueryClusterer.UpdateTemplate | brain/query_clusterer.h:170-220 | the template joins exactly the cluster that the tree answers if that is similar enough, and otherwise gets the one new cluster, which the tree gets too; nothing else changes, and the template is in exactly one live cluster, which its entry names |
| QueryClusterer.QueryClusterer.DropCluster | brain/query_clusterer.h:222-226 | the cluster leaves the books and exactly its index becomes free |
| QueryClusterer.QueryClusterer.AddFeature | brain/query_clusterer.h:314-338 | a new template is placed in this way, a known one changes no cluster; the partition, the indices and the tree stay right; an index is needed only for a new template that joins none |
| QueryClusterer.QueryClusterer.UpdateExistingTemplates | brain/query_clusterer.h:227-263 | each template, in some order, leaves its cluster and is placed anew exactly if it has become too unlike; then exactly the empty clusters go; the tree has the live ones |
| QueryClusterer.QueryClusterer.MergeInto | brain/query_clusterer.h:282-291 | all templates of one cluster go over to another, entries included |
| QueryClusterer.QueryClusterer.MergeClusters | brain/query_clusterer.h:265-303 | each cluster, in some order, goes into the first later one that is alike, and exactly those that do are dropped; every template is in exactly one live cluster, and no entry names a dropped one |
| QueryClusterer.MergesFollowed | brain/query_clusterer.h:269-295 | templates of one cluster stay together and end in the last cluster that their merges lead to |
| QueryClusterer.QueryClusterer.UpdateCluster | brain/query_clusterer.h:305-312 | a whole periodic update is these two, one after the other |
| QueryClusterer.QueryClusterer.EnoughIndices | brain/query_clusterer.h:59-59 | there are at most as many clusters as templates, so templates up to half the indices leave enough of them |
| QueryClusterer.NoMoreThanTemplates | brain/query_clusterer.h:133-137 | nonempty clusters that partition the templates are no more than those |
| QueryClusterer.IndexFree | brain/query_clusterer.h:161-163 | fewer clusters than indices leave one free |
| Placement.LionIsBackwardRange | core/Partitioner.h:515-532 | a node holds a replica exactly when it is one of the first ones counted backwards round the ring from the master |
| Placement.HashIsForwardRange | core/Partitioner.h:100-114 | a node holds a replica exactly when it is one of the first ones counted forwards from the master |
| Placement.LionPairIsTwoReplicas | core/Partitioner.h:441-452 | with two replicas the general placement is the pair placement |
| Placement.ReplicasAreRanges | benchmark/ycsb/Database.h:130-141 | the replicas are one range of nodes or, going round, two; there are exactly as many as asked for, the master among them |
| Placement.StarPlacementsAgree | core/Partitioner.h:264-277 | node 0 and all other nodes compute the same two replicas for every partition: node 0 and one other |
| Placement.RouterValue.SetDynamic | core/RouterValue.h:22-32 | the dynamic id is stored and the marked nodes stay |
| Placement.RouterValue.SetSecondary | core/RouterValue.h:40-44 | exactly this node is marked in addition, the dynamic id stays |
| Placement.RouterValue.GetSecondaryArray | core/RouterValue.h:58-68 | exactly the marked nodes |
| Placement.RouterValue.CountIsMembership | core/RouterValue.h:54-56 | the one-bit query is membership among the marked nodes |
| Placement.PartitionRouter | benchmark/ycsb/Database.h:122-141 | the routing word has the master as dynamic id and marks exactly the nodes of the initial placement |
| Placement.InitRouterTable | benchmark/ycsb/Database.h:103-152 | every key has the routing word of its partition |

## Left out

- Sockets, dispatcher threads, files, logging, statistics, flags and all neural, numeric and foreign code.
- `multi_skip_list`, duplicate mode, iterators, allocators and the distribution of levels; a level is a parameter.
- Freeing a node of the indexable list: removed nodes leave the list, and their memory is not modelled; in the plain list they leave the set of allocated nodes.
- PhaseBarrier.RunKeepsInv: what a thread executes inside its loop is one stage, and each wait is one step that is possible once its condition holds.
- AriaBarrier.RunKeepsInv: the work of a phase and the waits inside it are one stage of a thread, and the epoch is unbounded, so the wrap-around of its 32 bits is not modelled.
- A barrier over one node only: with a single node the waits of the source are trivial.
- The commit rule of AriaExecutor and all protocols other than the parts named above.
- ClayPlanner.Clay.CostDeltaForReceiver: costs and loads are unbounded integers, not 32-bit ones.
- ClayPlanner.Clay.FindClumpMain: the heap of hot keys is a sequence of keys of the coordinator, and the average load a parameter; there is at least one other coordinator, as the source checks.
- The choice of the overloaded coordinator, the heap of bounded size, and changes of the routing within a round.
- StreamReader.Socket.ReadAsync: models the peer as a stream of whole messages and a list of the pieces in which the reads bring it.
- RouterCodec.WireMessage.Flush: the time of the flush is left out, and the header is a number whose other fields come from outside.
- RouterCodec.SendAll: the message stays below the 2^27 bytes that its length field can hold.
- Placement.RouterValue.SetSecondary: node ids up to 22, because for greater ones the source shifts a 32-bit integer out of its range, which C++ leaves undefined.
- TpccReplay.NewOrder.Execute: the order rows, which the source fills in and does not store, aborts by conflicts and forwarded requests are left out; operation replication is on.
- TpccReplay.Payment.Execute: floats are opaque and the six printed numbers are a byte string of length at most 500; the history row, which the source fills in and does not store, and the lookup by last name are left out.
- TpccReplay.Run: operations reach the replica in the order of their commits.
- QueryClusterer.QueryClusterer.AddFeature: frequencies, feature vectors and centroids are left out; a new template that joins no cluster needs a free index, because the source does not handle a full bitmap.
- IndexBitmap.Bitmap.NextUnsettedBit: the start lies in a byte of the bitmap, because for others the source may read behind it; `next_setted_bit` is left out.
- Benchmark key generators, table and hash-map wrappers and most string helpers: they would only add easy members.
