# A replicated key-value store: model and proofs

The system is a load balancer, up to eight workers that replicate to each
other, and a hand-written wire protocol.  This project models its core in Dafny
and proves what its parts promise, separately and together.

- **Worker ring** (`RingSpec`, `RingSchedule`, `WorkerList`, `WorkerPermits`):
  the circular doubly linked list with its moving `current` pointer, on the
  heap, proved against a sequence with a position; bounded waiting under churn
  and fair share over whole runs; the two semaphores outside the lock, over
  every interleaving.
- **Queues and dispatcher** (`MessageQueue`, `PermitQueue`, `Dispatcher`,
  `LoadBalancerThreads`): the ring buffer on an array, for requests and for
  responses; the wait / locked region / release steps of any number of threads;
  and the dispatcher's loop on top of them, from the bytes a client sends to the
  fields a worker decodes: each pass sends, and a run of passes shares the
  requests evenly among the ready workers.
- **Joining** (`JoinProtocol`): any interleaving of the four locked calls that
  each READY handler makes ends in a full mesh of peer tables, with every worker
  in the round robin.
- **Replication** (`Replication`, `ReplicationRuns`, `ReplicationDelivery`,
  `KeyArrival`, `PeerConnections`, `ExportTally`, `ValueChanges`,
  `ReplicationWitnesses`, `MissedKey`, `WorkerThreads`, `PeerSpec`,
  `PeerManager`, `ExportQueue`): the receiver, the export thread and the peer
  listener of every worker as steps over first-in, first-out channels, of which a
  listener serves one at a time; exports are complete under concurrency, replicas
  hold only what was put, and exactly which keys a worker ends up with; where
  replication falls short, the exact condition and a run.
- **Hash table** (`HashSpec`, `HashTable`): chains of nodes on the heap refine a
  map; the hash in closed form; export and merge.
- **Wire protocol** (`Payload`, `Protocol`, `Framing`, `NetworkLib`): one encoder
  and one parser over formats as data, all fourteen payload pairs against them,
  and framing over a stream that arrives in arbitrary pieces; a transfer fails
  only for a cause that its result names.

Code that updates structures in place is modelled by classes and methods that
are proved against specification functions; what several threads do together
is modelled by state machines whose steps are the regions between which the
threads interleave, and whose runs are arbitrary sequences of steps.

Facts of the code that shape the statements:

- `AddWorker` accepts an id that is already in the list, and returns 0 both on
  success and when its wait times out (LoadBalancer/WorkerList.c:83-86), so a
  worker that found no room still counts as new (`LoadBalancerThreads.EnterList`).
- A `RemoveWorker` that finds nothing still turns a notEmpty permit into a
  notFull permit (LoadBalancer/WorkerList.c:204).  So the at-capacity branch of
  `AddWorker` is reachable: `WorkerPermits.MissLetsNinthIn` gives the run,
  `WorkerPermits.EveryInterleaving` says exactly when.
- `SendWorkerRegistryEntries` returns -1 or a count, so the branch at
  LoadBalancer/WorkerList.c:427 is dead.
- The dispatcher ignores the result of `ReturnClientRequestQueue`, so accepted
  requests can be lost: for any of them there is a run from the start that drops
  it (`Dispatcher.RequestIsDropped`).  A request is dropped only where its return
  times out (`Dispatcher.DropsAreTimeouts`), and a return can time out if and only
  if all 64 places are taken, promised or not yet given back
  (`Dispatcher.ReturnTimesOutIffFull`).
- A request with an empty key passes admission (`Dispatcher.EmptyKeyIsAccepted`)
  but can never be sent, and is returned again and again;
  `Dispatcher.UnsendableIffNoKey` says which bytes make such a request.
- A peer listener stays with the connection it has accepted until that is closed
  (Worker/PeerListenerThread.c:69-149).  What other workers send it meanwhile is
  not read (`PeerConnections.OthersWait`, with a run of three workers in
  `ReplicationWitnesses.MessageIsNeverRead`), so results that say a message
  arrives are about a peer that serves the sender, or accepts it next.
- A listener looks for the key of a pair and inserts it in two separately locked
  steps (Worker/PeerListenerThread.c:101-102 and 120-121).  A pair whose key it
  finds is ignored, so an overwritten value does not reach peers that have the
  key: `ReplicationDelivery.StoreIsReplicatedIffNew` says for each store and peer
  when the two agree after it, and `ReplicationWitnesses.WorkersDisagree` is a run
  after which they do not.  And a value that a client's request stores between the
  two steps is replaced by the peer's: `ValueChanges.ValueChangesIffReplaced` says
  exactly which steps change a value, with a run in
  `ReplicationWitnesses.ClientValueReplaced`.  When no key is put with two values,
  no value changes and workers agree (`ValueChanges.WriteOnceValuesStay`,
  `Replication.ReplicasAgree`).
- An export skips a table that is empty when first counted, and counts again for
  its start message.  It sends at least as many entries as it announced, and
  exactly one more for each key that was new in a bucket between that count and
  the scan (`ExportTally.SentIsAnnouncedPlusLate`, with a run in
  `ReplicationWitnesses.SentIsMoreThanAnnounced`).
- A worker does not pass on what it gets from its peers, so with all connections
  intact and drained a key may still be missing somewhere: `MissedKey.KeyIsMissed`
  is a run of three workers, and `KeyArrival.HasIffStoredOrOffered` the exact
  condition.  Every key that a worker stores while another is connected to it does
  arrive there (`KeyArrival.StoredKeyArrives`).
- A WORKER_ENTRY message has the id as an unsigned number, `AddPeer` takes an int,
  and a broadcast passes over a slot that holds the id -1, which marks an unused
  one.  So a worker with the id 4294967295 is entered and connected and then never
  told of stores (`PeerSpec.ReservedIdIsNeverTold`), and no other worker is passed
  over (`PeerSpec.ToldIffReached`, `PeerSpec.NewPeerIsToldUnlessReserved`).

`dafny verify dfyconfig.toml` checks the whole project.

## Model

| member | source | states |
|---|---|---|
| RingSpec.WalkFindsPick | LoadBalancer/WorkerList.c:236-256 | A walk from `current` that meets no connected and ready worker before place d, and stops there or after a full round, stops at the worker that GetNextWorker hands out |
| RingSpec.NewcomerIfAny | LoadBalancer/WorkerList.c:515-533 | A join finds a newcomer to announce if and only if some worker carries the new id |
| RingSpec.ScanResult | LoadBalancer/WorkerList.c:519-528 | The scan that ends as soon as both the newcomer and a source are known finds, of several workers with the new id, the last one looked at, and the first other worker that is ready |
| RingSpec.AnnouncementsGoToNotified | LoadBalancer/WorkerList.c:539-554 | The announcements of a join are exactly one entry to each other connected worker, in ring order, and only the source is asked to export |
| RingSpec.AddGoesLast | LoadBalancer/WorkerList.c:114-131 | The new worker comes last in the ring; the others and `current` stay |
| RingSpec.RemoveTakesFirst | LoadBalancer/WorkerList.c:158-192 | A removal cuts exactly the first worker with the id, and its node, out of the order; without one nothing changes |
| RingSpec.RemovedExactly | LoadBalancer/WorkerList.c:158-192 | With distinct ids, after a removal the worker with the id is out and all others are in |
| RingSpec.SetReadyMarksFirst | LoadBalancer/WorkerList.c:325-336 | Exactly the first worker with the id becomes ready; every other worker and every other field stays |
| RingSpec.SetPortMarksFirst | LoadBalancer/WorkerList.c:356-364 | Exactly the first worker with the id gets the new port; everything else stays |
| RingSchedule.WaitStep | LoadBalancer/WorkerList.c:120-258 | No step moves a ready node that stays further than one place from `current`: additions by at most one, removals (also of `current` and `head`) and readiness changes not at all; each GetNextWorker hands it out or brings it nearer |
| RingSchedule.BoundedWaiting | LoadBalancer/WorkerList.c:104-258 | A node that stays in the ring and is ready at the start is handed out by one of (distance + interleaved additions + 1) calls of GetNextWorker, over any run of additions, removals and readiness changes |
| RingSchedule.PickFailsIffNoneReady | LoadBalancer/WorkerList.c:230-250 | GetNextWorker fails if and only if no worker is connected and ready, and otherwise hands out one that is |
| RingSchedule.NextRotatesRanks | LoadBalancer/WorkerList.c:236-256 | Each call takes the ready worker of rank 0 to the last rank and every other one rank nearer |
| RingSchedule.ServedInTurn | LoadBalancer/WorkerList.c:230-258 | In k calls the ready worker of rank q is handed out as often as q, q + r, q + 2r, ... occur below k |
| RingSchedule.FairShare | LoadBalancer/WorkerList.c:230-258 | With r ready workers and an unchanging ring, any k calls hand out each ready worker k/r times, rounded down or up, and no other worker |
| RingSchedule.OneMoreCall | LoadBalancer/WorkerList.c:230-258 | Calls follow each other: where k calls leave `current`, and whom the next one hands out |
| WorkerList.BypassIsDelete | LoadBalancer/WorkerList.c:177-184 | Links that bypass one node form the ring without that node, cyclic in both directions |
| WorkerList.RemoveKeepsRing | LoadBalancer/WorkerList.c:169-200 | After a removal `head` is the old head or its successor, and `current` the same node or its successor, in a ring one shorter |
| WorkerList.LinkLast | LoadBalancer/WorkerList.c:120-129 | The new node closes the circle between the old last node and `head` |
| WorkerList.Unlink | LoadBalancer/WorkerList.c:177-190 | Taking out a node rewires its two neighbours and leaves its own `next` |
| WorkerList.Detach | LoadBalancer/WorkerList.c:172-196 | Links, `head` and `current` after a removal, also of the only node, of `head` and of `current` |
| WorkerList.WorkerList.constructor | LoadBalancer/WorkerList.c:3-28 | A new list is empty |
| WorkerList.WorkerList.AddWorker | LoadBalancer/WorkerList.c:104-136 | Appends one fresh connected, unready node, whatever its id, unless the socket is invalid or the list is full |
| WorkerList.WorkerList.RemoveWorker | LoadBalancer/WorkerList.c:141-202 | Removes the first node with the id and keeps the order of the others; -1 and no change when there is none or the id is not positive |
| WorkerList.WorkerList.FindReady | LoadBalancer/WorkerList.c:236-248 | The walk passes exactly the workers before the first ready one, at most one round |
| WorkerList.WorkerList.GetNextWorker | LoadBalancer/WorkerList.c:215-263 | Hands out the picked worker and moves `current` past it, or fails and moves nothing |
| WorkerList.WorkerList.SetWorkerReady | LoadBalancer/WorkerList.c:315-344 | Marks the first worker with the id; 1, 0 or -1 as it was unready, ready or absent |
| WorkerList.WorkerList.UpdateWorkerPeerPort | LoadBalancer/WorkerList.c:346-371 | Sets the peer port of the first worker with the id and nothing else |
| WorkerList.WorkerList.IterateWorkersOnce | LoadBalancer/WorkerList.c:265-297 | Goes from node to node through the ring once, then reports the end |
| WorkerList.WorkerList.SendWorkerRegistryEntries | LoadBalancer/WorkerList.c:475-499 | Sends the registry in ring order up to the first failed send; returns the count of all workers or -1, nothing else |
| WorkerList.WorkerList.SendWorkerRegistryToSingleWorker | LoadBalancer/WorkerList.c:373-440 | The registry goes to the last worker with the id; the bounded walk misses no worker, and the branch for results -2 and -3 is never entered |
| WorkerList.WorkerList.FindNewcomerAndSource | LoadBalancer/WorkerList.c:515-528 | The first scan finds the newcomer and the source of RingSpec |
| WorkerList.WorkerList.SendAnnouncements | LoadBalancer/WorkerList.c:536-558 | The second scan sends RingSpec's announcements and counts the sends that succeed |
| WorkerList.WorkerList.BroadcastNewWorkerJoined | LoadBalancer/WorkerList.c:501-559 | Nothing for a lone worker, -1 for an unknown one, otherwise the announcements of the join |
| WorkerList.WorkerList.DestroyWorkerList | LoadBalancer/WorkerList.c:30-63 | Visits every node once, closes its socket and leaves the list empty |
| WorkerPermits.StepKeepsAccounts | LoadBalancer/WorkerList.c:81-204 | Both permit accounts survive every step of every thread |
| WorkerPermits.EveryInterleaving | LoadBalancer/WorkerList.c:81-204 | In every interleaving: workers = notEmpty + finished adders + removers in flight + removals that found nothing, and notEmpty + notFull + in flight + lost = MAX_WORKERS; the list is full inside an addition exactly when the misses make up for every free, held or lost permit |
| WorkerPermits.WholeAddition | LoadBalancer/WorkerList.c:81-136 | An addition with a permit and room puts its worker last |
| WorkerPermits.WholeRemoval | LoadBalancer/WorkerList.c:148-204 | A removal with a permit cuts out the first worker with the id, or counts as one that found nothing |
| WorkerPermits.ReleasesSucceed | LoadBalancer/WorkerList.c:135-204 | No ReleaseSemaphore exceeds its maximum |
| WorkerPermits.AtCapacityNeedsMiss | LoadBalancer/WorkerList.c:106-112 | While every removal found its id, the at-capacity branch is unreachable |
| WorkerPermits.MissLetsNinthIn | LoadBalancer/WorkerList.c:106-112 | After one removal that found nothing, a run does reach the at-capacity branch |
| MessageQueue.LiveAppend | LoadBalancer/WorkerResponseQueue.c:97-105 | Writing the slot at (head + count) mod capacity appends one message to what the slots from `head` on mean, across wraparound and whatever the slot held |
| MessageQueue.MessageQueue.constructor | LoadBalancer/ClientRequestQueue.c:3-31 | A new queue is empty |
| MessageQueue.MessageQueue.Put | LoadBalancer/ClientRequestQueue.c:87-110 | Appends the message with its owner, type and first `length` bytes, or changes nothing when full |
| MessageQueue.MessageQueue.Take | LoadBalancer/ClientRequestQueue.c:139-162 | Removes the first message and hands out its owner, type, size and that many bytes; bytes beyond stay the caller's |
| MessageQueue.MessageQueue.Return | LoadBalancer/ClientRequestQueue.c:188-209 | Appends the message of a request record, or changes nothing when full |
| PermitQueue.BranchesUnreachable | LoadBalancer/ClientRequestQueue.c:87-95 | Inside the lock after a successful wait the queue is not full (not empty), and no release exceeds the maximum |
| PermitQueue.StepKeepsAccounts | LoadBalancer/ClientRequestQueue.c:74-207 | Count = notEmpty + enqueued and not signalled + takers with a permit, and capacity - count = notFull + putters with a permit + dequeued and not signalled, after every step of every thread |
| PermitQueue.EveryInterleaving | LoadBalancer/ClientRequestQueue.c:74-207 | In every interleaving of Put, Return and Take the accounts hold, no bound is exceeded, and what was taken is a prefix of what was accepted |
| PermitQueue.WholePut | LoadBalancer/ClientRequestQueue.c:55-111 | An undisturbed Put (or Return) appends and moves one permit; without a permit it can only time out and change nothing |
| PermitQueue.WholeTake | LoadBalancer/WorkerResponseQueue.c:114-165 | An undisturbed Take removes the first message and moves one permit; without a permit it can only time out |
| Dispatcher.StepKeepsInv | LoadBalancer/WorkerClientRequestDispatcherThread.c:33-155 | Conservation, order, admission and the position of the dispatcher survive every step of clients and dispatcher |
| Dispatcher.EveryInterleaving | LoadBalancer/WorkerClientRequestDispatcherThread.c:28-156 | Each accepted request is in exactly one of queue, hand, sent (to one worker) and dropped; none in hand has an unknown type or fails to parse; none is sent without a key; with no failed send, sent + hand + queue is the order of acceptance |
| Dispatcher.DropsAreTimeouts | LoadBalancer/ClientRequestQueue.c:176-186 | Only a return that times out drops a request |
| Dispatcher.ReturnTimesOutIffFull | LoadBalancer/ClientRequestQueue.c:176-186 | The return of a request can time out if and only if queued requests, producers with a permit and removals not yet signalled make up all 64 slots |
| Dispatcher.RequestIsDropped | LoadBalancer/WorkerClientRequestDispatcherThread.c:88-155 | For any request that is admitted, a run from the start in which it is accepted, taken, fails to be sent, and is dropped by a return that times out behind 64 further requests |
| Dispatcher.UnsendableIffNoKey | LoadBalancer/ClientDataReceiverThread.c:31-91 | An admitted request cannot be sent if and only if its key length is 0 or its key begins with a NUL |
| Dispatcher.EmptyKeyIsAccepted | LoadBalancer/ClientDataReceiverThread.c:61-71 | A GET with payload 0, 0 is admitted and a client thread puts it into the queue |
| Dispatcher.EmptyKeyStays | LoadBalancer/WorkerClientRequestDispatcherThread.c:74-105 | An accepted request with an empty key is never sent: every occurrence is in the queue, in hand or dropped |
| Dispatcher.EmptyKeyFails | LoadBalancer/WorkerClientRequestDispatcherThread.c:97-99 | Whatever the network answers, such a request has to be returned |
| Dispatcher.WholeReturn | LoadBalancer/WorkerClientRequestDispatcherThread.c:88-94 | With room in the queue, returning puts the request at the end and empties the hand |
| Dispatcher.SendRuns | LoadBalancer/WorkerClientRequestDispatcherThread.c:50-122 | A request with a key in hand, a worker picked and a send that succeeds: the request has gone to that worker and both hands are empty |
| Dispatcher.RequestsGetThrough | LoadBalancer/WorkerClientRequestDispatcherThread.c:28-122 | From the start, any 64 requests with keys can be accepted and then all sent, in order, to whichever workers are picked |
| Dispatcher.ForwardedArrives | LoadBalancer/WorkerClientRequestDispatcherThread.c:72-74 | For any client bytes that parse, the worker decodes from the forwarded payload the client number and the same fields |
| Dispatcher.RequestArrives | LoadBalancer/ClientDataReceiverThread.c:31-91 | A request as a client encodes it is admitted, and reaches the worker with its key and value |
| LoadBalancerThreads.DispatcherThread.NeedRequest | LoadBalancer/WorkerClientRequestDispatcherThread.c:33-48 | Takes the first waiting request unless one is in hand; nothing is lost or reordered |
| LoadBalancerThreads.DispatcherThread.NeedWorker | LoadBalancer/WorkerClientRequestDispatcherThread.c:50-65 | Picks a worker by round robin unless one is picked already |
| LoadBalancerThreads.DispatcherThread.GiveBack | LoadBalancer/WorkerClientRequestDispatcherThread.c:84-106 | A lost worker leaves the list, and with distinct ids no other does; the request goes to the end of the queue, or is dropped if that is full |
| LoadBalancerThreads.DispatcherThread.SendOn | LoadBalancer/WorkerClientRequestDispatcherThread.c:67-152 | All outcomes for the request and worker in hand: sent, returned, thrown away unparsed, or kept because its type is unknown |
| LoadBalancerThreads.DispatcherThread.Pass | LoadBalancer/WorkerClientRequestDispatcherThread.c:28-156 | With a request waiting and a worker in hand or to be had, one pass sends the first request on that worker's socket and empties both hands; a failed send puts it behind the others or drops it when the queue is full; without a worker nothing changes |
| LoadBalancerThreads.DispatcherThread.Passes | LoadBalancer/WorkerClientRequestDispatcherThread.c:28-156 | While sends succeed, k passes send the first k requests in order and leave the others, and each of r ready workers gets k/r of them, rounded down or up |
| LoadBalancerThreads.EnterList | LoadBalancer/WorkerDataReceiverThread.c:47-57 | The worker is appended, or counted as new without being appended when the wait for room times out, or has its port updated when the addition fails; then the worker with the id is marked ready |
| LoadBalancerThreads.TellWorkers | LoadBalancer/WorkerDataReceiverThread.c:58-66 | A new worker is announced; the registry goes out up to the first failed send |
| JoinProtocol.EveryPhaseFollows | LoadBalancer/WorkerDataReceiverThread.c:47-69 | With distinct ids every handler goes through all four calls: none finds its worker missing or ready already |
| JoinProtocol.BroadcastReaches | LoadBalancer/WorkerList.c:539-554 | An announcement reaches every other worker in the list |
| JoinProtocol.UpdateReaches | LoadBalancer/WorkerList.c:481-495 | A registry update holds an entry for every worker in the list |
| JoinProtocol.StepKeepsPairHeard | LoadBalancer/WorkerDataReceiverThread.c:47-66 | Whatever thread moves: once b has been announced and a has been sent the registry, a has been sent an entry for b |
| JoinProtocol.DeliveredPeers | Worker/ReceiverThread.c:125-129 | Taking in any list of true entries yields a peer for exactly the other workers named in it, with their ports and their addresses (up to 255 characters), connected if every connect succeeds |
| JoinProtocol.FullMesh | LoadBalancer/WorkerDataReceiverThread.c:37-76 | For every interleaving of up to MAX_WORKERS handlers: once all have finished and a worker has taken in what it was sent, its peer table holds exactly the other workers, with their ports and addresses, connected if every connect succeeds |
| JoinProtocol.MarkedIsEligible | LoadBalancer/WorkerList.c:329-332 | In every run a joiner is connected and ready in the list exactly from the moment its handler has marked it |
| JoinProtocol.AllTakePart | LoadBalancer/WorkerDataReceiverThread.c:37-76 | Once all handlers have finished, as many workers are ready as there are joiners, and GetNextWorker finds one |
| JoinProtocol.HandlersFinish | LoadBalancer/WorkerDataReceiverThread.c:37-76 | From the start, the handlers of any joiners can all finish |
| JoinProtocol.OneExporter | LoadBalancer/WorkerList.c:539-554 | Each announcement goes to another worker; exactly the source is asked to export, and someone is if any other worker is ready |
| HashSpec.RoundAddsByte | Worker/HashTable.c:13-16 | One 32-bit round with a sign-extended byte adds the byte, modulo the number of buckets |
| HashSpec.RoundIsTimes33 | Worker/HashTable.c:13-16 | A round is 33 times the hash plus the signed character, modulo 2^32 |
| HashSpec.HashInBucket | Worker/HashTable.c:8-20 | The 32-bit hash modulo the number of buckets is (5 + sum of the bytes) mod 32 |
| HashSpec.HashFunction | Worker/HashTable.c:8-20 | The loop computes the 32-bit hash, starting from 5381, modulo the number of buckets |
| HashSpec.SumOfAnagram | Worker/HashTable.c:8-20 | Strings of the same bytes have the same sum |
| HashSpec.AnagramsShareBucket | Worker/HashTable.c:8-20 | Keys made of the same bytes share a bucket |
| HashSpec.SetKeepsValid | Worker/HashTable.c:241-366 | After a set every key still lies in the bucket of its hash, and occurs once |
| HashSpec.LookupAfterSet | Worker/HashTable.c:241-366 | A set changes what is found under that key and nothing else |
| HashSpec.LookupIsContents | Worker/HashTable.c:174-239 | Lookup in the chains is lookup in the map the table stands for |
| HashSpec.SizeIsContents | Worker/HashTable.c:368-377 | The number of pairs is the size of the map |
| HashSpec.SetIsUpdate | Worker/HashTable.c:241-366 | A set is map update |
| HashSpec.MergeIsUnion | Worker/PeerListenerThread.c:97-114 | Inserting distinct pairs where absent is union in which the target wins |
| HashSpec.ExportThenMerge | Worker/PeerListenerThread.c:97-114 | Merging an export gives the target plus what the source has under other keys, twice is as once, and into an empty table it is the source |
| HashSpec.BucketInScript | Worker/HashTable.c:398-417 | Where the messages of each bucket stand within the whole export |
| HashTable.HashTable.constructor | Worker/HashTable.c:52-94 | A new table is empty |
| HashTable.HashTable.HasHashTable | Worker/HashTable.c:135-172 | 1 exactly when the key is found, -1 for an empty key |
| HashTable.HashTable.GetHashTable | Worker/HashTable.c:174-239 | The value found under the key, 0 when there is none, -1 for an empty key |
| HashTable.HashTable.FindNode | Worker/HashTable.c:158-167 | The walk along a chain stops at the node with the key |
| HashTable.HashTable.Overwrite | Worker/HashTable.c:273-298 | Changing a node's value in place sets that key only |
| HashTable.HashTable.InsertFirst | Worker/HashTable.c:303-365 | A new node at the front of the chain sets the key |
| HashTable.HashTable.SetHashTable | Worker/HashTable.c:241-366 | Sets the key; an empty key is refused and changes nothing |
| HashTable.HashTable.GetHashTableCount | Worker/HashTable.c:33-46 | The count over all chains is the size of the map |
| HashTable.HashTable.SendBucket | Worker/HashTable.c:398-412 | The chain in order up to the first failed send |
| HashTable.HashTable.SendBuckets | Worker/HashTable.c:393-417 | The start message and the buckets in order, up to the first failed send |
| HashTable.HashTable.ExportHashTableToPeer | Worker/HashTable.c:379-426 | Of a table at rest: start with the exact total, every pair once, end; 0 and the map's size if all went out, else -1 after a prefix |
| PeerSpec.RegisterKeepsValid | Worker/PeerManager.c:88-150 | Ids stay unique, whatever id is entered |
| PeerSpec.RegisterKeepsConnection | Worker/PeerManager.c:97-109 | Entering a worker never disconnects another |
| PeerSpec.RegisterExactly | Worker/PeerManager.c:92-145 | A known worker takes over the new address and port and keeps its connection, an unknown one is entered if there is room, the own port and a full table change nothing, and no other entry is touched |
| PeerSpec.UnregisterFirst | Worker/PeerManager.c:170-187 | A removal takes out the first entry with the id and keeps the others in order |
| PeerSpec.UnregisterKeepsValid | Worker/PeerManager.c:170-187 | Ids stay unique |
| PeerSpec.WithoutKeepsOrder | Worker/PeerManager.c:79-81 | Filtering keeps exactly the peers not listed |
| PeerSpec.WithoutOneMore | Worker/PeerManager.c:79-81 | Removing the failed peers one by one is filtering them out at once |
| PeerSpec.SurvivorsExactly | Worker/PeerManager.c:64-81 | A peer is gone after a broadcast exactly when it was connected, its slot does not hold the reserved id -1, and its notice failed |
| PeerSpec.ToldIffReached | Worker/PeerManager.c:64-70 | A peer is sent a notice if and only if it is connected and its id is not the reserved -1 |
| PeerSpec.NewPeerIsToldUnlessReserved | Worker/PeerManager.c:110-140 | A newly connected worker is told of every store after those told before, unless its unsigned 32-bit id converts to -1 |
| PeerSpec.ReservedIdIsNeverTold | Worker/PeerManager.c:67-67 | With the id 4294967295 as the only peer, the export finds a connection and a broadcast tells nobody |
| PeerSpec.WithoutKeepsConnection | Worker/PeerManager.c:79-81 | A broadcast leaves the connections alone on which it did not fail |
| PeerManager.PeerManager.constructor | Worker/PeerManager.c:3-26 | A new table is empty |
| PeerManager.PeerManager.Refresh | Worker/PeerManager.c:97-109 | A known id gets the new address and port, nothing else changes |
| PeerManager.PeerManager.AddPeer | Worker/PeerManager.c:88-150 | Skips the own port, updates a known id, refuses a ninth peer, else adds one at the end |
| PeerManager.PeerManager.RemoveDisconnectedPeer | Worker/PeerManager.c:163-193 | Removes the entry with the id, -1 when there is none |
| PeerManager.PeerManager.ShiftDown | Worker/PeerManager.c:176-178 | The shifting loop: each slot from the gap on takes over its successor |
| PeerManager.PeerManager.CloseGap | Worker/PeerManager.c:176-183 | The gap is closed and the last slot cleared |
| PeerManager.PeerManager.GetPeerConnection | Worker/PeerManager.c:195-221 | The socket of a connected peer, else invalid |
| PeerManager.PeerManager.NotifyConnected | Worker/PeerManager.c:64-74 | The loop over all slots sends once to each connected peer whose id is not the reserved -1 and to no other, in slot order, and collects those that fail |
| PeerManager.PeerManager.BroadcastData | Worker/PeerManager.c:55-86 | Afterwards the table is the old one without the failed peers, and successes + removals = peers told |
| ExportQueue.ExportQueue.constructor | Worker/ExportQueue.c:3-30 | A new queue is empty |
| ExportQueue.ExportQueue.AddExportRequest | Worker/ExportQueue.c:54-69 | Appends the request, -1 and no change when eight wait |
| ExportQueue.ExportQueue.TakeFirst | Worker/ExportThread.c:21-31 | The shifting loop takes the first request out |
| ExportQueue.RunKeepsAccounts | Worker/ExportQueue.c:54-71 | Requests = signals + request not yet signalled + wake-up not yet used, after every step |
| ExportQueue.EveryInterleaving | Worker/ExportThread.c:15-54 | A woken export thread always finds a request, no signal is refused, requests come out in order |
| ExportQueue.RequestWakes | Worker/ExportQueue.c:54-71 | A request that finds room is signalled, and the wake-up takes the first request out |
| WorkerThreads.Context.constructor | Worker/Context.c:6-50 | Table, peers and export requests start empty |
| WorkerThreads.Context.OnStoreRequest | Worker/ReceiverThread.c:46-74 | The table is set before the broadcast goes to the connected peers (but for the reserved id); an empty key is answered with an error and changes nothing |
| WorkerThreads.Context.OnRetrieveRequest | Worker/ReceiverThread.c:88-108 | ERR_NONE with the value found, else ERR_KEY_NOT_FOUND |
| WorkerThreads.Context.HandleStoreRequest | Worker/ReceiverThread.c:47-85 | From the bytes of a request to the bytes of the response: a decoded pair with a key updates the map and is told to the connected peers, and the load balancer decodes its result, client number and key; bytes that do not parse and empty keys change and send nothing |
| WorkerThreads.Context.HandleRetrieveRequest | Worker/ReceiverThread.c:87-114 | From bytes to bytes: the load balancer decodes exactly the value that the map has under the key, or that there is none |
| WorkerThreads.Context.OnWorkerEntry | Worker/ReceiverThread.c:123-140 | The peer is entered under its unsigned id converted to an int, then the export request queued under the unsigned one |
| WorkerThreads.Context.OnPeerPair | Worker/PeerListenerThread.c:97-133 | With nothing in between the two calls, a pair from a peer is kept exactly when its key is new |
| WorkerThreads.Context.ExportNext | Worker/ExportThread.c:15-54 | The first request is taken and the table exported, unless it is empty or the peer is not connected |
| Replication.ReceiverKeepsDuty | Worker/ReceiverThread.c:46-140 | No receiver step loses what a peer is owed: it stays pending, its message goes out, or the connection breaks |
| Replication.ExportKeepsDuty | Worker/HashTable.c:393-421 | Nor does any step of the bucket-by-bucket scan, while stores go on |
| Replication.InsertKeepsDuty | Worker/PeerListenerThread.c:102-104 | Nor does an insertion by the listener |
| Replication.StepKeepsDelivered | Worker/ReceiverThread.c:46-140 | What a owes n is pending, in flight, in the listener's hands or in n's table, after every step of the system |
| Replication.ExportComplete | Worker/HashTable.c:398-417 | For every interleaving: once the connection has drained unbroken, n has every key that a stored for a client, before or after n was entered, and every key that was in its bucket when it was scanned |
| KeyArrival.ActKeepsOffers | Worker/ReceiverThread.c:46-140 | Each step of a worker sends to n only keys of broadcasts that n was connected for and of buckets scanned for n, and loses none of these unless the connection breaks |
| KeyArrival.StepKeepsTraced | Worker/PeerListenerThread.c:85-147 | After every step of the system, what is on its way to n was offered to it, and what n holds was stored there or offered |
| KeyArrival.StepKeepsArriving | Worker/PeerManager.c:64-81 | After every step, an offered key is still to be sent, on its way, or taken in, unless the connection failed |
| KeyArrival.OfferedKeyArrives | Worker/PeerListenerThread.c:97-133 | In every run: once n has read what came over a's unbroken connection, it has each key that a stored while n was connected, if no broadcast is under way, and each key of a bucket scanned for n, if that is not locked |
| KeyArrival.StoredKeyArrives | Worker/ReceiverThread.c:46-60 | From any state of any run in which a is connected to n, however it goes on: each key that a stores anew is at n once the unbroken connection is read and no broadcast is under way |
| KeyArrival.HasIffStoredOrOffered | Worker/PeerListenerThread.c:97-133 | In every run n has only keys that were stored at n, or at a worker to which n was then connected, or were in a bucket when some worker scanned it for n; and exactly these once no connection to n has failed and all is drained |
| MissedKey.KeyIsMissed | Worker/PeerListenerThread.c:116-133 | A run of three workers: b stores a key and tells a, whose export to n goes by before a takes that in; b is connected to n afterwards; with all drained and intact, n lacks the key that a and b have |
| Replication.ActInventsNothing | Worker/ReceiverThread.c:46-112 | A thread puts into tables, messages and answers only pairs its worker had or was given to store |
| Replication.ReplicaSafety | Worker/PeerListenerThread.c:97-133 | In every reachable state each pair in a table, a thread's hands, a channel or an answer came in a store request |
| Replication.ReplicasAgree | Worker/ReceiverThread.c:47-112 | If no key is put with two values, any two workers agree on common keys, and every successful answer returns the value that was put |
| Replication.RetrieveAnswers | Worker/ReceiverThread.c:87-113 | In every run, a retrieve request is answered with exactly the value the table then has under the key, if there is one, and changes nothing else; it waits only for the receiver and the bucket lock |
| ReplicationRuns.WholeStore | Worker/ReceiverThread.c:46-60 | A store taken step by step without interruption leaves the table, peers and notices that SetHashTable and BroadcastData leave |
| ReplicationRuns.WholeExport | Worker/ExportThread.c:21-44 | An export taken step by step without interruption sends the script and ends |
| ReplicationRuns.ScriptIsExport | Worker/HashTable.c:393-421 | That script is what ExportHashTableToPeer sends of a table at rest |
| ReplicationDelivery.CanDrain | Worker/PeerListenerThread.c:56-133 | A connection that n serves, or accepts next, can be drained, and the outcome is the merge of what it carried |
| ReplicationDelivery.ExportArrives | Worker/ExportThread.c:21-44 | A queued export to a connected peer that serves this worker, or accepts it next, can run to its end; the peer then has its own pairs plus the source's other ones, and is a copy if it had none |
| ReplicationDelivery.StoreReaches | Worker/PeerManager.c:64-81 | Of a broadcast, a peer whose notice succeeds gets exactly one, and keeps its connection, whatever the other notices do |
| ReplicationDelivery.StoreIsTakenIn | Worker/ReceiverThread.c:46-60 | A store with its notices, then the taking in at one peer: the state of both workers |
| ReplicationDelivery.StoreIsReplicatedIffNew | Worker/PeerListenerThread.c:116-133 | For any valid peer table and any answers of the other peers: after a store and its notice to n the two workers answer alike if and only if n lacked the key or had the same value |
| PeerConnections.StepKeepsWaiting | Worker/PeerListenerThread.c:69-149 | Only the closing of the connection it serves makes a listener turn to another |
| PeerConnections.OthersWait | Worker/PeerListenerThread.c:56-149 | In every run: while n serves b and b's connection is open, what is in a's open connection to n stays there |
| PeerConnections.BroadcastClosesFailed | Worker/PeerManager.c:72-81 | The end of a broadcast closes exactly the connections on which a notice failed |
| PeerConnections.ListenerTurns | Worker/PeerListenerThread.c:53-149 | A listener leaves a connection that is closed and accepts the one that has waited longest |
| ExportTally.HoldingKeepsTally | Worker/HashTable.c:393-417 | A new key in a bucket that was counted and not yet scanned, and only such a key, adds one entry to be sent |
| ExportTally.ExportKeepsTally | Worker/HashTable.c:393-417 | Counting, locking and sending keep the balance of announced, sent and late |
| ExportTally.SentIsAnnouncedPlusLate | Worker/HashTable.c:393-424 | In every run, up to the end message: entries sent = entries announced + keys new in a bucket between its second count and its lock; equal if and only if there was none |
| ValueChanges.InsertOverwritesIffOvertaken | Worker/PeerListenerThread.c:97-133 | In every run: an insertion meets the key if and only if a client's request stored it after the listener looked, and then replaces that value |
| ValueChanges.ValueChangesIffReplaced | Worker/PeerListenerThread.c:97-133 | In every run, the value under a key changes exactly in a store of another value, or in an insertion that was overtaken by one |
| ValueChanges.WriteOnceValuesStay | Worker/PeerListenerThread.c:97-133 | When no key is put with two values, no value ever changes |
| ReplicationWitnesses.MessageIsNeverRead | Worker/PeerListenerThread.c:56-149 | A run of three workers after which a's message to n stays unread for as long as b's connection is open, however the run goes on |
| ReplicationWitnesses.WorkersDisagree | Worker/PeerListenerThread.c:116-133 | A run without failures after which two workers have different values for one key and nothing is in flight |
| ReplicationWitnesses.ClientValueReplaced | Worker/PeerListenerThread.c:120-121 | A run in which a listener's insertion replaces a value stored for a client by the older one of a peer |
| ReplicationWitnesses.SentIsMoreThanAnnounced | Worker/HashTable.c:393-417 | A run in which an export announces one entry and sends two |
| NetworkLib.Connection.SafeSend | Lib/NetworkLib.c:20-51 | An arbitrary piece goes out, or nothing and a failure or would-block |
| NetworkLib.Connection.SafeReceive | Lib/NetworkLib.c:53-84 | An arbitrary piece of what is incoming arrives, or nothing |
| NetworkLib.SendBuffer | Lib/NetworkLib.c:112-145 | 0 exactly when the connection is open, the length is positive and neither a call failed nor 5000 in a row would block, and then the whole buffer went out, else a part; -2 and -3 are the result of the last call, -1 any other failure; at most 5000 calls for each byte |
| NetworkLib.ReceiveBuffer | Lib/NetworkLib.c:147-180 | 0 under the same condition, and then the buffer holds the next bytes of the stream in full; nothing is skipped; the same codes for the same causes |
| NetworkLib.ProgressSucceeds | Lib/NetworkLib.c:121-138 | A transfer does not fail while no call does and some call out of any 5000 in a row moves something |
| Framing.FrameIsUnique | Lib/Protocol.c:15-105 | A stream begins with at most one frame |
| Framing.ReceivedIsPrefix | Lib/Protocol.c:54-105 | Frames cut off the front of a stream are a prefix of those sent, even if the sender stopped inside a further frame |
| Protocol.SendHeader | Lib/Protocol.c:26-36 | Type and big-endian size, or a part of them |
| Protocol.ProtocolSend | Lib/Protocol.c:15-52 | The frame goes out whole and its size is returned exactly when the connection is open, the payload has at most 1024 bytes and no call fails; else a part goes out, and a lost connection is told from other failures |
| Protocol.ReceiveHeader | Lib/Protocol.c:64-76 | Three bytes are taken off the stream |
| Protocol.ProtocolReceive | Lib/Protocol.c:54-105 | 0 only when exactly one frame was taken off the stream into the buffer; -4 for type 0 or an oversized length |
| Protocol.ReceiveMessages | LoadBalancer/ClientDataReceiverThread.c:22-100 | The messages a receive loop yields are a prefix of those sent, for every split of the stream; it stops early only when a call fails or the connection is closed |
| Protocol.SentHeaderIsGood | Lib/Protocol.c:15-105 | A stream of sent frames never makes the receiver see a type 0 or an oversized message |
| Protocol.WriteUInt8 | Lib/Protocol.c:474-477 | The buffer then holds the encoding of the fields so far and this one: appends one byte |
| Protocol.WriteUInt16 | Lib/Protocol.c:468-472 | The buffer then holds the encoding of the fields so far and this one: appends two bytes, high byte first |
| Protocol.WriteUInt32 | Lib/Protocol.c:462-466 | The buffer then holds the encoding of the fields so far and this one: appends four bytes, high byte first |
| Protocol.WriteText | Lib/Protocol.c:479-483 | The buffer then holds the encoding of the fields so far and this one: appends a length and the characters |
| Protocol.ReadUInt8 | Lib/Protocol.c:497-501 | The next field of the format, read only if it lies inside the buffer's size; otherwise the payload does not parse |
| Protocol.ReadUInt16 | Lib/Protocol.c:491-495 | The next field of the format, read only if it lies inside the buffer's size; otherwise the payload does not parse |
| Protocol.ReadUInt32 | Lib/Protocol.c:485-489 | The next field of the format, read only if it lies inside the buffer's size; otherwise the payload does not parse |
| Protocol.ReadText | Lib/Protocol.c:503-512 | The next field of the format, read only if it lies inside the buffer's size; otherwise the payload does not parse |
| Protocol.ReadNote | Lib/Protocol.c:705-715 | The next field of the format, read only if it lies inside the buffer's size; otherwise the payload does not parse |
| Protocol.SendPut | Lib/Protocol.c:107-124 | Sends one frame whose payload is the encoding of the fields, or -1 without sending when a key or value is not valid |
| Protocol.SendPutResponse | Lib/Protocol.c:126-141 | Sends one frame whose payload is the encoding of the fields, or -1 without sending when a key or value is not valid |
| Protocol.SendGet | Lib/Protocol.c:143-156 | Sends one frame whose payload is the encoding of the fields, or -1 without sending when a key or value is not valid |
| Protocol.SendGetResponse | Lib/Protocol.c:158-181 | Sends one frame whose payload is the encoding of the fields, or -1 without sending when a key or value is not valid |
| Protocol.SendStoreRequest | Lib/Protocol.c:183-202 | Sends one frame whose payload is the encoding of the fields, or -1 without sending when a key or value is not valid |
| Protocol.SendStoreResponse | Lib/Protocol.c:204-221 | Sends one frame whose payload is the encoding of the fields, or -1 without sending when a key or value is not valid |
| Protocol.SendRetrieveRequest | Lib/Protocol.c:223-238 | Sends one frame whose payload is the encoding of the fields, or -1 without sending when a key or value is not valid |
| Protocol.SendRetrieveResponse | Lib/Protocol.c:240-265 | Sends one frame whose payload is the encoding of the fields, or -1 without sending when a key or value is not valid |
| Protocol.SendWorkerReady | Lib/Protocol.c:267-275 | Sends one frame whose payload is the encoding of the fields |
| Protocol.SendWorkerEntry | Lib/Protocol.c:277-293 | Sends one frame whose payload is the encoding of the fields, the address cut at 255 characters |
| Protocol.SendDataExportStart | Lib/Protocol.c:295-302 | Sends one frame whose payload is the encoding of the fields |
| Protocol.SendDataEntry | Lib/Protocol.c:304-321 | Sends one frame whose payload is the encoding of the fields, or -1 without sending when a key or value is not valid |
| Protocol.SendPeerNotify | Lib/Protocol.c:327-344 | Sends one frame whose payload is the encoding of the fields, or -1 without sending when a key or value is not valid |
| Protocol.SendError | Lib/Protocol.c:346-365 | Sends one frame whose payload is the encoding of the fields, for any message that fits the payload |
| Protocol.ReceivePut | Lib/Protocol.c:514-533 | 0 with the fields of the format exactly when the payload parses, reading inside its size only |
| Protocol.ReceivePutResponse | Lib/Protocol.c:535-550 | 0 with the fields of the format exactly when the payload parses, reading inside its size only |
| Protocol.ReceiveGet | Lib/Protocol.c:552-563 | 0 with the fields of the format exactly when the payload parses, reading inside its size only |
| Protocol.ReceiveGetResponse | Lib/Protocol.c:565-592 | 0 with the fields of the format exactly when the payload parses, reading inside its size only |
| Protocol.ReceiveStoreRequest | Lib/Protocol.c:744-767 | 0 with the fields of the format exactly when the payload parses, reading inside its size only |
| Protocol.ReceiveStoreResponse | Lib/Protocol.c:594-613 | 0 with the fields of the format exactly when the payload parses, reading inside its size only |
| Protocol.ReceiveRetrieveRequest | Lib/Protocol.c:769-784 | 0 with the fields of the format exactly when the payload parses, reading inside its size only |
| Protocol.ReceiveRetrieveResponse | Lib/Protocol.c:615-646 | 0 with the fields of the format exactly when the payload parses, reading inside its size only |
| Protocol.ReceiveWorkerReady | Lib/Protocol.c:731-742 | 0 with the fields of the format exactly when the payload parses, reading inside its size only |
| Protocol.ReceiveWorkerEntry | Lib/Protocol.c:786-809 | 0 with the fields of the format exactly when the payload parses, reading inside its size only |
| Protocol.ReceiveDataExportStart | Lib/Protocol.c:720-729 | 0 with the fields of the format exactly when the payload parses, reading inside its size only |
| Protocol.ReceiveDataEntry | Lib/Protocol.c:648-667 | 0 with the fields of the format exactly when the payload parses, reading inside its size only |
| Protocol.ReceivePeerNotify | Lib/Protocol.c:669-692 | 0 with the fields of the format exactly when the payload parses, reading inside its size only |
| Protocol.ReceiveError | Lib/Protocol.c:694-718 | 0 with the fields of the format exactly when the payload parses, reading inside its size only |
| Protocol.SendDataExportEnd | Lib/Protocol.c:323-325 | Sends one frame without payload |
| Protocol.SendShutdown | Lib/Protocol.c:367-369 | Sends one frame without payload |
| Payload.ReadEncoded | Lib/Protocol.c:485-512 | Each kind of field reads back what it encodes, whatever follows |
| Payload.ParseEncoded | Lib/Protocol.c:107-809 | Round trip for every format, all fields within limits, and whatever follows in the buffer |
| Payload.ParseCut | Lib/Protocol.c:514-809 | Every strict prefix of an encoding is rejected |
| Payload.ParseFits | Lib/Protocol.c:514-809 | Whatever bytes come in, the fields handed out obey the limits of the format |
| Protocol.KeysAndValuesRoundTrip | Lib/Protocol.c:514-692 | PUT, GET, DATA_ENTRY and PEER_NOTIFY return every valid key and value |
| Protocol.RequestsRoundTrip | Lib/Protocol.c:744-784 | STORE_REQUEST and RETRIEVE_REQUEST return every client number, key and value |
| Protocol.ResponsesRoundTrip | Lib/Protocol.c:535-646 | The responses return result, client number, key and the value, or the empty value of a result other than ERR_NONE |
| Protocol.ControlMessagesRoundTrip | Lib/Protocol.c:694-809 | WORKER_READY, WORKER_ENTRY, DATA_EXPORT_START and ERROR return ids, ports, flags, and texts of up to 255 bytes |
| Protocol.ErrorTextIsCut | Lib/Protocol.c:694-718 | Of an error message of up to 1021 characters the receiver keeps the first 255 |

## Left out

- Sockets, select, accept, connect and Winsock start-up: SafeSend and SafeReceive are nondeterministic, the result of connecting is a parameter, and so is the answer to each message where only its success matters.
- Timeouts and sleeps: a wait that times out is a step that changes nothing; waits do not fail for other reasons.
- Allocation and thread-creation failures: they are taken to succeed.
- Null pointer checks: references are never null where the code would test them.
- Thread pools (ClientThreadPool.c, WorkerThreadPool.c): the permit argument of the queues over eight slots, which would only add easy members.
- ClientWorkerResponseDispatcherThread.c: mostly forwarding, and its socket variable keeps an older value when a lookup finds nothing.
- The finish signal, shutdown, start-up, listener threads, the client program, keyboard input and logging.
- GetWorkerById, GetWorkerCount, FinalizePeerRegistryUpdate, name tables, memory statistics, DestroyHashTable and the other destructors except that of the worker list.
- The isStale flag of a peer, which nothing reads.
- Two threads writing bytes of one socket at the same time: a protocol message enters a channel in one step.
- SendError: messages longer than 1021 characters, which do not fit the 1024-byte buffer the code builds the payload in.
- ReceivePut: an embedded NUL in a received string is modelled as the string ending there (Payload.Terminated), as for every decoder; round trips are stated for NUL-free strings.
- AddExportRequest: addresses longer than 255 characters, which ReceiveWorkerEntry never yields, are outside its contract.
- BroadcastData: a send answered by 0 is outside its contract; ProtocolSend never returns 0.
- SafeSend: the pieces it sends are arbitrary, but a send that fails is taken to have put nothing on the stream.
- ExportComplete: says nothing of a worker with the reserved id -1, which broadcasts pass over.
- StoreIsReplicatedIffNew: is about a peer with its own connection intact and served, or accepted next; for any other peer the notice waits (OthersWait).
- HasIffStoredOrOffered: connections on which a send failed or messages were lost carry no claim; only the direction that nothing else arrives holds there.
- KeyArrival: that all messages come to be read is not claimed, as a listener may stay with one connection (OthersWait); the results say what holds once they are.
- ReplicasAgree: says nothing about keys put with two values, where the code does not make replicas agree.
- FullMesh: removals and failed sends during the joins, and a list filled by more than eight workers, are not part of it.
- Drop: a listener may turn away from a closed connection before it has read what is left in it, and a connection that is made again after a closing shares the channel of the old one; this allows more runs than the code has, and the results that claim a run are about connections that were never closed.
- ReceiverStep: the failed peers of a broadcast are removed in one step, and the export thread may look up a connection while a broadcast is under way, which the peer table's lock forbids; this allows more runs than the code has.
- Passes: is about sends that succeed, on a ring that does not change meanwhile; what one pass does when a send fails is in Pass.
- HandleRetrieveRequest: the table is taken to hold NUL-free strings, as C strings are; the lock around the socket is not modelled.
- OnPeerPair: runs the look-up and the insertion together; what happens between them is in ValueChanges.
- OnStoreRequest: its reply is what is handed to SendStoreResponse, which refuses an empty key.
- BoundedWaiting: a worker's `connected` flag is only cleared in the dead branch named above, so it never changes in a run.
- EveryInterleaving: client threads that find no worker or no room answer with an error and accept nothing; such answers are not modelled.
