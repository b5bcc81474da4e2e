/**
 * What two kinds of threads of the load balancer do on the structures they
 * share: a pass of the dispatcher's loop, and the handler of WORKER_READY.  Each
 * runs here while the other threads stand still; modules Dispatcher and
 * JoinProtocol take them apart into the steps between which they interleave.
 */
module LoadBalancerThreads {
  import opened Config
  import opened Dispatcher
  import opened JoinProtocol
  import opened MessageQueue
  import opened RingSchedule
  import opened RingSpec
  import opened WorkerList

  // ===== The round robin and the requests it serves

  /** Each of the first requests went to the ready worker whose turn it was; `places` says where these stand. */
  ghost predicate InTurn(
    ws: seq<Worker>, cur: nat, before: seq<Request>, places: seq<nat>, log: seq<(SocketHandle, Request)>)
    requires cur < |ws|
  {
    && |log| == |places| <= |before|
    && (forall j :: 0 <= j < |places| ==>
          places[j] < |ws| && ws[places[j]].Eligible() && log[j] == (ws[places[j]].socket, before[j]))
    && forall p :: 0 <= p < |ws| ==> multiset(places)[p] == Times(ws, cur, |places|, p)
  }

  lemma NoTurns(ws: seq<Worker>, cur: nat, before: seq<Request>)
    requires cur < |ws|
    ensures InTurn(ws, cur, before, [], []) && CurAfter(ws, cur, 0) == cur
  {
  }

  lemma OneMoreTurn(
    ws: seq<Worker>, cur: nat, before: seq<Request>, places: seq<nat>, log: seq<(SocketHandle, Request)>, p: nat)
    requires cur < |ws| && InTurn(ws, cur, before, places, log) && |places| < |before|
    requires Pick(ws, CurAfter(ws, cur, |places|)) == Some(p) && p < |ws| && ws[p].Eligible()
    ensures InTurn(ws, cur, before, places + [p], log + [(ws[p].socket, before[|places|])])
    ensures CurAfter(ws, cur, |places| + 1) == RingSpec.Next(ws, CurAfter(ws, cur, |places|))
  {
    hide Times, CurAfter, Pick, RingSpec.Next;
    forall q: nat {
      OneMoreCall(ws, cur, |places|, q);
    }
    OneMoreCall(ws, cur, |places|, p);
  }

  lemma TurnsAreShared(
    ws: seq<Worker>, cur: nat, before: seq<Request>, places: seq<nat>, log: seq<(SocketHandle, Request)>)
    requires cur < |ws| && InTurn(ws, cur, before, places, log) && ReadyWorkers(ws) > 0
    ensures |log| == |places| <= |before|
    ensures forall i :: 0 <= i < |places| ==>
              places[i] < |ws| && ws[places[i]].Eligible() && log[i] == (ws[places[i]].socket, before[i])
    ensures forall p :: 0 <= p < |ws| && ws[p].Eligible() ==>
              var k, r := |places|, ReadyWorkers(ws);
              k / r <= multiset(places)[p] <= (k + r - 1) / r
  {
    hide Times, ReadyWorkers;
    forall p | 0 <= p < |ws| && ws[p].Eligible() {
      FairShare(ws, cur, |places|, p);
    }
  }

  // ===== The dispatcher

  /** The loop variables of WorkerClientRequestDispatcherThread. */
  class DispatcherThread {
    const queue: MessageQueue<ClientOwner>
    const list: WorkerList
    var hasRequest: bool
    var request: Slot<ClientOwner>
    var hasWorker: bool
    var workerId: int
    var workerSocket: SocketHandle
    ghost var sent: seq<(SocketHandle, Request)>  // what has gone out, in order

    ghost predicate Valid()
      reads this, queue, queue.slots, list, list.ring.nodes
    {
      queue.Valid() && list.Valid() && request.Valid()
    }

    /** The request the thread holds, before those that wait. */
    ghost function Waiting(): seq<Request>
      reads this, queue, queue.slots, list, list.ring.nodes
      requires Valid()
    {
      (if hasRequest then [Meaning(request)] else []) + queue.Contents()
    }

    constructor (queue: MessageQueue<ClientOwner>, list: WorkerList, request: Slot<ClientOwner>)
      requires queue.Valid() && list.Valid() && request.Valid()
      ensures Valid() && this.queue == queue && this.list == list && !hasRequest && !hasWorker && sent == []
    {
      this.queue, this.list, this.request := queue, list, request;
      hasRequest, hasWorker, workerId, workerSocket, sent := false, false, 0, Invalid, [];
    }

    /** The wait succeeds exactly when the queue is not empty. */
    method NeedRequest()
      requires Valid()
      modifies this`hasRequest, this`request, queue`head, queue`count
      ensures Valid() && Waiting() == old(Waiting())
      ensures hasRequest <==> old(Waiting()) != []
      ensures old(hasRequest) ==> queue.Contents() == old(queue.Contents())
    {
      if !hasRequest {
        var r, taken := queue.Take(request);
        request := taken;
        if r == 1 {
          hasRequest := true;
        }
      }
    }

    method NeedWorker()
      requires Valid()
      modifies this`hasWorker, this`workerId, this`workerSocket, list`current, list`ring
      ensures Valid() && Waiting() == old(Waiting())
      ensures old(hasWorker) ==> list.ring == old(list.ring) && hasWorker
      ensures old(hasWorker) ==> workerId == old(workerId) && workerSocket == old(workerSocket)
      ensures var ring := old(list.ring);
        !old(hasWorker) ==> list.ring == ring.(cur := RingSpec.Next(ring.workers, ring.cur))
      ensures !old(hasWorker) ==> match Pick(old(list.ring.workers), old(list.ring.cur))
        case None => !hasWorker
        case Some(p) => hasWorker && workerId == list.ring.workers[p].id && workerSocket == list.ring.workers[p].socket
    {
      if !hasWorker {
        var r, id, socket := list.GetNextWorker();
        if r > 0 {
          hasWorker, workerId, workerSocket := true, id, socket;
        }
      }
    }

    /** A failed send: a lost worker leaves the list, and the request goes back to the queue. */
    method GiveBack(sendResult: int)
      requires Valid() && hasRequest
      modifies this`hasRequest, queue`tail, queue`count, queue.slots, list, list.ring.nodes
      ensures Valid() && !hasRequest
      ensures var others := old(queue.Contents());
        queue.Contents() == if |others| < QUEUE_CAPACITY then others + [old(Meaning(request))] else others
      ensures list.ring == if (sendResult == -2 || sendResult == -3) && workerId > 0
                           then Remove(old(list.ring), workerId) else old(list.ring)
      ensures (sendResult == -2 || sendResult == -3) && workerId > 0 && DistinctIds(old(list.ring.workers)) ==>
                forall w :: w in list.ring.workers <==> w in old(list.ring.workers) && w.id != workerId
    {
      hide Remove, FirstMatch, DistinctIds, Live, Linked, Stored;
      if sendResult == -2 || sendResult == -3 {
        if DistinctIds(list.ring.workers) {
          RemovedExactly(list.ring, workerId);
        }
        var _ := list.RemoveWorker(workerId);
      }
      var _ := queue.Return(request);
      hasRequest := false;
    }

    /** `send` answers for the request on the worker's socket; a request without a key is never sent. */
    method SendOn(send: (SocketHandle, Request) -> int) returns (dispatched: bool)
      requires Valid() && hasRequest && hasWorker
      requires forall socket, r :: !Sendable(r) ==> send(socket, r) <= 0
      modifies this, queue`tail, queue`count, queue.slots, list, list.ring.nodes
      ensures Valid()
      ensures var r, others := old(Meaning(request)), old(queue.Contents());
        var result := send(old(workerSocket), r);
        && (dispatched <==> IsKnownType(r) && Asked(r).Some? && result > 0)
        && sent == (if dispatched then old(sent) + [(old(workerSocket), r)] else old(sent))
        && Waiting() == (
             if !IsKnownType(r) then [r] + others
             else if dispatched || Asked(r).None? || |others| >= QUEUE_CAPACITY then others
             else others + [r])
        && (hasRequest <==> !IsKnownType(r)) && (hasWorker <==> !IsKnownType(r) || Asked(r).None?)
        && list.ring == (
             if IsKnownType(r) && Asked(r).Some? && (result == -2 || result == -3) && old(workerId) > 0
             then Remove(old(list.ring), old(workerId)) else old(list.ring))
    {
      hide Asked, IsKnownType, Sendable, Remove, DistinctIds, Live, Linked, Stored;
      dispatched := false;
      var r := Meaning(request);
      if IsKnownType(r) {
        if Asked(r).Some? {
          var sendResult := send(workerSocket, r);
          if sendResult > 0 {
            dispatched, hasRequest := true, false;
            sent := sent + [(workerSocket, r)];
          } else {
            GiveBack(sendResult);
          }
          hasWorker := false;
        } else {
          hasRequest := false;
        }
      }
    }

    /**
     * One pass.  With a worker to be had, the first request is sent on its socket
     * and is gone if that succeeds; otherwise it goes behind the others, or is
     * dropped if the queue is full.  Without one, nothing changes.
     */
    method Pass(send: (SocketHandle, Request) -> int) returns (dispatched: bool)
      requires Valid()
      requires forall socket, r :: !Sendable(r) ==> send(socket, r) <= 0
      modifies this, queue, queue.slots, list, list.ring.nodes
      ensures Valid()
      ensures var before, ring := old(Waiting()), old(list.ring);
        var picked := Pick(ring.workers, ring.cur);
        if before == [] || (!old(hasWorker) && picked.None?) then
          !dispatched && Waiting() == before && list.ring == ring && hasWorker == old(hasWorker) && sent == old(sent)
        else if !Admitted(before[0]) then !dispatched && sent == old(sent)
        else
          var id := if old(hasWorker) then old(workerId) else ring.workers[picked.value].id;
          var socket := if old(hasWorker) then old(workerSocket) else ring.workers[picked.value].socket;
          var moved := if old(hasWorker) then ring else ring.(cur := RingSpec.Next(ring.workers, ring.cur));
          var result := send(socket, before[0]);
          && (dispatched <==> result > 0) && !hasRequest && !hasWorker
          && sent == (if dispatched then old(sent) + [(socket, before[0])] else old(sent))
          && Waiting() == (if dispatched || |before| > QUEUE_CAPACITY then before[1..] else before[1..] + [before[0]])
          && list.ring == if (result == -2 || result == -3) && id > 0 then Remove(moved, id) else moved
      ensures dispatched ==> old(Waiting()) != [] && Sendable(old(Waiting())[0])
    {
      dispatched := false;
      NeedRequest();
      if hasRequest {
        NeedWorker();
        if hasWorker {
          dispatched := SendOn(send);
        }
      }
    }

    /** While a worker is ready it is some worker's turn. */
    lemma SomeTurn() returns (p: nat)
      requires Valid() && ReadyWorkers(list.ring.workers) > 0
      ensures list.ring.cur < |list.ring.workers| && p < |list.ring.workers| && list.ring.workers[p].Eligible()
      ensures Pick(list.ring.workers, list.ring.cur) == Some(p)
    {
      PickFailsIffNoneReady(list.ring.workers, list.ring.cur);
      p := Pick(list.ring.workers, list.ring.cur).value;
    }

    /** A pass on which the send succeeds; `p` is the place of the worker whose turn it is. */
    method PassOn(send: (SocketHandle, Request) -> int, ghost p: nat)
      requires Valid() && !hasWorker && Waiting() != [] && Admitted(Waiting()[0])
      requires Pick(list.ring.workers, list.ring.cur) == Some(p) && p < |list.ring.workers|
      requires send(list.ring.workers[p].socket, Waiting()[0]) > 0
      requires forall socket, r :: !Sendable(r) ==> send(socket, r) <= 0
      modifies this, queue, queue.slots, list, list.ring.nodes
      ensures Valid() && !hasWorker && Waiting() == old(Waiting())[1..]
      ensures list.ring == old(list.ring).(cur := RingSpec.Next(old(list.ring.workers), old(list.ring.cur)))
      ensures sent == old(sent) + [(list.ring.workers[p].socket, old(Waiting())[0])]
    {
      hide Admitted, Sendable, Pick, RingSpec.Next;
      var _ := Pass(send);
    }

    /**
     * k passes while every send succeeds, beginning with empty hands: the first k
     * requests go out, one a pass and in order, the others stay, and every ready
     * worker gets k/r of them, rounded down or up.  `places` says where in the
     * ring the worker of each request stands.
     */
    method Passes(k: nat, send: (SocketHandle, Request) -> int)
      returns (ghost places: seq<nat>, ghost log: seq<(SocketHandle, Request)>)
      requires Valid() && !hasWorker && k <= |Waiting()| && ReadyWorkers(list.ring.workers) > 0
      requires forall i :: 0 <= i < k ==> Admitted(Waiting()[i])
      requires forall i, socket :: 0 <= i < k ==> send(socket, Waiting()[i]) > 0
      requires forall socket, r :: !Sendable(r) ==> send(socket, r) <= 0
      modifies this, queue, queue.slots, list, list.ring.nodes
      ensures Valid() && !hasWorker && Waiting() == old(Waiting())[k..]
      ensures list.ring.nodes == old(list.ring.nodes) && list.ring.workers == old(list.ring.workers)
      ensures sent == old(sent) + log && |log| == |places| == k
      ensures forall i :: 0 <= i < k ==>
                && places[i] < |list.ring.workers| && list.ring.workers[places[i]].Eligible()
                && log[i] == (list.ring.workers[places[i]].socket, old(Waiting())[i])
      ensures forall p :: 0 <= p < |list.ring.workers| && list.ring.workers[p].Eligible() ==>
                var r := ReadyWorkers(list.ring.workers);
                k / r <= multiset(places)[p] <= (k + r - 1) / r
    {
      hide *;
      places, log := [], [];
      ghost var before, ws, cur := Waiting(), list.ring.workers, list.ring.cur;
      ghost var _ := SomeTurn();
      NoTurns(ws, cur, before);
      for i := 0 to k
        invariant Valid() && !hasWorker && Waiting() == before[i..]
        invariant list.ring.nodes == old(list.ring.nodes) && list.ring.workers == ws
        invariant list.ring.cur == CurAfter(ws, cur, i) && sent == old(sent) + log
        invariant |places| == i && InTurn(ws, cur, before, places, log)
      {
        ghost var p := SomeTurn();
        assert before[i..][0] == before[i] && before[i..][1..] == before[i + 1..];
        PassOn(send, p);
        OneMoreTurn(ws, cur, before, places, log, p);
        places, log := places + [p], log + [(ws[p].socket, before[i])];
      }
      TurnsAreShared(ws, cur, before, places, log);
    }
  }

  // ===== MSG_WORKER_READY

  /**
   * The first two calls of the handler.  AddWorker's wait on notFull succeeds or
   * times out; a timed-out addition answers 0 like one that was made, so the
   * worker counts as new though it is not in the list.
   */
  method EnterList(list: WorkerList, hasPermit: bool, socket: SocketHandle, id: int, address: Bytes, port: int)
    returns (isNew: bool, ready: int)
    requires list.Valid()
    modifies list, list.ring.nodes
    ensures list.Valid()
    ensures isNew <==> !socket.Invalid? && (!hasPermit || |old(list.ring.nodes)| < MAX_WORKERS)
    ensures var ring := old(list.ring);
      if !isNew then list.ring == SetReady(SetPort(ring, id, port), id)
      else if !hasPermit then list.ring == SetReady(ring, id)
      else |list.ring.nodes| == |ring.nodes| + 1
           && var w := Worker(id, socket, Truncate(address), port, true, false);
              list.ring == SetReady(Add(ring, list.ring.nodes[|ring.nodes|], w), id)
    ensures FirstMatch(old(list.ring.workers), id) == |old(list.ring.workers)| ==>
              ready == if isNew && hasPermit then 1 else -1
    ensures FirstMatch(old(list.ring.workers), id) < |old(list.ring.workers)| ==>
              ready == if old(list.ring.workers[FirstMatch(list.ring.workers, id)].ready) then 0 else 1
  {
    ghost var ws := list.ring.workers;
    var addResult := -1;
    if !socket.Invalid? {
      addResult := 0;
      if hasPermit {
        addResult := list.AddWorker(socket, id, address, port);
      }
    }
    isNew := addResult != -1;
    if !isNew {
      var _ := list.UpdateWorkerPeerPort(id, port);
      FirstMatchById(ws, list.ring.workers, id);
    } else if hasPermit {
      FirstMatchAppended(ws, list.ring.workers[|ws|], id);
    }
    ready := list.SetWorkerReady(id);
  }

  /**
   * The other two calls, made when the worker was not ready before: `announce(k)`
   * answers the k-th announcement, `update(k)` the k-th entry of the registry.
   */
  method TellWorkers(list: WorkerList, id: int, isNew: bool, announce: nat -> int, update: nat -> int)
    returns (announced: seq<(SocketHandle, Entry)>, registry: seq<Entry>)
    requires list.Valid()
    ensures announced == if isNew then Broadcast(list.ring.workers, id) else []
    ensures var all := Update(list.ring.workers, id);
      && |registry| <= |all| && (forall i :: 0 <= i < |registry| ==> registry[i] == all[i].1 && update(i) > 0)
      && (|registry| < |all| ==> update(|registry|) <= 0)
  {
    announced := [];
    if isNew {
      var notified;
      notified, announced := list.BroadcastNewWorkerJoined(id, announce);
    }
    var result;
    result, registry := list.SendWorkerRegistryToSingleWorker(id, update);
  }
}
