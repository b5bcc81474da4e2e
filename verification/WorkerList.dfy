/**
 * LoadBalancer/WorkerList.c: the circular doubly linked list of workers with
 * its round-robin pointer.  Each method is the region the C function runs
 * while it holds the list's lock; the semaphores around those regions are the
 * subject of module WorkerPermits.
 */
module WorkerList {
  import opened Circle
  import opened Config
  import opened RingSpec

  class WorkerNode {
    var workerId: int
    var workerSocket: SocketHandle
    var workerAddress: Bytes
    var workerPeerPort: int
    var isConnected: bool
    var isReady: bool
    var next: WorkerNode?
    var prev: WorkerNode?

    ghost function Info(): Worker
      reads `workerId, `workerSocket, `workerAddress, `workerPeerPort, `isConnected, `isReady
    {
      Worker(workerId, workerSocket, workerAddress, workerPeerPort, isConnected, isReady)
    }

    constructor (id: int, socket: SocketHandle, address: Bytes, port: int)
      ensures Info() == Worker(id, socket, Truncate(address), port, true, false)
    {
      workerId, workerSocket, workerPeerPort := id, socket, port;
      workerAddress := Truncate(address);
      isConnected, isReady := true, false;
      next, prev := null, null;
    }
  }

  /** The links of the nodes spell the ring. */
  ghost predicate Linked(nodes: seq<WorkerNode>)
    reads nodes`next, nodes`prev
  {
    && (forall i {:trigger nodes[i].next} :: 0 <= i < |nodes| ==> nodes[i].next == nodes[After(i, |nodes|)])
    && (forall i {:trigger nodes[i].prev} :: 0 <= i < |nodes| ==> nodes[i].prev == nodes[Before(i, |nodes|)])
  }

  /** Every node stores what the ring says. */
  ghost predicate Stored(nodes: seq<WorkerNode>, workers: seq<Worker>)
    reads nodes`workerId, nodes`workerSocket, nodes`workerAddress, nodes`workerPeerPort
    reads nodes`isConnected, nodes`isReady
  {
    |nodes| == |workers| && forall i {:trigger workers[i]} :: 0 <= i < |nodes| ==> nodes[i].Info() == workers[i]
  }

  /** Links a new node between the tail and the head of a ring. */
  method LinkLast(head: WorkerNode, newNode: WorkerNode, ghost nodes: seq<WorkerNode>)
    requires nodes != [] && head == nodes[0] && Distinct(nodes) && newNode !in nodes
    requires Linked(nodes)
    modifies newNode`next, newNode`prev, nodes`next, nodes`prev
    ensures Linked(nodes + [newNode])
  {
    var tail := head.prev;
    tail.next := newNode;
    newNode.prev := tail;
    newNode.next := head;
    head.prev := newNode;
  }

  /** Place in the whole ring of the node at place `i` once the one at `k` is gone. */
  function Skip(i: nat, k: nat): nat {
    if i < k then i else i + 1
  }

  /** A ring whose links bypass place `k` is a ring without that place. */
  lemma BypassIsDelete(nodes: seq<WorkerNode>, k: nat)
    requires k < |nodes| && |nodes| > 1
    requires forall i {:trigger nodes[i].next} :: 0 <= i < |nodes| && i != Before(k, |nodes|) ==>
               nodes[i].next == nodes[After(i, |nodes|)]
    requires forall i {:trigger nodes[i].prev} :: 0 <= i < |nodes| && i != After(k, |nodes|) ==>
               nodes[i].prev == nodes[Before(i, |nodes|)]
    requires nodes[Before(k, |nodes|)].next == nodes[After(k, |nodes|)]
    requires nodes[After(k, |nodes|)].prev == nodes[Before(k, |nodes|)]
    ensures Linked(Delete(nodes, k))
  {
    var n, rest := |nodes|, Delete(nodes, k);
    forall i | 0 <= i < n - 1
      ensures rest[i].next == rest[After(i, n - 1)] && rest[i].prev == rest[Before(i, n - 1)]
    {
      assert rest[i] == nodes[Skip(i, k)];
      assert rest[After(i, n - 1)] == nodes[Skip(After(i, n - 1), k)];
      assert rest[Before(i, n - 1)] == nodes[Skip(Before(i, n - 1), k)];
    }
  }

  lemma RemoveKeepsStored(r: Ring<WorkerNode>, id: int)
    requires FirstMatch(r.workers, id) < |r.workers| && Stored(r.nodes, r.workers)
    ensures Stored(Remove(r, id).nodes, Remove(r, id).workers)
  {
    var k, rest := FirstMatch(r.workers, id), Remove(r, id);
    forall i | 0 <= i < |rest.nodes|
      ensures rest.nodes[i].Info() == rest.workers[i]
    {
      assert rest.nodes[i] == r.nodes[Skip(i, k)] && rest.workers[i] == r.workers[Skip(i, k)];
    }
  }

  lemma RemoveKeepsRing<N>(r: Ring<N>, id: int)
    requires r.Valid() && FirstMatch(r.workers, id) < |r.nodes|
    ensures Remove(r, id).Valid() && |Remove(r, id).nodes| == |r.nodes| - 1
    ensures var k, r' := FirstMatch(r.workers, id), Remove(r, id);
      |r.nodes| > 1 ==>
        && r'.nodes[0] == r.nodes[if k == 0 then After(0, |r.nodes|) else 0]
        && r'.nodes[r'.cur] == r.nodes[if k == r.cur then After(k, |r.nodes|) else r.cur]
  {
    var k, rest := FirstMatch(r.workers, id), Delete(r.nodes, FirstMatch(r.workers, id));
    assert forall i :: 0 <= i < |rest| ==> rest[i] == r.nodes[Skip(i, k)];
  }

  /** Takes the node at place `k` out of a ring of at least two. */
  method Unlink(node: WorkerNode, ghost nodes: seq<WorkerNode>, ghost k: nat)
    requires k < |nodes| && |nodes| > 1 && node == nodes[k] && Distinct(nodes)
    requires Linked(nodes)
    modifies nodes`next, nodes`prev
    ensures Linked(Delete(nodes, k)) && node.next == old(node.next)
  {
    ghost var n := |nodes|;
    ghost var before, after := Before(k, n), After(k, n);
    assert node.prev == nodes[before] && node.next == nodes[after];
    node.prev.next := node.next;
    node.next.prev := node.prev;
    BypassIsDelete(nodes, k);
  }

  /** What RemoveWorker does to the links, `head` and `current` once it has found a node. */
  method Detach(node: WorkerNode, head: WorkerNode, current: WorkerNode, ghost r: Ring<WorkerNode>, ghost id: int)
    returns (newHead: WorkerNode?, newCurrent: WorkerNode?)
    requires r.Valid() && Linked(r.nodes) && FirstMatch(r.workers, id) < |r.nodes|
    requires node == r.nodes[FirstMatch(r.workers, id)] && head == r.nodes[0] && current == r.nodes[r.cur]
    modifies r.nodes`next, r.nodes`prev
    ensures Linked(Remove(r, id).nodes)
    ensures |r.nodes| == 1 ==> newHead == null && newCurrent == null
    ensures |r.nodes| > 1 ==>
              newHead == Remove(r, id).nodes[0] && newCurrent == Remove(r, id).nodes[Remove(r, id).cur]
  {
    ghost var k, rest := FirstMatch(r.workers, id), Remove(r, id);
    RemoveKeepsRing(r, id);
    newHead, newCurrent := head, current;
    if node == head && node.next == head {
      assert |r.nodes| == 1 && rest.nodes == [];
      newHead := null;
      newCurrent := null;
    } else {
      if node == head {
        newHead := node.next;
      }
      Unlink(node, r.nodes, k);
      if node == current {
        newCurrent := node.next;
      }
    }
  }

  class WorkerList {
    var head: WorkerNode?
    var current: WorkerNode?
    var count: int
    ghost var ring: Ring<WorkerNode>

    ghost predicate Valid()
      reads this, ring.nodes
    {
      && ring.Valid() && Linked(ring.nodes) && Stored(ring.nodes, ring.workers)
      && count == |ring.nodes|
      && (if count == 0 then head == null && current == null
          else head == ring.nodes[0] && current == ring.nodes[ring.cur])
    }

    constructor ()
      ensures Valid() && ring == Ring([], [], 0)
    {
      head, current, count := null, null, 0;
      ring := Ring([], [], 0);
    }

    method AddWorker(socket: SocketHandle, id: int, address: Bytes, port: int) returns (r: int)
      requires Valid()
      modifies this, ring.nodes
      ensures Valid()
      ensures r == if socket.Invalid? || |old(ring.nodes)| >= MAX_WORKERS then -1 else 0
      ensures r == -1 ==> ring == old(ring)
      ensures r == 0 ==> |ring.nodes| > 0 && fresh(ring.nodes[|ring.nodes| - 1])
      ensures r == 0 ==> ring == Add(old(ring), ring.nodes[|ring.nodes| - 1],
                                     Worker(id, socket, Truncate(address), port, true, false))
    {
      if socket.Invalid? {
        return -1;
      }
      if count >= MAX_WORKERS {
        return -1;
      }
      var newNode := new WorkerNode(id, socket, address, port);
      if head == null {
        head := newNode;
        current := newNode;
        newNode.next := newNode;
        newNode.prev := newNode;
      } else {
        LinkLast(head, newNode, ring.nodes);
      }
      count := count + 1;
      ring := Add(ring, newNode, newNode.Info());
      r := 0;
    }

    method RemoveNode(node: WorkerNode, ghost id: int)
      requires Valid() && FirstMatch(ring.workers, id) < |ring.workers|
      requires node == ring.nodes[FirstMatch(ring.workers, id)]
      modifies this, ring.nodes`next, ring.nodes`prev
      ensures Valid() && ring == Remove(old(ring), id)
    {
      hide FirstMatch, Linked, Remove;
      ghost var rest := Remove(ring, id);
      RemoveKeepsRing(ring, id);
      head, current := Detach(node, head, current, ring, id);
      RemoveKeepsStored(ring, id);
      count := count - 1;
      ring := rest;
    }

    method RemoveWorker(id: int) returns (r: int)
      requires Valid()
      modifies this, ring.nodes
      ensures Valid()
      ensures r == if id > 0 && FirstMatch(old(ring.workers), id) < |old(ring.workers)| then 0 else -1
      ensures ring == if id > 0 then Remove(old(ring), id) else old(ring)
    {
      if id <= 0 {
        return -1;
      }
      var temp, isFound := head, false;
      if temp != null {
        ghost var k := 0;
        while true
          invariant Valid() && ring == old(ring) && !isFound
          invariant k < |ring.nodes| && temp == ring.nodes[k]
          invariant forall j :: 0 <= j < k ==> ring.workers[j].id != id
          decreases |ring.nodes| - k
        {
          assert ring.workers[k] == temp.Info();
          if temp.workerId == id {
            isFound := true;
            RemoveNode(temp, id);
            break;
          }
          temp := temp.next;
          k := k + 1;
          if temp == head {
            break;
          }
        }
      }
      r := if isFound then 0 else -1;
    }

    /** The search of GetNextWorker: how many nodes it passes, and the one it stops at. */
    method FindReady() returns (attempts: nat, node: WorkerNode)
      requires Valid() && count > 0
      ensures attempts <= |ring.workers|
      ensures forall j :: 0 <= j < attempts ==> !Ahead(ring.workers, ring.cur, j).Eligible()
      ensures attempts < |ring.workers| ==>
                node == Ahead(ring.nodes, ring.cur, attempts) && Ahead(ring.workers, ring.cur, attempts).Eligible()
    {
      attempts, node := 0, current;
      while attempts < count
        invariant attempts <= count
        invariant node == Ahead(ring.nodes, ring.cur, attempts)
        invariant forall j :: 0 <= j < attempts ==> !Ahead(ring.workers, ring.cur, j).Eligible()
      {
        assert Ahead(ring.workers, ring.cur, attempts) == node.Info();
        if node.isConnected && node.isReady {
          break;
        }
        node := node.next;
        attempts := attempts + 1;
      }
    }

    method MoveCurrentPast(node: WorkerNode, ghost p: nat)
      requires Valid() && p < |ring.nodes| && node == ring.nodes[p]
      modifies `current, `ring
      ensures Valid() && ring == old(ring).(cur := After(p, |old(ring.nodes)|))
    {
      current := node.next;
      ring := ring.(cur := After(p, |ring.nodes|));
    }

    method GetNextWorker() returns (r: int, id: int, socket: SocketHandle)
      requires Valid()
      modifies `current, `ring
      ensures Valid()
      ensures ring == old(ring).(cur := Next(old(ring.workers), old(ring.cur)))
      ensures match Pick(old(ring.workers), old(ring.cur))
        case None => r == -1
        case Some(p) => r == 1 && id == old(ring.workers)[p].id && socket == old(ring.workers)[p].socket
    {
      hide Skipped, Linked;
      if count == 0 || current == null {
        return -1, 0, Invalid;
      }
      var attempts, node := FindReady();
      WalkFindsPick(ring.workers, ring.cur, attempts);
      if attempts >= count {
        return -1, 0, Invalid;
      }
      ghost var p := Wrap(ring.cur + attempts, |ring.workers|);
      assert node.Info() == ring.workers[p];
      MoveCurrentPast(node, p);
      r, id, socket := 1, node.workerId, node.workerSocket;
    }

    method MarkReady(node: WorkerNode, ghost k: nat)
      requires Valid() && k < |ring.nodes| && node == ring.nodes[k]
      modifies `ring, node`isReady
      ensures Valid() && ring == old(ring).(workers := old(ring.workers)[k := old(ring.workers[k]).(ready := true)])
    {
      node.isReady := true;
      ring := ring.(workers := ring.workers[k := ring.workers[k].(ready := true)]);
    }

    method StorePort(node: WorkerNode, ghost k: nat, port: int)
      requires Valid() && k < |ring.nodes| && node == ring.nodes[k]
      modifies `ring, node`workerPeerPort
      ensures Valid() && ring == old(ring).(workers := old(ring.workers)[k := old(ring.workers[k]).(port := port)])
    {
      node.workerPeerPort := port;
      ring := ring.(workers := ring.workers[k := ring.workers[k].(port := port)]);
    }

    method SetWorkerReady(id: int) returns (r: int)
      requires Valid()
      modifies `ring, ring.nodes`isReady
      ensures Valid() && ring == SetReady(old(ring), id)
      ensures var k := FirstMatch(old(ring.workers), id);
        r == if k == |old(ring.workers)| then -1 else if old(ring.workers)[k].ready then 0 else 1
    {
      r := -1;
      var node := head;
      if node != null {
        ghost var k := 0;
        while true
          invariant Valid() && ring == old(ring) && r == -1
          invariant k < |ring.nodes| && node == ring.nodes[k]
          invariant forall j :: 0 <= j < k ==> ring.workers[j].id != id
          decreases |ring.nodes| - k
        {
          assert ring.workers[k] == node.Info();
          if node.workerId == id {
            assert k == FirstMatch(ring.workers, id);
            if !node.isReady {
              MarkReady(node, k);
              r := 1;
            } else {
              r := 0;
            }
            break;
          }
          node := node.next;
          k := k + 1;
          if node == head {
            break;
          }
        }
      }
    }

    method UpdateWorkerPeerPort(id: int, port: int) returns (r: int)
      requires Valid()
      modifies `ring, ring.nodes`workerPeerPort
      ensures Valid() && ring == SetPort(old(ring), id, port)
      ensures r == if FirstMatch(old(ring.workers), id) < |old(ring.workers)| then 0 else -1
    {
      r := -1;
      var node := head;
      if node != null {
        ghost var k := 0;
        while true
          invariant Valid() && ring == old(ring) && r == -1
          invariant k < |ring.nodes| && node == ring.nodes[k]
          invariant forall j :: 0 <= j < k ==> ring.workers[j].id != id
          decreases |ring.nodes| - k
        {
          assert ring.workers[k] == node.Info();
          if node.workerId == id {
            assert k == FirstMatch(ring.workers, id);
            StorePort(node, k, port);
            r := 0;
            break;
          }
          node := node.next;
          k := k + 1;
          if node == head {
            break;
          }
        }
      }
    }

    /** One step of an iteration over the ring; `visited` is null or the node visited last. */
    method IterateWorkersOnce(visited: WorkerNode?) returns (id: int, following: WorkerNode?)
      requires Valid() && (visited == null || visited in ring.nodes)
      ensures ring.nodes == [] ==> id == 0 && following == visited
      ensures ring.nodes != [] && visited == null ==> following == ring.nodes[0] && id == ring.workers[0].id
      ensures forall i :: 0 <= i < |ring.nodes| && visited == ring.nodes[i] ==>
                if i + 1 == |ring.nodes| then id == 0 && following == null
                else following == ring.nodes[i + 1] && id == ring.workers[i + 1].id
    {
      if count == 0 {
        return 0, visited;
      }
      if visited == null {
        assert ring.workers[0] == head.Info();
        return head.workerId, head;
      }
      ghost var i :| 0 <= i < |ring.nodes| && ring.nodes[i] == visited;
      if visited.next == head {
        assert i + 1 == |ring.nodes|;
        return 0, null;
      }
      assert ring.workers[i + 1] == ring.nodes[i + 1].Info();
      return visited.next.workerId, visited.next;
    }

    /** Sends the registry to one socket; the k-th send answers `send(k)`. */
    method SendWorkerRegistryEntries(socket: SocketHandle, send: nat -> int) returns (r: int, sent: seq<Entry>)
      requires Valid()
      ensures socket.Invalid? ==> r == -1 && sent == []
      ensures !socket.Invalid? ==>
                |sent| <= |ring.workers| && sent == Registry(ring.workers)[..|sent|]
                && (forall k :: 0 <= k < |sent| ==> send(k) > 0)
                && (if |sent| == |ring.workers| then r == |sent| else r == -1 && send(|sent|) <= 0)
    {
      sent := [];
      if socket.Invalid? {
        return -1, sent;
      }
      var node := head;
      if node != null {
        while true
          invariant |sent| < |ring.workers| && node == ring.nodes[|sent|]
          invariant sent == Registry(ring.workers)[..|sent|]
          invariant forall k :: 0 <= k < |sent| ==> send(k) > 0
          decreases |ring.nodes| - |sent|
        {
          assert ring.workers[|sent|] == node.Info();
          if send(|sent|) <= 0 {
            return -1, sent;
          }
          sent := sent + [Entry(node.workerId, node.workerAddress, node.workerPeerPort, false)];
          node := node.next;
          if node == head {
            break;
          }
        }
      }
      r := |sent|;
    }

    method SendWorkerRegistryToSingleWorker(target: int, send: nat -> int) returns (r: int, sent: seq<Entry>)
      requires Valid()
      ensures var t := LastMatch(ring.workers, target);
        if ring.workers == [] then r == 0 && sent == []
        else if t == |ring.workers| then r == -1 && sent == []
        else if !ring.workers[t].connected || ring.workers[t].socket.Invalid? then r == 0 && sent == []
        else |sent| <= |ring.workers| && sent == Registry(ring.workers)[..|sent|]
             && (forall k :: 0 <= k < |sent| ==> send(k) > 0)
             && (if |sent| == |ring.workers| then r == 1 else r == 0 && send(|sent|) <= 0)
    {
      sent := [];
      if count == 0 {
        return 0, sent;
      }
      var node, workerCount := head, 0;
      var targetWorker: WorkerNode? := null;
      ghost var t: nat := |ring.workers|;
      while true
        invariant 0 <= workerCount < |ring.nodes| && node == ring.nodes[workerCount]
        invariant if targetWorker == null then t == |ring.workers|
                  else t < workerCount && targetWorker == ring.nodes[t] && ring.workers[t].id == target
        invariant forall j :: (if targetWorker == null then -1 else t) < j < workerCount ==>
                    ring.workers[j].id != target
        decreases |ring.nodes| - workerCount
      {
        assert ring.workers[workerCount] == node.Info();
        if node.workerId == target {
          targetWorker, t := node, workerCount;
        }
        workerCount := workerCount + 1;
        node := node.next;
        if !(node != head && workerCount < MAX_WORKERS) {
          break;
        }
      }
      assert t == LastMatch(ring.workers, target);
      if targetWorker == null {
        return -1, sent;
      }
      assert ring.workers[t] == targetWorker.Info();
      if targetWorker.isConnected && !targetWorker.workerSocket.Invalid? {
        var result;
        result, sent := SendWorkerRegistryEntries(targetWorker.workerSocket, send);
        if result >= 0 {
          return 1, sent;
        } else if result == -2 || result == -3 {
          assert false;
        }
      }
      r := 0;
    }

    /** The first scan of BroadcastNewWorkerJoined. */
    method FindNewcomerAndSource(newId: int) returns (joined: WorkerNode?, source: WorkerNode?)
      requires Valid() && count > 0
      ensures var k := Newcomer(ring.workers, newId);
        if k == |ring.workers| then joined == null else joined == ring.nodes[k]
      ensures joined != null ==>
        var s := Source(ring.workers, newId);
        if s == |ring.workers| then source == null else source == ring.nodes[s]
    {
      joined, source := null, null;
      var node := head;
      ghost var ws, k := ring.workers, 0;
      ghost var j: nat, s: nat := |ws|, |ws|;
      while true
        invariant k < |ring.nodes| && node == ring.nodes[k]
        invariant if joined == null then j == |ws| else j < k && joined == ring.nodes[j] && ws[j].id == newId
        invariant if source == null then s == |ws|
                  else s < k && source == ring.nodes[s] && ws[s].id != newId && ws[s].Eligible()
        invariant forall i :: (if joined == null then -1 else j) < i < k ==> ws[i].id != newId
        invariant forall i :: 0 <= i < (if source == null then k else s) ==> ws[i].id == newId || !ws[i].Eligible()
        invariant joined == null || source == null
        decreases |ring.nodes| - k
      {
        assert ws[k] == node.Info();
        if node.workerId == newId {
          joined, j := node, k;
        } else if source == null && node.isConnected && node.isReady {
          source, s := node, k;
        }
        node := node.next;
        k := k + 1;
        if !(node != head && (joined == null || source == null)) {
          break;
        }
      }
      ScanResult(ws, newId, j, s, k);
    }

    /** The second scan of BroadcastNewWorkerJoined: the k-th send answers `send(k)`. */
    method SendAnnouncements(joined: WorkerNode, source: WorkerNode?, ghost place: nat, send: nat -> int)
      returns (r: int, sent: seq<(SocketHandle, Entry)>)
      requires Valid() && count > 0
      requires if source == null then place == |ring.nodes| else place < |ring.nodes| && source == ring.nodes[place]
      ensures sent == Announcements(ring.workers, joined.Info(), place, |ring.workers|)
      ensures r == Successes(send, |sent|)
    {
      r, sent := 0, [];
      var node := head;
      ghost var k := 0;
      while true
        invariant k < |ring.nodes| && node == ring.nodes[k]
        invariant sent == Announcements(ring.workers, joined.Info(), place, k)
        invariant r == Successes(send, |sent|)
        decreases |ring.nodes| - k
      {
        assert ring.workers[k] == node.Info();
        if node.workerId != joined.workerId && node.isConnected && !node.workerSocket.Invalid? {
          var shouldExport := node == source;
          assert shouldExport <==> k == place;
          if send(|sent|) > 0 {
            r := r + 1;
          }
          sent := sent + [(node.workerSocket,
                           Entry(joined.workerId, joined.workerAddress, joined.workerPeerPort, shouldExport))];
        }
        node := node.next;
        k := k + 1;
        if node == head {
          break;
        }
      }
    }

    method BroadcastNewWorkerJoined(newId: int, send: nat -> int) returns (r: int, sent: seq<(SocketHandle, Entry)>)
      requires Valid()
      ensures var ws := ring.workers;
        if |ws| <= 1 then r == 0 && sent == []
        else if Newcomer(ws, newId) == |ws| then r == -1 && sent == []
        else sent == Announcements(ws, ws[Newcomer(ws, newId)], Source(ws, newId), |ws|)
             && r == Successes(send, |sent|)
    {
      if count <= 1 {
        return 0, [];
      }
      var newWorker, sourceWorker := FindNewcomerAndSource(newId);
      if newWorker == null {
        return -1, [];
      }
      assert ring.workers[Newcomer(ring.workers, newId)] == newWorker.Info();
      r, sent := SendAnnouncements(newWorker, sourceWorker, Source(ring.workers, newId), send);
    }

    /** Closes the socket of every node; the nodes themselves are given up. */
    method DestroyWorkerList()
      requires Valid()
      modifies this, ring.nodes`workerSocket
      ensures Valid() && ring == Ring([], [], 0)
      ensures forall n <- old(ring.nodes) :: n.workerSocket == Invalid
    {
      var temp := head;
      if temp != null {
        ghost var k := 0;
        while true
          invariant ring == old(ring) && head == old(head)
          invariant k < |ring.nodes| && temp == ring.nodes[k]
          invariant forall j :: 0 <= j < k ==> ring.nodes[j].workerSocket == Invalid
          decreases |ring.nodes| - k
        {
          var next := temp.next;
          if temp.workerSocket != Invalid {
            temp.workerSocket := Invalid;
          }
          temp := next;
          k := k + 1;
          if temp == head {
            break;
          }
        }
      }
      head := null;
      current := null;
      count := 0;
      ring := Ring([], [], 0);
    }
  }
}
