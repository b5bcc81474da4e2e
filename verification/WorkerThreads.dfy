/**
 * What the threads of a worker do with one decoded message or request, on the
 * mutable structures they share.  Each method is one pass of a thread's loop, run while
 * the other threads stand still; module Replication takes the same passes apart
 * into the steps between which they interleave.
 */
module WorkerThreads {
  import opened Config
  import opened HashSpec
  import opened HashTable
  import opened PeerSpec
  import opened PeerManager
  import EQ = ExportQueue
  import opened NetworkLib
  import opened Payload
  import opened Framing
  import opened Protocol

  /** What is sent to the load balancer. */
  datatype Reply = StoreReply(result: Byte, clientId: nat, key: Bytes)
                 | RetrieveReply(result: Byte, clientId: nat, key: Bytes, value: Bytes)

  class Context {
    const hashTable: HashTable
    const peerManager: PeerManager
    const exportQueue: EQ.ExportQueue

    ghost function Repr(): set<object>
      reads this, hashTable
    {
      {hashTable, hashTable.buckets, peerManager, peerManager.peers, exportQueue, exportQueue.requests}
    }

    ghost predicate Valid()
      reads this, Repr(), hashTable.nodes
    {
      && hashTable.Valid() && peerManager.Valid() && exportQueue.Valid()
      && hashTable.nodes !! Repr()
    }

    constructor (peerPort: int)
      ensures Valid() && fresh(Repr()) && peerManager.peerPort == peerPort
      ensures hashTable.table == EmptyTable() && peerManager.Known() == [] && exportQueue.Contents() == []
    {
      hashTable := new HashTable();
      peerManager := new PeerManager(peerPort);
      exportQueue := new EQ.ExportQueue();
    }

    /** MSG_STORE_REQUEST; the notice to the peer in slot i is answered by `send(i)`. */
    method OnStoreRequest(clientId: nat, key: Bytes, value: Bytes, send: nat -> int)
      returns (reply: Reply, told: seq<int>)
      requires Valid()
      requires forall i: nat :: send(i) > 0 || send(i) == -1 || send(i) == -2 || send(i) == -3
      modifies hashTable, hashTable.buckets, hashTable.nodes, peerManager, peerManager.peers
      ensures Valid() && fresh(hashTable.nodes - old(hashTable.nodes))
      ensures reply == StoreReply(if key == [] then ERR_NETWORK_ERROR else ERR_NONE, clientId, key)
      ensures hashTable.table == if key == [] then old(hashTable.table) else Set(old(hashTable.table), key, value)
      ensures told == if key == [] then [] else Connected(old(peerManager.Known()), |old(peerManager.Known())|)
      ensures peerManager.Known() ==
                if key == [] then old(peerManager.Known()) else Survivors(old(peerManager.Known()), send)
    {
      var _ := hashTable.HasHashTable(key);
      var stored := hashTable.SetHashTable(key, value);
      if stored == 1 {
        var broadcastCount;
        broadcastCount, told := peerManager.BroadcastData(send);
        reply := StoreReply(ERR_NONE, clientId, key);
      } else {
        reply, told := StoreReply(ERR_NETWORK_ERROR, clientId, key), [];
      }
    }

    /** MSG_RETRIEVE_REQUEST. */
    method OnRetrieveRequest(clientId: nat, key: Bytes) returns (reply: Reply)
      requires Valid()
      ensures reply == match Lookup(hashTable.table, key)
        case None => RetrieveReply(ERR_KEY_NOT_FOUND, clientId, key, [])
        case Some(value) => RetrieveReply(ERR_NONE, clientId, key, value)
    {
      NoEmptyKey(hashTable.table);
      var found, valueToSend := hashTable.GetHashTable(key);
      if found == 1 {
        reply := RetrieveReply(ERR_NONE, clientId, key, valueToSend);
      } else {
        reply := RetrieveReply(ERR_KEY_NOT_FOUND, clientId, key, []);
      }
    }

    /** A STORE_REQUEST from its payload to the response, both as bytes. */
    method HandleStoreRequest(c: Connection, buffer: array<Byte>, size: nat, send: nat -> int)
      returns (r: int, told: seq<int>)
      requires Valid() && size <= buffer.Length
      requires forall i: nat :: send(i) > 0 || send(i) == -1 || send(i) == -2 || send(i) == -3
      modifies c`outgoing, c`results, hashTable, hashTable.buckets, hashTable.nodes, peerManager, peerManager.peers
      ensures Valid() && fresh(hashTable.nodes - old(hashTable.nodes))
      ensures var asked := Parse(STORE_REQUEST, old(buffer[..size]));
        && (asked.None? ==> hashTable.table == old(hashTable.table) && c.outgoing == old(c.outgoing) && told == [])
        && forall clientId, key, value :: asked == Some([F32(clientId), Str(key), Str(value)]) ==>
             if key == [] then hashTable.table == old(hashTable.table) && c.outgoing == old(c.outgoing) && told == []
             else
               && Contents(hashTable.table) == old(Contents(hashTable.table))[key := value]
               && told == Connected(old(peerManager.Known()), |old(peerManager.Known())|)
               && exists m :: Sent(c, old(c.outgoing), old(c.results), m, r) && m.messageType == MSG_STORE_RESPONSE
                    && Parse(STORE_RESPONSE, m.payload) == Some([F8(ERR_NONE), F32(clientId), Str(key)])
    {
      hide Parse, Encode, Sent, Contents, Set, Lookup, Connected, Survivors, HashSpec.Valid;
      var parsed, clientId, key, value := ReceiveStoreRequest(buffer, size);
      if parsed != 0 {
        return -1, [];
      }
      RequestsFit(buffer[..size], clientId, key, value);
      var reply;
      reply, told := OnStoreRequest(clientId, key, value, send);
      r := SendStoreResponse(c, reply.result, clientId, key);
      if key != [] {
        SetIsUpdate(old(hashTable.table), key, value);
        ResponsesRoundTrip(ERR_NONE, clientId, key, []);
      }
    }

    /** A RETRIEVE_REQUEST likewise: the load balancer decodes the value that the table has. */
    method HandleRetrieveRequest(c: Connection, buffer: array<Byte>, size: nat) returns (r: int)
      requires Valid() && size <= buffer.Length
      requires forall key <- Contents(hashTable.table) :: IsCString(Contents(hashTable.table)[key])
      modifies c`outgoing, c`results
      ensures var asked, found := Parse(RETRIEVE_REQUEST, buffer[..size]), Contents(hashTable.table);
        && (asked.None? ==> c.outgoing == old(c.outgoing))
        && forall clientId, key :: asked == Some([F32(clientId), Str(key)]) ==>
             if key == [] || (key in found && |found[key]| > MAX_VALUE_SIZE) then c.outgoing == old(c.outgoing)
             else exists m :: Sent(c, old(c.outgoing), old(c.results), m, r) && m.messageType == MSG_RETRIEVE_RESPONSE
                    && Parse(RETRIEVE_RESPONSE, m.payload) == Some(
                         if key in found then [F8(ERR_NONE), F32(clientId), Str(key), Str(found[key])]
                         else [F8(ERR_KEY_NOT_FOUND), F32(clientId), Str(key), Str([])])
    {
      hide Parse, Encode, Sent, Contents, Lookup, HashSpec.Valid;
      var parsed, clientId, key := ReceiveRetrieveRequest(buffer, size);
      if parsed != 0 {
        return -1;
      }
      RequestsFit(buffer[..size], clientId, key, []);
      LookupIsContents(hashTable.table, key);
      var reply := OnRetrieveRequest(clientId, key);
      r := SendRetrieveResponse(c, reply.result, clientId, key, reply.value);
      if ValidateKey(key) && ValidateValue(reply.value) {
        ResponsesRoundTrip(reply.result, clientId, key, reply.value);
      }
    }

    /**
     * MSG_WORKER_ENTRY; `socket` is what connecting to the peer gives.  The
     * message has the id as an unsigned number, the table of peers as an int.
     */
    method OnWorkerEntry(id: Uint32, address: Bytes, port: nat, shouldExport: bool, socket: SocketHandle)
      requires Valid() && |address| <= MAX_ADDRESS_SIZE
      modifies peerManager, peerManager.peers, exportQueue, exportQueue.requests
      ensures Valid()
      ensures peerManager.Known() ==
                Register(old(peerManager.Known()), peerManager.peerPort, AsInt(id), address, port, socket)
      ensures exportQueue.Contents() ==
                if shouldExport && |old(exportQueue.Contents())| < MAX_WORKERS
                then old(exportQueue.Contents()) + [EQ.ExportRequest(id, address, port)]
                else old(exportQueue.Contents())
    {
      var _ := peerManager.AddPeer(AsInt(id), address, port, socket);
      if shouldExport {
        var _ := exportQueue.AddExportRequest(id, address, port);
      }
    }

    /** MSG_DATA_ENTRY and MSG_PEER_NOTIFY: a pair from another worker is kept if its key is new. */
    method OnPeerPair(key: Bytes, value: Bytes)
      requires Valid()
      modifies hashTable, hashTable.buckets, hashTable.nodes
      ensures Valid() && fresh(hashTable.nodes - old(hashTable.nodes))
      ensures key == [] || Lookup(old(hashTable.table), key).Some? ==> hashTable.table == old(hashTable.table)
      ensures key != [] && Lookup(old(hashTable.table), key).None? ==>
                hashTable.table == Set(old(hashTable.table), key, value)
    {
      var found := hashTable.HasHashTable(key);
      if found == 0 {
        var _ := hashTable.SetHashTable(key, value);
      }
    }

    /** A pass of the export thread's loop after its wait; the k-th message sent is answered by `send(k)`. */
    method ExportNext(send: nat -> int) returns (request: Option<EQ.ExportRequest>, sent: seq<ExportMessage>)
      requires Valid()
      modifies exportQueue, exportQueue.requests
      ensures Valid() && hashTable.table == old(hashTable.table)
      ensures request.None? ==> old(exportQueue.Contents()) == [] == exportQueue.Contents() && sent == []
      ensures request.Some? ==> old(exportQueue.Contents()) == [request.value] + exportQueue.Contents()
      ensures sent <= ExportScript(hashTable.table) && forall k :: 0 <= k < |sent| ==> send(k) > 0
      ensures request.Some? ==>
        var connection := ConnectionTo(peerManager.Known(), AsInt(request.value.targetWorkerId));
        if Contents(hashTable.table) == map[] || connection == Invalid then sent == []
        else sent == ExportScript(hashTable.table) || send(|sent|) <= 0
    {
      sent := [];
      request := exportQueue.TakeFirst();
      if request.Some? {
        var totalEntries := hashTable.GetHashTableCount();
        if totalEntries > 0 {
          var peerSocket := peerManager.GetPeerConnection(AsInt(request.value.targetWorkerId));
          var result, exportedCount;
          result, exportedCount, sent := hashTable.ExportHashTableToPeer(peerSocket != Invalid, send);
        }
      }
    }
  }
}
