/** Worker/PeerManager.c: a fixed array whose first `peerCount` slots are in use. */
module PeerManager {
  import opened Config
  import opened PeerSpec

  const EMPTY_SLOT := Peer(NO_PEER, [], 0, Invalid, false)

  class PeerManager {
    const peers: array<Peer>
    var peerCount: nat
    const peerPort: int

    ghost predicate Valid()
      reads this, peers
    {
      && peers.Length == MAX_WORKERS && peerCount <= MAX_WORKERS
      && ValidPeers(peers[..peerCount])
      && forall i :: peerCount <= i < MAX_WORKERS ==> peers[i].workerId == NO_PEER && !peers[i].isConnected
    }

    ghost function Known(): seq<Peer>
      reads this, peers
      requires Valid()
    {
      peers[..peerCount]
    }

    constructor (peerPort: int)
      ensures Valid() && fresh(peers) && Known() == [] && this.peerPort == peerPort
    {
      this.peerPort := peerPort;
      peers := new Peer[MAX_WORKERS](_ => EMPTY_SLOT);
      peerCount := 0;
    }

    /** The search that AddPeer begins with; it brings an entry up to date. */
    method Refresh(id: int, address: Bytes, port: int) returns (isKnown: bool)
      requires Valid() && port != peerPort
      requires ValidPeers(Register(Known(), peerPort, id, address, port, Invalid))
      modifies peers
      ensures Valid() && (isKnown <==> FindPeer(old(Known()), id) < |old(Known())|)
      ensures Known() == if isKnown then Register(old(Known()), peerPort, id, address, port, Invalid) else old(Known())
    {
      hide FindPeer;
      ghost var known := Known();
      for i := 0 to peerCount
        invariant Known() == known
        invariant forall j :: 0 <= j < i ==> peers[j].workerId != id
      {
        if peers[i].workerId == id {
          assert i == FindPeer(known, id);
          peers[i] := peers[i].(address := Truncate(address), port := port);
          assert Known() == known[i := known[i].(address := Truncate(address), port := port)];
          assert Known() == Register(known, peerPort, id, address, port, Invalid);
          return true;
        }
      }
      isKnown := false;
    }

    /** `socket` is what connecting to the new peer gives, Invalid when it fails. */
    method AddPeer(id: int, address: Bytes, port: int, socket: SocketHandle) returns (r: int)
      requires Valid()
      modifies this, peers
      ensures Valid() && Known() == Register(old(Known()), peerPort, id, address, port, socket)
      ensures r == if port == peerPort || FindPeer(old(Known()), id) < |old(Known())| then 0
                   else if |old(Known())| >= MAX_WORKERS then -1 else 1
    {
      ghost var known := Known();
      RegisterKeepsValid(known, peerPort, id, address, port, socket);
      if port == peerPort {
        return 0;
      }
      RegisterKeepsValid(known, peerPort, id, address, port, Invalid);
      var isKnown := Refresh(id, address, port);
      if isKnown {
        return 0;
      }
      if peerCount >= MAX_WORKERS {
        return -1;
      }
      peers[peerCount] := Peer(id, Truncate(address), port, socket, socket != Invalid);
      peerCount := peerCount + 1;
      assert Known() == known + [Peer(id, Truncate(address), port, socket, socket != Invalid)];
      r := 1;
    }

    method RemoveDisconnectedPeer(id: int) returns (r: int)
      requires Valid()
      modifies this, peers
      ensures Valid() && Known() == Unregister(old(Known()), id)
      ensures r == if FindPeer(old(Known()), id) < |old(Known())| then 0 else -1
    {
      ghost var known := Known();
      UnregisterKeepsValid(known, id);
      for i := 0 to peerCount
        invariant forall j :: 0 <= j < i ==> known[j].workerId != id
      {
        if peers[i].workerId == id {
          assert i == FindPeer(known, id);
          CloseGap(i);
          return 0;
        }
      }
      r := -1;
    }

    /** The shifting loop: the slots from `i` on take over their successors, up to slot `last`. */
    method ShiftDown(i: nat, last: nat)
      requires i <= last < peers.Length
      modifies peers
      ensures forall k :: 0 <= k < peers.Length ==>
                peers[k] == if i <= k < last then old(peers[k + 1]) else old(peers[k])
    {
      for j := i to last
        invariant forall k :: 0 <= k < peers.Length ==>
                    peers[k] == if i <= k < j then old(peers[k + 1]) else old(peers[k])
      {
        peers[j] := peers[j + 1];
      }
    }

    /** Moves the entries after slot `i` down and clears the last slot in use. */
    method CloseGap(i: nat)
      requires Valid() && i < peerCount
      requires ValidPeers(Delete(Known(), i))
      modifies this, peers
      ensures Valid() && Known() == Delete(old(Known()), i)
    {
      ghost var rest := Delete(Known(), i);
      var last := peerCount - 1;
      ShiftDown(i, last);
      assert peers[..last] == rest;
      peers[last] := peers[last].(workerId := NO_PEER, socket := Invalid, isConnected := false);
      peerCount := last;
      assert Known() == rest;
    }

    method GetPeerConnection(id: int) returns (socket: SocketHandle)
      requires Valid()
      ensures socket == ConnectionTo(Known(), id)
    {
      for i := 0 to peerCount
        invariant forall j :: 0 <= j < i ==> Known()[j].workerId != id
      {
        if peers[i].workerId == id {
          assert i == FindPeer(Known(), id);
          if peers[i].isConnected && peers[i].socket != Invalid {
            return peers[i].socket;
          } else {
            return Invalid;
          }
        }
      }
      socket := Invalid;
    }

    /** The notice to the peer in slot i is answered by `send(i)`; `told` lists the ids it was sent to. */
    method BroadcastData(send: nat -> int) returns (successCount: nat, told: seq<int>)
      requires Valid()
      requires forall i: nat :: send(i) > 0 || send(i) == -1 || send(i) == -2 || send(i) == -3
      modifies this, peers
      ensures Valid() && Known() == Survivors(old(Known()), send)
      ensures told == Connected(old(Known()), |old(Known())|)
      ensures successCount + (|old(Known())| - |Known()|) == |told|
    {
      hide Without, Failed, Connected, Unregister, FindPeer;
      ghost var known := Known();
      var peersToRemove: seq<int>;
      successCount, told, peersToRemove := NotifyConnected(send);
      FailedAreDistinct(known, send, |known|);
      WithoutNone(known);
      for j := 0 to |peersToRemove|
        invariant Valid() && Known() == Without(known, peersToRemove[..j])
        invariant |known| - |Known()| == j
      {
        var id := peersToRemove[j];
        assert peersToRemove[..j + 1] == peersToRemove[..j] + [id];
        WithoutOneMore(known, peersToRemove[..j], id, peersToRemove[..j + 1]);
        FailedIsKnown(known, send, |known|, id);
        StillListed(known, peersToRemove[..j], id);
        var _ := RemoveDisconnectedPeer(id);
      }
      assert peersToRemove[..|peersToRemove|] == peersToRemove;
    }

    /** The loop over all slots, under the lock. */
    method NotifyConnected(send: nat -> int) returns (successCount: nat, told: seq<int>, failed: seq<int>)
      requires Valid()
      requires forall i: nat :: send(i) > 0 || send(i) == -1 || send(i) == -2 || send(i) == -3
      ensures told == Connected(Known(), |Known()|) && failed == Failed(Known(), send, |Known()|)
      ensures successCount + |failed| == |told|
    {
      successCount, told, failed := 0, [], [];
      ghost var known := Known();
      for i := 0 to MAX_WORKERS
        invariant var n := if i < |known| then i else |known|;
          told == Connected(known, n) && failed == Failed(known, send, n)
        invariant successCount + |failed| == |told|
      {
        if peers[i].workerId != NO_PEER && peers[i].isConnected {
          var result := send(i);
          told := told + [peers[i].workerId];
          if result > 0 {
            successCount := successCount + 1;
          } else if result == -2 || result == -3 || result == -1 {
            failed := failed + [peers[i].workerId];
          }
        }
      }
    }
  }
}
