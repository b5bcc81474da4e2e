/** What Worker/PeerManager.c does to the table of peers, on values. */
module PeerSpec {
  import opened Config

  datatype Peer = Peer(workerId: int, address: Bytes, port: int, socket: SocketHandle, isConnected: bool)

  /** Marks an unused slot. */
  const NO_PEER := -1

  /** Ids are unique, and a peer is connected when it has a socket. */
  ghost predicate ValidPeers(peers: seq<Peer>) {
    && |peers| <= MAX_WORKERS
    && (forall i :: 0 <= i < |peers| ==> (peers[i].isConnected <==> peers[i].socket != Invalid))
    && (forall i, j :: 0 <= i < j < |peers| ==> peers[i].workerId != peers[j].workerId)
  }

  /** Place of a worker's entry, or the number of peers. */
  function FindPeer(peers: seq<Peer>, id: int): (k: nat)
    ensures k <= |peers|
    ensures k < |peers| ==> peers[k].workerId == id
    ensures forall j :: 0 <= j < k ==> peers[j].workerId != id
  {
    if peers == [] || peers[0].workerId == id then 0
    else
      var k := FindPeer(peers[1..], id);
      assert forall j :: 0 < j < k + 1 ==> peers[j] == peers[1..][j - 1];
      k + 1
  }

  /** AddPeer; `socket` is what connecting to the peer gives, Invalid if it fails. */
  function Register(
    peers: seq<Peer>, ownPort: int, id: int, address: Bytes, port: int, socket: SocketHandle): seq<Peer>
  {
    var k := FindPeer(peers, id);
    if port == ownPort then peers
    else if k < |peers| then peers[k := peers[k].(address := Truncate(address), port := port)]
    else if |peers| >= MAX_WORKERS then peers
    else peers + [Peer(id, Truncate(address), port, socket, socket != Invalid)]
  }

  /** RemoveDisconnectedPeer: the entries after the one removed move down a slot. */
  function Unregister(peers: seq<Peer>, id: int): seq<Peer> {
    var k := FindPeer(peers, id);
    if k == |peers| then peers else Delete(peers, k)
  }

  /** The socket an export to this worker uses. */
  function ConnectionTo(peers: seq<Peer>, id: int): SocketHandle {
    var k := FindPeer(peers, id);
    if k < |peers| && peers[k].isConnected then peers[k].socket else Invalid
  }

  /** A broadcast takes a slot that holds the reserved id for an unused one. */
  predicate IsReached(p: Peer) {
    p.workerId != NO_PEER && p.isConnected
  }

  /** The ids of the connected peers among the first `n`, in slot order. */
  function Connected(peers: seq<Peer>, n: nat): seq<int>
    requires n <= |peers|
  {
    if n == 0 then []
    else Connected(peers, n - 1) + (if IsReached(peers[n - 1]) then [peers[n - 1].workerId] else [])
  }

  /** The connected peers among the first `n` to which sending fails; `send(i)` is the result for slot i. */
  function Failed(peers: seq<Peer>, send: nat -> int, n: nat): seq<int>
    requires n <= |peers|
  {
    if n == 0 then []
    else Failed(peers, send, n - 1)
         + (if IsReached(peers[n - 1]) && send(n - 1) <= 0 then [peers[n - 1].workerId] else [])
  }

  /** The peers whose id is not listed, in order. */
  function Without(peers: seq<Peer>, ids: seq<int>): (kept: seq<Peer>)
    ensures |kept| <= |peers|
  {
    if peers == [] then []
    else (if peers[0].workerId in ids then [] else [peers[0]]) + Without(peers[1..], ids)
  }

  /** The table after a broadcast. */
  function Survivors(peers: seq<Peer>, send: nat -> int): seq<Peer> {
    Without(peers, Failed(peers, send, |peers|))
  }

  // ===== Properties

  lemma RegisterKeepsValid(
    peers: seq<Peer>, ownPort: int, id: int, address: Bytes, port: int, socket: SocketHandle)
    requires ValidPeers(peers)
    ensures ValidPeers(Register(peers, ownPort, id, address, port, socket))
  {
  }

  ghost predicate IsKnown(peers: seq<Peer>, id: int) {
    exists p <- peers :: p.workerId == id
  }

  /**
   * A known worker takes over the new address and port and keeps its connection,
   * an unknown one is entered with the connection just made if there is room, the
   * own port and a full table leave all as it is, and no other entry is touched.
   */
  lemma RegisterExactly(
    peers: seq<Peer>, ownPort: int, id: int, address: Bytes, port: int, socket: SocketHandle)
    requires ValidPeers(peers)
    ensures var after := Register(peers, ownPort, id, address, port, socket);
      && (forall p: Peer :: p.workerId != id ==> (p in after <==> p in peers))
      && (port == ownPort || (!IsKnown(peers, id) && |peers| == MAX_WORKERS) ==> after == peers)
      && (port != ownPort && IsKnown(peers, id) ==>
            forall p <- peers :: p.workerId == id ==> p.(address := Truncate(address), port := port) in after)
      && (port != ownPort && !IsKnown(peers, id) && |peers| < MAX_WORKERS ==>
            Peer(id, Truncate(address), port, socket, socket != Invalid) in after)
  {
    var after, k := Register(peers, ownPort, id, address, port, socket), FindPeer(peers, id);
    if port != ownPort && k < |peers| {
      assert after[k] == peers[k].(address := Truncate(address), port := port);
      assert forall j :: 0 <= j < |peers| && j != k ==> after[j] == peers[j];
    } else if port != ownPort && |peers| < MAX_WORKERS {
      assert after[|peers|] == Peer(id, Truncate(address), port, socket, socket != Invalid);
      assert forall j :: 0 <= j < |peers| ==> after[j] == peers[j];
    }
  }

  lemma FindFirst(p: Peer, rest: seq<Peer>, id: int)
    ensures FindPeer([p] + rest, id) == if p.workerId == id then 0 else FindPeer(rest, id) + 1
  {
    assert ([p] + rest)[1..] == rest;
  }

  lemma UnregisterFirst(p: Peer, rest: seq<Peer>, id: int)
    ensures Unregister([p] + rest, id) == if p.workerId == id then rest else [p] + Unregister(rest, id)
  {
    hide FindPeer, Delete;
    FindFirst(p, rest, id);
    DeleteFirst(p, rest);
    if FindPeer(rest, id) < |rest| {
      DeleteLater(p, rest, FindPeer(rest, id));
    }
  }

  lemma UnregisterKeepsValid(peers: seq<Peer>, id: int)
    requires ValidPeers(peers)
    ensures ValidPeers(Unregister(peers, id))
  {
  }

  lemma {:induction false} WithoutKeepsOrder(peers: seq<Peer>, ids: seq<int>)
    requires ValidPeers(peers)
    ensures ValidPeers(Without(peers, ids))
    ensures forall p :: p in Without(peers, ids) <==> p in peers && p.workerId !in ids
  {
    if peers != [] {
      var head, rest := peers[0], peers[1..];
      assert peers == [head] + rest;
      WithoutKeepsOrder(rest, ids);
      assert forall i :: 0 <= i < |Without(rest, ids)| ==> Without(rest, ids)[i] in rest;
    }
  }

  lemma {:induction false} WithoutNone(peers: seq<Peer>)
    ensures Without(peers, []) == peers
  {
    if peers != [] {
      WithoutNone(peers[1..]);
    }
  }

  lemma AbsentStays(peers: seq<Peer>, id: int)
    requires forall p <- peers :: p.workerId != id
    ensures Unregister(peers, id) == peers
  {
  }

  /** Filtering out one more id is removing its entry. */
  lemma {:induction false} WithoutOneMore(peers: seq<Peer>, ids: seq<int>, id: int, more: seq<int>)
    requires ValidPeers(peers) && id !in ids && (forall x :: x in more <==> x in ids || x == id)
    ensures Without(peers, more) == Unregister(Without(peers, ids), id)
  {
    if peers != [] {
      var p, rest := peers[0], peers[1..];
      var kept := Without(rest, ids);
      WithoutOneMore(rest, ids, id, more);
      if p.workerId == id {
        WithoutKeepsOrder(rest, ids);
        AbsentStays(kept, id);
      }
      UnregisterFirst(p, kept, id);
      assert Without(peers, ids) == if p.workerId in ids then kept else [p] + kept;
      assert Without(peers, more) == if p.workerId in more then Without(rest, more) else [p] + Without(rest, more);
      hide Without, Unregister;
    }
  }

  lemma {:induction false} FailedIsKnown(peers: seq<Peer>, send: nat -> int, n: nat, id: int)
    requires n <= |peers| && id in Failed(peers, send, n)
    ensures exists i :: 0 <= i < n && peers[i].workerId == id && IsReached(peers[i]) && send(i) <= 0
  {
    if id in Failed(peers, send, n - 1) {
      FailedIsKnown(peers, send, n - 1, id);
    }
  }

  lemma {:induction false} FailedAreDistinct(peers: seq<Peer>, send: nat -> int, n: nat)
    requires n <= |peers| && ValidPeers(peers)
    ensures Distinct(Failed(peers, send, n))
  {
    if n > 0 {
      FailedAreDistinct(peers, send, n - 1);
      var before := Failed(peers, send, n - 1);
      if peers[n - 1].workerId in before {
        FailedIsKnown(peers, send, n - 1, peers[n - 1].workerId);
      }
    }
  }

  lemma StillListed(peers: seq<Peer>, removed: seq<int>, id: int)
    requires ValidPeers(peers) && id !in removed
    requires exists i :: 0 <= i < |peers| && peers[i].workerId == id
    ensures FindPeer(Without(peers, removed), id) < |Without(peers, removed)|
    ensures |Unregister(Without(peers, removed), id)| == |Without(peers, removed)| - 1
  {
    WithoutKeepsOrder(peers, removed);
    var i :| 0 <= i < |peers| && peers[i].workerId == id;
    assert peers[i] in Without(peers, removed);
  }

  /** Exactly the connected peers whose notice failed are gone after a broadcast. */
  lemma SurvivorsExactly(peers: seq<Peer>, send: nat -> int, i: nat)
    requires ValidPeers(peers) && i < |peers|
    ensures peers[i] in Survivors(peers, send) <==> !(IsReached(peers[i]) && send(i) <= 0)
  {
    WithoutKeepsOrder(peers, Failed(peers, send, |peers|));
    if peers[i].workerId in Failed(peers, send, |peers|) {
      FailedIsKnown(peers, send, |peers|, peers[i].workerId);
    } else if IsReached(peers[i]) && send(i) <= 0 {
      FailedListsAll(peers, send, |peers|, i);
      assert false;
    }
  }

  lemma {:induction false} FailedListsAll(peers: seq<Peer>, send: nat -> int, n: nat, i: nat)
    requires i < n <= |peers| && IsReached(peers[i]) && send(i) <= 0
    ensures peers[i].workerId in Failed(peers, send, n)
  {
    if i < n - 1 {
      FailedListsAll(peers, send, n - 1, i);
    }
  }

  // ===== Who is told of a store

  lemma {:induction false} ToldAreReached(peers: seq<Peer>, n: nat, id: int)
    requires n <= |peers|
    ensures id in Connected(peers, n) <==> exists i :: 0 <= i < n && peers[i].workerId == id && IsReached(peers[i])
  {
    if n > 0 {
      ToldAreReached(peers, n - 1, id);
    }
  }

  /** A peer is told if and only if it is connected and its id is not the reserved one. */
  lemma ToldIffReached(peers: seq<Peer>, k: nat)
    requires ValidPeers(peers) && k < |peers|
    ensures peers[k].workerId in Connected(peers, |peers|) <==> IsReached(peers[k])
  {
    ToldAreReached(peers, |peers|, peers[k].workerId);
  }

  lemma {:induction false} ConnectedFirst(peers: seq<Peer>, more: seq<Peer>, n: nat)
    requires n <= |peers|
    ensures Connected(peers + more, n) == Connected(peers, n)
  {
    if n > 0 {
      ConnectedFirst(peers, more, n - 1);
    }
  }

  lemma NewEntryIsFound(peers: seq<Peer>, p: Peer)
    requires FindPeer(peers, p.workerId) == |peers|
    ensures FindPeer(peers + [p], p.workerId) == |peers|
  {
    var after := peers + [p];
    assert after[|peers|] == p && forall j :: 0 <= j < |peers| ==> after[j] == peers[j];
  }

  /** A worker that is entered and connected is told from then on, unless its id is the unsigned form of -1. */
  lemma NewPeerIsToldUnlessReserved(
    peers: seq<Peer>, ownPort: int, id: Uint32, address: Bytes, port: int, n: nat)
    requires FindPeer(peers, AsInt(id)) == |peers| < MAX_WORKERS && port != ownPort
    ensures var after := Register(peers, ownPort, AsInt(id), address, port, Handle(n));
      && ConnectionTo(after, AsInt(id)) == Handle(n)
      && Connected(after, |after|) ==
           Connected(peers, |peers|) + if id == 0xFFFF_FFFF then [] else [AsInt(id)]
  {
    var p := Peer(AsInt(id), Truncate(address), port, Handle(n), true);
    var after := peers + [p];
    ConnectedFirst(peers, [p], |peers|);
    NewEntryIsFound(peers, p);
  }

  /** The smallest case: the only peer of a worker is connected, and stores are told to nobody. */
  lemma ReservedIdIsNeverTold(ownPort: int, address: Bytes, port: int, n: nat)
    requires port != ownPort
    ensures var peers := Register([], ownPort, AsInt(0xFFFF_FFFF), address, port, Handle(n));
      |peers| == 1 && ConnectionTo(peers, AsInt(0xFFFF_FFFF)) == Handle(n) && Connected(peers, 1) == []
  {
    NewPeerIsToldUnlessReserved([], ownPort, 0xFFFF_FFFF, address, port, n);
  }

  // ===== Connections

  lemma FirstConnection(p: Peer, rest: seq<Peer>, id: int)
    ensures ConnectionTo([p] + rest, id) ==
              if p.workerId != id then ConnectionTo(rest, id) else if p.isConnected then p.socket else Invalid
  {
    assert ([p] + rest)[1..] == rest;
  }

  /** A broadcast leaves the connections alone on which it did not fail. */
  lemma {:induction false} WithoutKeepsConnection(peers: seq<Peer>, ids: seq<int>, id: int)
    requires id !in ids
    ensures ConnectionTo(Without(peers, ids), id) == ConnectionTo(peers, id)
  {
    if peers != [] {
      var p, rest := peers[0], peers[1..];
      WithoutKeepsConnection(rest, ids, id);
      assert peers == [p] + rest;
      FirstConnection(p, rest, id);
      if p.workerId in ids {
        assert Without(peers, ids) == Without(rest, ids);
      } else {
        FirstConnection(p, Without(rest, ids), id);
        assert Without(peers, ids) == [p] + Without(rest, ids);
      }
    }
  }

  /** A new entry never disconnects anyone. */
  lemma RegisterKeepsConnection(
    peers: seq<Peer>, ownPort: int, newId: int, address: Bytes, port: int, socket: SocketHandle, id: int)
    ensures ConnectionTo(peers, id) != Invalid ==>
              ConnectionTo(Register(peers, ownPort, newId, address, port, socket), id) == ConnectionTo(peers, id)
  {
    var after := Register(peers, ownPort, newId, address, port, socket);
    var k := FindPeer(peers, id);
    if k < |peers| {
      assert after[k].workerId == id && forall j :: 0 <= j < k ==> after[j].workerId == peers[j].workerId;
    }
  }
}
