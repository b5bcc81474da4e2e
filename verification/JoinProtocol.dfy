/**
 * How workers come to know each other.  For each worker that reports ready, one
 * thread of the load balancer (LoadBalancer/WorkerDataReceiverThread.c) calls
 * AddWorker, SetWorkerReady, BroadcastNewWorkerJoined and
 * SendWorkerRegistryToSingleWorker in turn.  Each call holds the list's lock;
 * between the calls the threads interleave.  Additions and sends succeed.
 */
module JoinProtocol {
  import opened Config
  import opened RingSpec
  import Circle
  import PeerSpec
  import RingSchedule

  datatype Joiner = Joiner(socket: SocketHandle, address: Bytes, port: int)

  /** The call that the thread of a worker makes next. */
  datatype Phase = Adding | Marking | Announcing | Updating | Done

  /** `logs` records, in order, the entries sent on each socket. */
  datatype State = State(ring: Ring<int>, phases: map<int, Phase>, logs: map<SocketHandle, seq<Entry>>)

  function WorkerOf(id: int, j: Joiner): Worker {
    Worker(id, j.socket, Truncate(j.address), j.port, true, false)
  }

  function Log(logs: map<SocketHandle, seq<Entry>>, socket: SocketHandle): seq<Entry> {
    if socket in logs then logs[socket] else []
  }

  function Send(logs: map<SocketHandle, seq<Entry>>, sent: seq<(SocketHandle, Entry)>): map<SocketHandle, seq<Entry>> {
    if sent == [] then logs
    else
      var before, last := Send(logs, sent[..|sent| - 1]), sent[|sent| - 1];
      before[last.0 := Log(before, last.0) + [last.1]]
  }

  /** What BroadcastNewWorkerJoined sends. */
  function Broadcast(ws: seq<Worker>, newId: int): seq<(SocketHandle, Entry)> {
    var k := Newcomer(ws, newId);
    if |ws| <= 1 || k == |ws| then [] else Announcements(ws, ws[k], Source(ws, newId), |ws|)
  }

  function AllTo(socket: SocketHandle, entries: seq<Entry>): (sent: seq<(SocketHandle, Entry)>)
    ensures |sent| == |entries|
    ensures forall i :: 0 <= i < |sent| ==> sent[i] == (socket, entries[i])
  {
    seq(|entries|, i requires 0 <= i < |entries| => (socket, entries[i]))
  }

  /** What SendWorkerRegistryToSingleWorker sends. */
  function Update(ws: seq<Worker>, target: int): seq<(SocketHandle, Entry)> {
    var t := LastMatch(ws, target);
    if t == |ws| || !ws[t].connected || ws[t].socket.Invalid? then [] else AllTo(ws[t].socket, Registry(ws))
  }

  /** The next call of the thread of worker `id`. */
  function Next(joiners: map<int, Joiner>, s: State, id: int): Option<State> {
    if id !in s.phases || id !in joiners then None
    else
      var ws := s.ring.workers;
      match s.phases[id]
      case Adding =>
        Some(s.(ring := Add(s.ring, id, WorkerOf(id, joiners[id])), phases := s.phases[id := Marking]))
      case Marking =>
        var k := FirstMatch(ws, id);
        var turned := k < |ws| && !ws[k].ready;
        Some(s.(ring := SetReady(s.ring, id), phases := s.phases[id := if turned then Announcing else Done]))
      case Announcing =>
        Some(s.(logs := Send(s.logs, Broadcast(ws, id)), phases := s.phases[id := Updating]))
      case Updating =>
        Some(s.(logs := Send(s.logs, Update(ws, id)), phases := s.phases[id := Done]))
      case Done => None
  }

  function Initial(joiners: map<int, Joiner>): State {
    State(Ring([], [], 0), map id | id in joiners :: Adding, map[])
  }

  /** The threads take steps in the order of the schedule. */
  function Run(joiners: map<int, Joiner>, s: State, schedule: seq<int>): Option<State>
    decreases |schedule|
  {
    if schedule == [] then Some(s)
    else
      match Next(joiners, s, schedule[0])
      case None => None
      case Some(s') => Run(joiners, s', schedule[1..])
  }

  /** Distinct sockets and ports, and no more workers than the list can hold. */
  ghost predicate ValidJoiners(joiners: map<int, Joiner>) {
    && |joiners| <= MAX_WORKERS
    && (forall id <- joiners :: joiners[id].socket != Invalid)
    && (forall a <- joiners, b <- joiners :: a != b ==>
          joiners[a].socket != joiners[b].socket && joiners[a].port != joiners[b].port)
  }

  // ===== The invariant

  predicate IsEntryOf(e: Entry, id: int, j: Joiner) {
    e.id == id && e.address == Truncate(j.address) && e.port == j.port
  }

  /** The worker on this socket has been sent an entry for `id`. */
  ghost predicate Heard(s: State, socket: SocketHandle, id: int, j: Joiner) {
    exists e <- Log(s.logs, socket) :: IsEntryOf(e, id, j)
  }

  predicate IsListed(w: Worker, joiners: map<int, Joiner>) {
    w.id in joiners && w.(ready := false) == WorkerOf(w.id, joiners[w.id])
  }

  ghost predicate Listed(joiners: map<int, Joiner>, s: State) {
    var ws := s.ring.workers;
    && s.ring.Valid() && s.phases.Keys == joiners.Keys
    && (forall k :: 0 <= k < |ws| ==> IsListed(ws[k], joiners) && s.ring.nodes[k] == ws[k].id)
    && (forall id <- joiners :: FirstMatch(ws, id) < |ws| <==> s.phases[id] != Adding)
    && (forall id <- joiners :: s.phases[id] != Adding ==> (ws[FirstMatch(ws, id)].ready <==> s.phases[id] != Marking))
  }

  ghost predicate LogsSound(joiners: map<int, Joiner>, s: State) {
    forall socket <- s.logs, e <- s.logs[socket] :: e.id in joiners && IsEntryOf(e, e.id, joiners[e.id])
  }

  /** Once b was announced and a was sent the registry, a has heard of b. */
  ghost predicate PairHeard(joiners: map<int, Joiner>, s: State, a: int, b: int)
    requires a in joiners && b in joiners && a in s.phases && b in s.phases
  {
    s.phases[a] == Done && (s.phases[b] == Updating || s.phases[b] == Done) ==>
      Heard(s, joiners[a].socket, b, joiners[b])
  }

  // ===== Steps keep it

  lemma {:induction false} SendReaches(
    logs: map<SocketHandle, seq<Entry>>, sent: seq<(SocketHandle, Entry)>, socket: SocketHandle, e: Entry)
    ensures e in Log(Send(logs, sent), socket) <==> e in Log(logs, socket) || (socket, e) in sent
  {
    if sent != [] {
      var front, last := sent[..|sent| - 1], sent[|sent| - 1];
      SendReaches(logs, front, socket, e);
      assert sent == front + [last];
    }
  }

  /** A sequence of distinct members of a set is no longer than the set. */
  lemma {:induction false} DistinctFit(ids: seq<int>, s: set<int>)
    requires Distinct(ids) && forall id <- ids :: id in s
    ensures |ids| <= |s|
  {
    if ids != [] {
      var last := ids[|ids| - 1];
      DistinctFit(ids[..|ids| - 1], s - {last});
    }
  }

  lemma FirstMatchAppended(ws: seq<Worker>, w: Worker, id: int)
    ensures FirstMatch(ws + [w], id) ==
              if FirstMatch(ws, id) < |ws| || w.id == id then FirstMatch(ws, id) else |ws| + 1
  {
    assert (ws + [w])[|ws|] == w;
    assert FirstMatch(ws, id) < |ws| ==> (ws + [w])[FirstMatch(ws, id)].id == id;
  }

  lemma RoomForOneMore(joiners: map<int, Joiner>, s: State, id: int)
    requires ValidJoiners(joiners) && Listed(joiners, s) && id in joiners && s.phases[id] == Adding
    ensures id !in s.ring.nodes && |s.ring.nodes| < MAX_WORKERS
  {
    var nodes, ws := s.ring.nodes, s.ring.workers;
    forall k | 0 <= k < |nodes|
      ensures nodes[k] in joiners.Keys - {id}
    {
      assert IsListed(ws[k], joiners) && nodes[k] == ws[k].id;
      assert nodes[k] == id ==> FirstMatch(ws, id) <= k;
    }
    DistinctFit(nodes, joiners.Keys - {id});
  }

  lemma AddIsListed(joiners: map<int, Joiner>, s: State, id: int)
    requires ValidJoiners(joiners) && Listed(joiners, s) && id in joiners && s.phases[id] == Adding
    ensures Listed(joiners, Next(joiners, s, id).value)
  {
    var w := WorkerOf(id, joiners[id]);
    RoomForOneMore(joiners, s, id);
    forall other <- joiners {
      FirstMatchAppended(s.ring.workers, w, other);
    }
    assert Next(joiners, s, id).value.ring.workers == s.ring.workers + [w];
    assert FirstMatch(s.ring.workers, id) == |s.ring.workers|;
  }

  lemma FirstMatchById(ws: seq<Worker>, ws': seq<Worker>, id: int)
    requires |ws| == |ws'| && forall j :: 0 <= j < |ws| ==> ws'[j].id == ws[j].id
    ensures FirstMatch(ws', id) == FirstMatch(ws, id)
  {
  }

  lemma MarkIsListed(joiners: map<int, Joiner>, s: State, id: int)
    requires Listed(joiners, s) && id in joiners && s.phases[id] == Marking
    ensures Listed(joiners, Next(joiners, s, id).value)
    ensures Next(joiners, s, id).value.phases[id] == Announcing
  {
    var ws, s' := s.ring.workers, Next(joiners, s, id).value;
    var k := FirstMatch(ws, id);
    assert s'.ring.workers == ws[k := ws[k].(ready := true)];
    forall other <- joiners {
      FirstMatchById(ws, s'.ring.workers, other);
    }
    assert IsListed(ws[k], joiners);
  }

  lemma StepIsListed(joiners: map<int, Joiner>, s: State, id: int)
    requires ValidJoiners(joiners) && Listed(joiners, s) && Next(joiners, s, id).Some?
    ensures Listed(joiners, Next(joiners, s, id).value)
  {
    match s.phases[id]
    case Adding => AddIsListed(joiners, s, id);
    case Marking => MarkIsListed(joiners, s, id);
    case _ =>
  }

  /** The place of a listed worker. */
  lemma ListedAt(joiners: map<int, Joiner>, s: State, id: int)
    requires Listed(joiners, s) && id in joiners && s.phases[id] != Adding
    ensures var ws, k := s.ring.workers, FirstMatch(s.ring.workers, id);
      k < |ws| && ws[k].socket == joiners[id].socket && ws[k].connected
    ensures forall flag :: IsEntryOf(EntryOf(s.ring.workers[FirstMatch(s.ring.workers, id)], flag), id, joiners[id])
    ensures forall k :: 0 <= k < |s.ring.workers| && s.ring.workers[k].id == id ==> k == FirstMatch(s.ring.workers, id)
  {
    var ws, k := s.ring.workers, FirstMatch(s.ring.workers, id);
    assert IsListed(ws[k], joiners);
    assert s.ring.nodes[k] == id;
  }

  /** An announcement goes to every other worker in the list. */
  lemma BroadcastReaches(joiners: map<int, Joiner>, s: State, id: int, a: int)
    requires ValidJoiners(joiners) && Listed(joiners, s) && id in joiners && a in joiners && a != id
    requires s.phases[id] != Adding && s.phases[a] != Adding
    ensures exists e :: (joiners[a].socket, e) in Broadcast(s.ring.workers, id) && IsEntryOf(e, id, joiners[id])
  {
    var ws := s.ring.workers;
    var p, k, source := FirstMatch(ws, a), Newcomer(ws, id), Source(ws, id);
    ListedAt(joiners, s, a);
    ListedAt(joiners, s, id);
    NewcomerIfAny(ws, id);
    AnnouncementsGoToNotified(ws, ws[k], source, |ws|);
    assert IsNotified(ws[p], id);
    var i :| 0 <= i < |Notified(ws, id, |ws|)| && Notified(ws, id, |ws|)[i] == p;
    var sent := Announcements(ws, ws[k], source, |ws|);
    assert sent[i] == (joiners[a].socket, EntryOf(ws[k], p == source));
  }

  /** A registry update has every worker in the list. */
  lemma UpdateReaches(joiners: map<int, Joiner>, s: State, id: int, b: int)
    requires ValidJoiners(joiners) && Listed(joiners, s) && id in joiners && b in joiners
    requires s.phases[id] != Adding && s.phases[b] != Adding
    ensures exists e :: (joiners[id].socket, e) in Update(s.ring.workers, id) && IsEntryOf(e, b, joiners[b])
  {
    var ws := s.ring.workers;
    ListedAt(joiners, s, id);
    ListedAt(joiners, s, b);
    var k := FirstMatch(ws, b);
    assert LastMatch(ws, id) == FirstMatch(ws, id);
    assert Update(ws, id)[k] == (joiners[id].socket, EntryOf(ws[k], false));
  }

  lemma BroadcastIsSound(joiners: map<int, Joiner>, s: State, id: int, sent: (SocketHandle, Entry))
    requires Listed(joiners, s) && sent in Broadcast(s.ring.workers, id)
    ensures sent.1.id in joiners && IsEntryOf(sent.1, sent.1.id, joiners[sent.1.id])
  {
    var ws := s.ring.workers;
    var k := Newcomer(ws, id);
    AnnouncementsGoToNotified(ws, ws[k], Source(ws, id), |ws|);
    assert IsListed(ws[k], joiners);
  }

  lemma UpdateIsSound(joiners: map<int, Joiner>, s: State, id: int, sent: (SocketHandle, Entry))
    requires Listed(joiners, s) && sent in Update(s.ring.workers, id)
    ensures sent.1.id in joiners && IsEntryOf(sent.1, sent.1.id, joiners[sent.1.id])
  {
    var ws := s.ring.workers;
    var k :| 0 <= k < |Update(ws, id)| && Update(ws, id)[k] == sent;
    assert IsListed(ws[k], joiners);
  }

  lemma SendIsSound(joiners: map<int, Joiner>, s: State, sent: seq<(SocketHandle, Entry)>)
    requires LogsSound(joiners, s)
    requires forall m: (SocketHandle, Entry) | m in sent :: m.1.id in joiners && IsEntryOf(m.1, m.1.id, joiners[m.1.id])
    ensures LogsSound(joiners, s.(logs := Send(s.logs, sent)))
  {
    var logs := Send(s.logs, sent);
    forall socket, e: Entry | socket in logs && e in logs[socket]
      ensures e.id in joiners && IsEntryOf(e, e.id, joiners[e.id])
    {
      SendReaches(s.logs, sent, socket, e);
    }
  }

  lemma StepKeepsLogsSound(joiners: map<int, Joiner>, s: State, id: int)
    requires Listed(joiners, s) && LogsSound(joiners, s) && Next(joiners, s, id).Some?
    ensures LogsSound(joiners, Next(joiners, s, id).value)
  {
    var ws := s.ring.workers;
    if s.phases[id] == Announcing {
      forall m <- Broadcast(ws, id) { BroadcastIsSound(joiners, s, id, m); }
      SendIsSound(joiners, s, Broadcast(ws, id));
    } else if s.phases[id] == Updating {
      forall m <- Update(ws, id) { UpdateIsSound(joiners, s, id, m); }
      SendIsSound(joiners, s, Update(ws, id));
    }
  }

  lemma SendKeepsHeard(s: State, sent: seq<(SocketHandle, Entry)>, socket: SocketHandle, id: int, j: Joiner)
    requires Heard(s, socket, id, j) || exists e :: (socket, e) in sent && IsEntryOf(e, id, j)
    ensures Heard(s.(logs := Send(s.logs, sent)), socket, id, j)
  {
    var e :| (e in Log(s.logs, socket) || (socket, e) in sent) && IsEntryOf(e, id, j);
    SendReaches(s.logs, sent, socket, e);
  }

  lemma HeardStays(joiners: map<int, Joiner>, s: State, id: int, socket: SocketHandle, b: int, j: Joiner)
    requires Next(joiners, s, id).Some? && Heard(s, socket, b, j)
    ensures Heard(Next(joiners, s, id).value, socket, b, j)
  {
    SendKeepsHeard(s, Broadcast(s.ring.workers, id), socket, b, j);
    SendKeepsHeard(s, Update(s.ring.workers, id), socket, b, j);
  }

  function PhaseAfter(p: Phase): Phase {
    match p
    case Adding => Marking
    case Marking => Announcing
    case Announcing => Updating
    case _ => Done
  }

  /** With distinct ids no thread ever finds its worker missing or ready already. */
  lemma EveryPhaseFollows(joiners: map<int, Joiner>, s: State, id: int)
    requires Listed(joiners, s) && Next(joiners, s, id).Some?
    ensures Next(joiners, s, id).value.phases == s.phases[id := PhaseAfter(s.phases[id])]
  {
    if s.phases[id] == Marking {
      MarkIsListed(joiners, s, id);
    }
  }

  /** What a step makes heard: an announcement everywhere in the list, an update everything in the list. */
  lemma StepIsHeard(joiners: map<int, Joiner>, s: State, id: int, a: int, b: int)
    requires ValidJoiners(joiners) && Listed(joiners, s) && Next(joiners, s, id).Some?
    requires a in joiners && b in joiners && a != b && s.phases[a] != Adding && s.phases[b] != Adding
    requires (id == b && s.phases[b] == Announcing) || (id == a && s.phases[a] == Updating)
    ensures Heard(Next(joiners, s, id).value, joiners[a].socket, b, joiners[b])
  {
    if id == b {
      BroadcastReaches(joiners, s, b, a);
      SendKeepsHeard(s, Broadcast(s.ring.workers, b), joiners[a].socket, b, joiners[b]);
    } else {
      UpdateReaches(joiners, s, a, b);
      SendKeepsHeard(s, Update(s.ring.workers, a), joiners[a].socket, b, joiners[b]);
    }
  }

  lemma StepKeepsPairHeard(joiners: map<int, Joiner>, s: State, id: int, a: int, b: int)
    requires ValidJoiners(joiners) && Listed(joiners, s) && Next(joiners, s, id).Some?
    requires a in joiners && b in joiners && a != b && PairHeard(joiners, s, a, b)
    ensures var s' := Next(joiners, s, id).value;
      && s'.phases == s.phases[id := PhaseAfter(s.phases[id])]
      && PairHeard(joiners, s', a, b)
  {
    EveryPhaseFollows(joiners, s, id);
    var socket := joiners[a].socket;
    if Heard(s, socket, b, joiners[b]) {
      HeardStays(joiners, s, id, socket, b, joiners[b]);
    } else if s.phases[a] != Adding && s.phases[b] != Adding
              && ((id == b && s.phases[b] == Announcing) || (id == a && s.phases[a] == Updating)) {
      StepIsHeard(joiners, s, id, a, b);
    } else {
      assert s.phases[id] != Done;
    }
  }

  lemma {:induction false} RunKeepsHeard(joiners: map<int, Joiner>, s: State, schedule: seq<int>, a: int, b: int)
    requires ValidJoiners(joiners) && Listed(joiners, s) && LogsSound(joiners, s)
    requires a in joiners && b in joiners && (a != b ==> PairHeard(joiners, s, a, b))
    requires Run(joiners, s, schedule).Some?
    ensures var s' := Run(joiners, s, schedule).value;
      Listed(joiners, s') && LogsSound(joiners, s') && (a != b ==> PairHeard(joiners, s', a, b))
    decreases |schedule|
  {
    if schedule != [] {
      var id := schedule[0];
      var s' := Next(joiners, s, id).value;
      StepIsListed(joiners, s, id);
      StepKeepsLogsSound(joiners, s, id);
      if a != b {
        StepKeepsPairHeard(joiners, s, id, a, b);
      }
      RunKeepsHeard(joiners, s', schedule[1..], a, b);
    }
  }

  // ===== What the workers make of it

  /** The peer table of a worker that has taken in these entries (Worker/ReceiverThread.c). */
  function PeersAfter(log: seq<Entry>, ownPort: int, connect: Entry -> SocketHandle): seq<PeerSpec.Peer> {
    if log == [] then []
    else
      var e := log[|log| - 1];
      PeerSpec.Register(
        PeersAfter(log[..|log| - 1], ownPort, connect), ownPort, e.id, e.address, e.port, connect(e))
  }

  function Ids(peers: seq<PeerSpec.Peer>): (ids: seq<int>)
    ensures |ids| == |peers|
    ensures forall i :: 0 <= i < |peers| ==> ids[i] == peers[i].workerId
  {
    seq(|peers|, i requires 0 <= i < |peers| => peers[i].workerId)
  }

  /** An address of up to 255 characters is kept as it is, a longer one is cut. */
  predicate IsKeptOf(kept: Bytes, address: Bytes) {
    if |address| <= MAX_ADDRESS_SIZE then kept == address else kept == address[..MAX_ADDRESS_SIZE]
  }

  /** Only other joiners, each with its own address and port. */
  ghost predicate PeersSound(joiners: map<int, Joiner>, a: int, peers: seq<PeerSpec.Peer>) {
    && PeerSpec.ValidPeers(peers)
    && forall i :: 0 <= i < |peers| ==>
         var p := peers[i];
         && p.workerId in joiners && p.workerId != a
         && IsKeptOf(p.address, joiners[p.workerId].address) && p.port == joiners[p.workerId].port
  }

  ghost predicate AllConnected(peers: seq<PeerSpec.Peer>) {
    forall i :: 0 <= i < |peers| ==> PeerSpec.ConnectionTo(peers, peers[i].workerId) != Invalid
  }

  lemma RegisterConnects(peers: seq<PeerSpec.Peer>, ownPort: int, e: Entry, socket: SocketHandle)
    requires PeerSpec.ValidPeers(peers) && AllConnected(peers) && socket != Invalid
    ensures AllConnected(PeerSpec.Register(peers, ownPort, e.id, e.address, e.port, socket))
  {
    var after := PeerSpec.Register(peers, ownPort, e.id, e.address, e.port, socket);
    forall i | 0 <= i < |peers| {
      PeerSpec.RegisterKeepsConnection(peers, ownPort, e.id, e.address, e.port, socket, peers[i].workerId);
    }
    if |after| > |peers| {
      PeerSpec.NewEntryIsFound(peers, after[|peers|]);
    }
    hide PeerSpec.FindPeer;
    assert forall i :: 0 <= i < |peers| ==> after[i].workerId == peers[i].workerId;
  }

  lemma RegisterJoiner(joiners: map<int, Joiner>, a: int, peers: seq<PeerSpec.Peer>, e: Entry, socket: SocketHandle)
    requires ValidJoiners(joiners) && a in joiners && PeersSound(joiners, a, peers)
    requires e.id in joiners && IsEntryOf(e, e.id, joiners[e.id])
    ensures var after := PeerSpec.Register(peers, joiners[a].port, e.id, e.address, e.port, socket);
      && PeersSound(joiners, a, after)
      && (AllConnected(peers) && socket != Invalid ==> AllConnected(after))
      && forall id :: id in Ids(after) <==> id in Ids(peers) || (id == e.id && id != a)
  {
    var after := PeerSpec.Register(peers, joiners[a].port, e.id, e.address, e.port, socket);
    PeerSpec.RegisterKeepsValid(peers, joiners[a].port, e.id, e.address, e.port, socket);
    DistinctFit(Ids(peers), joiners.Keys - {a});
    if AllConnected(peers) && socket != Invalid {
      RegisterConnects(peers, joiners[a].port, e, socket);
    }
    var k := PeerSpec.FindPeer(peers, e.id);
    if e.id == a {
      assert after == peers;
    } else if k < |peers| {
      assert Ids(after) == Ids(peers) && Ids(peers)[k] == e.id;
    } else {
      assert Ids(after) == Ids(peers) + [e.id];
    }
  }

  lemma {:induction false} DeliveredPeers(
    joiners: map<int, Joiner>, a: int, log: seq<Entry>, connect: Entry -> SocketHandle)
    requires ValidJoiners(joiners) && a in joiners
    requires forall e <- log :: e.id in joiners && IsEntryOf(e, e.id, joiners[e.id])
    ensures var peers := PeersAfter(log, joiners[a].port, connect);
      && PeersSound(joiners, a, peers)
      && ((forall e <- log :: connect(e) != Invalid) ==> AllConnected(peers))
      && forall id :: id in Ids(peers) <==> id != a && exists e <- log :: e.id == id
  {
    if log != [] {
      var front, last := log[..|log| - 1], log[|log| - 1];
      DeliveredPeers(joiners, a, front, connect);
      RegisterJoiner(joiners, a, PeersAfter(front, joiners[a].port, connect), last, connect(last));
      assert log == front + [last];
    }
  }

  /**
   * However the threads interleave, once all have finished and a worker has
   * taken in what it was sent, its peer table holds exactly the other workers,
   * with their addresses and ports.
   */
  lemma FullMesh(joiners: map<int, Joiner>, schedule: seq<int>, a: int, connect: Entry -> SocketHandle)
    requires ValidJoiners(joiners) && a in joiners && Run(joiners, Initial(joiners), schedule).Some?
    requires forall id <- joiners :: id in Run(joiners, Initial(joiners), schedule).value.phases
               && Run(joiners, Initial(joiners), schedule).value.phases[id] == Done
    ensures var s := Run(joiners, Initial(joiners), schedule).value;
      var peers := PeersAfter(Log(s.logs, joiners[a].socket), joiners[a].port, connect);
      && PeersSound(joiners, a, peers)
      && (forall id :: id in Ids(peers) <==> id in joiners && id != a)
      && ((forall e: Entry :: connect(e) != Invalid) ==> AllConnected(peers))
  {
    var s0 := Initial(joiners);
    var s := Run(joiners, s0, schedule).value;
    var log := Log(s.logs, joiners[a].socket);
    RunKeepsHeard(joiners, s0, schedule, a, a);
    DeliveredPeers(joiners, a, log, connect);
    forall b <- joiners | b != a
      ensures exists e <- log :: e.id == b
    {
      RunKeepsHeard(joiners, s0, schedule, a, b);
      assert Heard(s, joiners[a].socket, b, joiners[b]);
    }
  }

  // ===== What the dispatcher makes of it

  lemma {:induction false} RunIsListed(joiners: map<int, Joiner>, s: State, schedule: seq<int>)
    requires ValidJoiners(joiners) && Listed(joiners, s) && Run(joiners, s, schedule).Some?
    ensures Listed(joiners, Run(joiners, s, schedule).value)
    decreases |schedule|
  {
    if schedule != [] {
      StepIsListed(joiners, s, schedule[0]);
      RunIsListed(joiners, Next(joiners, s, schedule[0]).value, schedule[1..]);
    }
  }

  /** In every run, a joiner can be handed out by GetNextWorker as soon as its handler has marked it. */
  lemma MarkedIsEligible(joiners: map<int, Joiner>, schedule: seq<int>, id: int)
    requires ValidJoiners(joiners) && id in joiners && Run(joiners, Initial(joiners), schedule).Some?
    ensures var s := Run(joiners, Initial(joiners), schedule).value;
      && id in s.phases && |s.ring.nodes| == |s.ring.workers|
      && (s.phases[id] != Adding && s.phases[id] != Marking <==>
            exists k :: 0 <= k < |s.ring.workers| && s.ring.workers[k].id == id && s.ring.workers[k].Eligible())
  {
    RunIsListed(joiners, Initial(joiners), schedule);
    var s := Run(joiners, Initial(joiners), schedule).value;
    if s.phases[id] != Adding {
      ListedAt(joiners, s, id);
    }
    assert FirstMatch(s.ring.workers, id) == |s.ring.workers| ==>
        forall k :: 0 <= k < |s.ring.workers| ==> s.ring.workers[k].id != id;
  }

  lemma {:induction false} AllEligible(ws: seq<Worker>, from: nat, len: nat)
    requires from < |ws| && len <= |ws| && forall w <- ws :: w.Eligible()
    ensures RingSchedule.Ready(ws, from, len) == len
    decreases len
  {
    if len > 0 {
      AllEligible(ws, Circle.After(from, |ws|), len - 1);
    }
  }

  lemma {:induction false} DistinctFill(ids: seq<int>, s: set<int>)
    requires Distinct(ids) && forall id :: id in ids <==> id in s
    ensures |ids| == |s|
  {
    if ids != [] {
      var front, last := ids[..|ids| - 1], ids[|ids| - 1];
      assert ids == front + [last];
      DistinctFill(front, s - {last});
    } else {
      assert forall id <- s :: id in ids;
    }
  }

  function CallsLeft(p: Phase): nat {
    match p
    case Adding => 4
    case Marking => 3
    case Announcing => 2
    case Updating => 1
    case Done => 0
  }

  ghost predicate CanReach(joiners: map<int, Joiner>, s: State, phases: map<int, Phase>) {
    exists schedule :: Run(joiners, s, schedule).Some? && Run(joiners, s, schedule).value.phases == phases
  }

  lemma ReachesFirst(joiners: map<int, Joiner>, s: State, id: int, phases: map<int, Phase>)
    requires Next(joiners, s, id).Some? && CanReach(joiners, Next(joiners, s, id).value, phases)
    ensures CanReach(joiners, s, phases)
  {
    var s' := Next(joiners, s, id).value;
    var rest :| Run(joiners, s', rest).Some? && Run(joiners, s', rest).value.phases == phases;
    assert ([id] + rest)[1..] == rest;
    assert Run(joiners, s, [id] + rest) == Run(joiners, s', rest);
  }

  lemma NextUnlessDone(joiners: map<int, Joiner>, s: State, id: int)
    requires id in joiners && id in s.phases && s.phases[id] != Done
    ensures Next(joiners, s, id).Some?
  {
  }

  /** Those whose handlers have not finished can finish one after the other. */
  lemma {:induction false} PendingFinish(joiners: map<int, Joiner>, s: State, pending: set<int>, id: int)
    requires ValidJoiners(joiners) && Listed(joiners, s)
    requires forall j <- joiners :: s.phases[j] != Done ==> j in pending
    requires pending <= joiners.Keys && (pending != {} ==> id in pending)
    ensures CanReach(joiners, s, map j | j in joiners :: Done)
    decreases |pending|, if id in s.phases then CallsLeft(s.phases[id]) else 0
  {
    var done := map j | j in joiners :: Done;
    assert s.phases.Keys == joiners.Keys;
    hide Listed, ValidJoiners, Next;
    if pending == {} {
      assert forall j <- joiners :: s.phases[j] == Done;
      assert s.phases == done;
      assert Run(joiners, s, []) == Some(s);
    } else if s.phases[id] == Done {
      var rest := pending - {id};
      if rest != {} {
        var other := SomeElement(rest);
        PendingFinish(joiners, s, rest, other);
      } else {
        PendingFinish(joiners, s, rest, id);
      }
    } else {
      NextUnlessDone(joiners, s, id);
      StepIsListed(joiners, s, id);
      EveryPhaseFollows(joiners, s, id);
      PendingFinish(joiners, Next(joiners, s, id).value, pending, id);
      ReachesFirst(joiners, s, id, done);
    }
  }

  /** The handlers can all finish; FullMesh and AllTakePart say what holds then. */
  lemma HandlersFinish(joiners: map<int, Joiner>)
    requires ValidJoiners(joiners)
    ensures exists schedule :: Run(joiners, Initial(joiners), schedule).Some?
              && Run(joiners, Initial(joiners), schedule).value.phases == map id | id in joiners :: Done
  {
    if joiners.Keys != {} {
      var id := SomeElement(joiners.Keys);
      PendingFinish(joiners, Initial(joiners), joiners.Keys, id);
    } else {
      PendingFinish(joiners, Initial(joiners), {}, 0);
    }
  }

  /** Once all handlers have finished, every joiner takes part in the round robin, which then succeeds. */
  lemma AllTakePart(joiners: map<int, Joiner>, schedule: seq<int>)
    requires ValidJoiners(joiners) && Run(joiners, Initial(joiners), schedule).Some?
    requires forall id <- joiners :: id in Run(joiners, Initial(joiners), schedule).value.phases
               && Run(joiners, Initial(joiners), schedule).value.phases[id] == Done
    ensures var ring := Run(joiners, Initial(joiners), schedule).value.ring;
      && ring.Valid() && RingSchedule.ReadyWorkers(ring.workers) == |ring.workers| == |joiners|
      && (joiners != map[] ==> Pick(ring.workers, ring.cur).Some?)
  {
    RunIsListed(joiners, Initial(joiners), schedule);
    var s := Run(joiners, Initial(joiners), schedule).value;
    var ws := s.ring.workers;
    forall k | 0 <= k < |ws|
      ensures ws[k].Eligible() && s.ring.nodes[k] in joiners.Keys
    {
      assert IsListed(ws[k], joiners);
      ListedAt(joiners, s, ws[k].id);
    }
    forall id <- joiners
      ensures id in s.ring.nodes
    {
      assert ws[FirstMatch(ws, id)].id == id;
    }
    DistinctFill(s.ring.nodes, joiners.Keys);
    if ws != [] {
      AllEligible(ws, 0, |ws|);
      RingSchedule.PickFailsIffNoneReady(ws, s.ring.cur);
    }
  }

  lemma AnnouncementAt(ws: seq<Worker>, joined: Worker, source: nat, i: nat)
    requires i < |Announcements(ws, joined, source, |ws|)|
    ensures exists p :: 0 <= p < |ws| && IsNotified(ws[p], joined.id)
              && Announcements(ws, joined, source, |ws|)[i] == (ws[p].socket, EntryOf(joined, p == source))
  {
    hide Announcements, Notified;
    AnnouncementsGoToNotified(ws, joined, source, |ws|);
    var p := Notified(ws, joined.id, |ws|)[i];
    assert p in Notified(ws, joined.id, |ws|);
    assert IsNotified(ws[p], joined.id);
  }

  lemma SourceIsAnnounced(ws: seq<Worker>, joined: Worker, source: nat)
    requires source < |ws| && IsNotified(ws[source], joined.id)
    ensures exists j :: 0 <= j < |Announcements(ws, joined, source, |ws|)|
              && Announcements(ws, joined, source, |ws|)[j].1.shouldExport
  {
    hide Announcements, Notified;
    AnnouncementsGoToNotified(ws, joined, source, |ws|);
    var j :| 0 <= j < |Notified(ws, joined.id, |ws|)| && Notified(ws, joined.id, |ws|)[j] == source;
    assert Announcements(ws, joined, source, |ws|)[j].1.shouldExport;
  }

  /** Every announcement goes to all other workers, and asks exactly one to export if any of them is ready. */
  lemma OneExporter(ws: seq<Worker>, newId: int, i: nat)
    requires i < |Broadcast(ws, newId)|
    requires forall w <- ws :: w.Eligible() ==> !w.socket.Invalid?
    ensures exists p :: 0 <= p < |ws| && IsNotified(ws[p], newId) && Broadcast(ws, newId)[i].0 == ws[p].socket
              && (Broadcast(ws, newId)[i].1.shouldExport <==> p == Source(ws, newId))
    ensures Source(ws, newId) < |ws| ==>
              exists j :: 0 <= j < |Broadcast(ws, newId)| && Broadcast(ws, newId)[j].1.shouldExport
  {
    hide Newcomer, Source, Announcements;
    var k, source := Newcomer(ws, newId), Source(ws, newId);
    AnnouncementAt(ws, ws[k], source, i);
    if source < |ws| {
      assert IsNotified(ws[source], newId);
      SourceIsAnnounced(ws, ws[k], source);
    }
  }
}
