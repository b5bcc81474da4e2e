/**
 * What LoadBalancer/WorkerList.c computes, on values.
 *
 * A ring is the order of its nodes starting at `head`, the data stored in each
 * node, and the position of `current`.  The type of nodes is left open: the
 * class WorkerList instantiates it with heap references, so two nodes that
 * carry the same worker id (which AddWorker allows) are still told apart.
 */
module RingSpec {
  import opened Circle
  import opened Config

  datatype Worker = Worker(id: int, socket: SocketHandle, address: Bytes, port: int, connected: bool, ready: bool) {
    predicate Eligible() {
      connected && ready
    }
  }

  datatype Ring<N> = Ring(nodes: seq<N>, workers: seq<Worker>, cur: nat) {
    ghost predicate Valid() {
      && |nodes| == |workers| <= MAX_WORKERS
      && Distinct(nodes)
      && (if nodes == [] then cur == 0 else cur < |nodes|)
    }
  }

  // ----- the four operations

  /** Index of the first worker with this id, or |ws|. */
  function FirstMatch(ws: seq<Worker>, id: int): (k: nat)
    ensures k <= |ws|
    ensures k < |ws| ==> ws[k].id == id
    ensures forall j :: 0 <= j < k ==> ws[j].id != id
  {
    if ws == [] then 0
    else if ws[0].id == id then 0
    else
      var k := FirstMatch(ws[1..], id);
      assert forall j :: 0 < j < k + 1 ==> ws[j] == ws[1..][j - 1];
      k + 1
  }

  function Add<N>(r: Ring<N>, node: N, worker: Worker): Ring<N> {
    if |r.nodes| >= MAX_WORKERS then r
    else Ring(r.nodes + [node], r.workers + [worker], r.cur)
  }

  function Remove<N>(r: Ring<N>, id: int): Ring<N>
    requires |r.nodes| == |r.workers|
  {
    var k := FirstMatch(r.workers, id);
    if k == |r.workers| then r
    else
      var cur := if k < r.cur then r.cur - 1 else if r.cur + 1 == |r.nodes| == k + 1 then 0 else r.cur;
      Ring(Delete(r.nodes, k), Delete(r.workers, k), cur)
  }

  function SetReady<N>(r: Ring<N>, id: int): Ring<N> {
    var k := FirstMatch(r.workers, id);
    if k == |r.workers| then r
    else r.(workers := r.workers[k := r.workers[k].(ready := true)])
  }

  function SetPort<N>(r: Ring<N>, id: int, port: int): Ring<N> {
    var k := FirstMatch(r.workers, id);
    if k == |r.workers| then r
    else r.(workers := r.workers[k := r.workers[k].(port := port)])
  }

  // ----- what they do, place by place

  predicate IsFirst(ws: seq<Worker>, k: nat, id: int) {
    k < |ws| && ws[k].id == id && forall j :: 0 <= j < k ==> ws[j].id != id
  }

  /** The new worker comes last, and the others and `current` stay where they are. */
  lemma AddGoesLast<N>(r: Ring<N>, node: N, worker: Worker)
    requires |r.nodes| == |r.workers| < MAX_WORKERS
    ensures var r', n := Add(r, node, worker), |r.nodes|;
      && |r'.nodes| == |r'.workers| == n + 1 && r'.nodes[n] == node && r'.workers[n] == worker
      && r'.nodes[..n] == r.nodes && r'.workers[..n] == r.workers && r'.cur == r.cur
  {
  }

  /** Exactly the first worker with the id leaves, its node with it; without one nothing changes. */
  lemma RemoveTakesFirst<N>(r: Ring<N>, id: int)
    requires |r.nodes| == |r.workers|
    ensures (forall w <- r.workers :: w.id != id) ==> Remove(r, id) == r
    ensures forall k: nat :: IsFirst(r.workers, k, id) ==>
              && Remove(r, id).nodes == r.nodes[..k] + r.nodes[k + 1..]
              && Remove(r, id).workers == r.workers[..k] + r.workers[k + 1..]
  {
    assert forall k: nat :: IsFirst(r.workers, k, id) ==> k == FirstMatch(r.workers, id);
  }

  ghost predicate DistinctIds(ws: seq<Worker>) {
    forall i, j :: 0 <= i < j < |ws| ==> ws[i].id != ws[j].id
  }

  /** With distinct ids, the worker with the id is out and all others are in. */
  lemma RemovedExactly<N>(r: Ring<N>, id: int)
    requires |r.nodes| == |r.workers| && DistinctIds(r.workers)
    ensures forall w :: w in Remove(r, id).workers <==> w in r.workers && w.id != id
  {
    var ws, k, rest := r.workers, FirstMatch(r.workers, id), Remove(r, id).workers;
    RemoveTakesFirst(r, id);
    forall w | w in ws && w.id != id && k < |ws|
      ensures w in rest
    {
      var i :| 0 <= i < |ws| && ws[i] == w;
      assert rest[if i < k then i else i - 1] == w;
    }
  }

  /** Exactly the first worker with the id becomes ready, and nothing else changes. */
  lemma SetReadyMarksFirst<N>(r: Ring<N>, id: int)
    ensures SetReady(r, id).nodes == r.nodes && SetReady(r, id).cur == r.cur
    ensures |SetReady(r, id).workers| == |r.workers|
    ensures forall k :: 0 <= k < |r.workers| ==>
              var w, w' := r.workers[k], SetReady(r, id).workers[k];
              && (w'.ready <==> w.ready || IsFirst(r.workers, k, id))
              && w'.id == w.id && w'.socket == w.socket && w'.address == w.address
              && w'.port == w.port && w'.connected == w.connected
  {
    assert forall k: nat :: IsFirst(r.workers, k, id) ==> k == FirstMatch(r.workers, id);
  }

  /** Exactly the first worker with the id gets the port, and nothing else changes. */
  lemma SetPortMarksFirst<N>(r: Ring<N>, id: int, port: int)
    ensures SetPort(r, id, port).nodes == r.nodes && SetPort(r, id, port).cur == r.cur
    ensures |SetPort(r, id, port).workers| == |r.workers|
    ensures forall k :: 0 <= k < |r.workers| ==>
              var w, w' := r.workers[k], SetPort(r, id, port).workers[k];
              && w'.port == (if IsFirst(r.workers, k, id) then port else w.port)
              && w'.id == w.id && w'.socket == w.socket && w'.address == w.address
              && w'.connected == w.connected && w'.ready == w.ready
  {
    assert forall k: nat :: IsFirst(r.workers, k, id) ==> k == FirstMatch(r.workers, id);
  }

  // ----- the round robin

  /** How many places, out of `len` starting at `from`, come before the first eligible one. */
  function Skipped(ws: seq<Worker>, from: nat, len: nat): (d: nat)
    requires from < |ws| && len <= |ws|
    ensures d <= len
    ensures d < len ==> Ahead(ws, from, d).Eligible()
    ensures forall j :: 0 <= j < d ==> !Ahead(ws, from, j).Eligible()
    decreases len
  {
    if len == 0 || ws[from].Eligible() then 0
    else
      var d := Skipped(ws, After(from, |ws|), len - 1);
      assert forall j :: 0 < j < 1 + d ==> Ahead(ws, from, j) == Ahead(ws, After(from, |ws|), j - 1);
      1 + d
  }

  /** Place of the worker GetNextWorker hands out, if there is one. */
  function Pick(ws: seq<Worker>, cur: nat): Option<nat>
    requires ws != [] ==> cur < |ws|
  {
    if ws == [] then None
    else
      var d := Skipped(ws, cur, |ws|);
      if d == |ws| then None else Some(Wrap(cur + d, |ws|))
  }

  /** Where GetNextWorker leaves `current`. */
  function Next(ws: seq<Worker>, cur: nat): nat
    requires ws != [] ==> cur < |ws|
  {
    match Pick(ws, cur)
    case None => cur
    case Some(p) => After(p, |ws|)
  }

  /** A walk that passed `d` workers, none of them eligible, and stopped at an eligible one or all the way round. */
  lemma WalkFindsPick(ws: seq<Worker>, cur: nat, d: nat)
    requires cur < |ws| && d <= |ws|
    requires forall j :: 0 <= j < d ==> !Ahead(ws, cur, j).Eligible()
    requires d < |ws| ==> Ahead(ws, cur, d).Eligible()
    ensures if d == |ws| then Pick(ws, cur) == None && Next(ws, cur) == cur
            else Pick(ws, cur) == Some(Wrap(cur + d, |ws|)) && Next(ws, cur) == After(Wrap(cur + d, |ws|), |ws|)
  {
    assert Skipped(ws, cur, |ws|) == d;
  }

  // ----- what the registry and join messages say

  /** The payload of a WORKER_ENTRY message. */
  datatype Entry = Entry(id: int, address: Bytes, port: int, shouldExport: bool)

  function EntryOf(w: Worker, shouldExport: bool): Entry {
    Entry(w.id, w.address, w.port, shouldExport)
  }

  /** The entries of a registry update: every worker, in ring order, none asked to export. */
  function Registry(ws: seq<Worker>): (entries: seq<Entry>)
    ensures |entries| == |ws|
    ensures forall i :: 0 <= i < |ws| ==> entries[i] == EntryOf(ws[i], false)
  {
    seq(|ws|, i requires 0 <= i < |ws| => EntryOf(ws[i], false))
  }

  /** Index of the last worker with this id, or |ws|. */
  function LastMatch(ws: seq<Worker>, id: int): (k: nat)
    ensures k <= |ws|
    ensures k < |ws| ==> ws[k].id == id
    ensures forall j :: (if k == |ws| then -1 else k) < j < |ws| ==> ws[j].id != id
  {
    if ws == [] then 0
    else if ws[|ws| - 1].id == id then |ws| - 1
    else
      var k := LastMatch(ws[..|ws| - 1], id);
      if k == |ws| - 1 then |ws| else k
  }

  /** Index of the worker asked to export to `newId`: the first other one that is ready, or |ws|. */
  function Source(ws: seq<Worker>, newId: int): (k: nat)
    ensures k <= |ws|
    ensures k < |ws| ==> ws[k].id != newId && ws[k].Eligible()
    ensures forall j :: 0 <= j < k ==> ws[j].id == newId || !ws[j].Eligible()
  {
    if ws == [] then 0
    else if ws[0].id != newId && ws[0].Eligible() then 0
    else
      var k := Source(ws[1..], newId);
      assert forall j :: 0 < j < k + 1 ==> ws[j] == ws[1..][j - 1];
      k + 1
  }

  /** How many workers are looked at before both a worker with this id and a source have been met. */
  function Scanned(ws: seq<Worker>, newId: int): (n: nat)
    ensures n <= |ws|
  {
    var first, source := FirstMatch(ws, newId), Source(ws, newId);
    if first == |ws| || source == |ws| then |ws| else if first < source then source + 1 else first + 1
  }

  /**
   * Index of the worker a join of `newId` is announced with, or |ws| when there
   * is none: of several workers with that id, the last one looked at.
   */
  function Newcomer(ws: seq<Worker>, newId: int): (k: nat)
    ensures k <= |ws|
    ensures k < |ws| ==> ws[k].id == newId
  {
    var n := Scanned(ws, newId);
    var k := LastMatch(ws[..n], newId);
    if k == n then |ws| else k
  }

  lemma NewcomerIfAny(ws: seq<Worker>, newId: int)
    ensures Newcomer(ws, newId) < |ws| <==> exists j :: 0 <= j < |ws| && ws[j].id == newId
  {
    var first, n := FirstMatch(ws, newId), Scanned(ws, newId);
    if first < |ws| {
      assert ws[..n][first].id == newId;
    }
  }

  /** A scan that stopped after `k` workers, having seen the newcomer last at `j` and a source at `s`. */
  lemma ScanResult(ws: seq<Worker>, newId: int, j: nat, s: nat, k: nat)
    requires k <= |ws| && (k == |ws| || (j < k && s < k))
    requires j == |ws| || (j < k && ws[j].id == newId)
    requires forall i :: (if j == |ws| then -1 else j) < i < k ==> ws[i].id != newId
    requires s == |ws| || (s < k && ws[s].id != newId && ws[s].Eligible())
    requires forall i :: 0 <= i < k && i < s ==> ws[i].id == newId || !ws[i].Eligible()
    requires j < |ws| && s < |ws| ==> s == k - 1 || (j == k - 1 && forall i :: 0 <= i < j ==> ws[i].id != newId)
    ensures Newcomer(ws, newId) == j
    ensures j < |ws| ==> Source(ws, newId) == s
  {
    assert j < |ws| ==> ws[..k][j].id == newId;
    assert j < |ws| ==> s == Source(ws, newId);
    assert k == Scanned(ws, newId) || j == |ws|;
  }

  /** Whether a join of `newId` is announced to this worker. */
  predicate IsNotified(w: Worker, newId: int) {
    w.id != newId && w.connected && !w.socket.Invalid?
  }

  /** The places of the workers among the first `n` to which a join is announced, in ring order. */
  function Notified(ws: seq<Worker>, newId: int, n: nat): (places: seq<nat>)
    requires n <= |ws|
    ensures forall i :: 0 <= i < |places| ==> places[i] < n
    ensures forall i, j :: 0 <= i < j < |places| ==> places[i] < places[j]
    ensures forall p :: 0 <= p < n ==>
              (p in places <==> ws[p].id != newId && ws[p].connected && ws[p].socket != Invalid)
  {
    if n == 0 then []
    else
      var before := Notified(ws, newId, n - 1);
      if IsNotified(ws[n - 1], newId) then before + [n - 1] else before
  }

  /**
   * What is sent, and to which sockets, when `joined` is announced: every
   * notified worker hears of it, and only the one at place `source` is asked
   * to export to it.
   */
  function Announcements(ws: seq<Worker>, joined: Worker, source: nat, n: nat): seq<(SocketHandle, Entry)>
    requires n <= |ws|
  {
    if n == 0 then []
    else
      var before := Announcements(ws, joined, source, n - 1);
      if IsNotified(ws[n - 1], joined.id)
      then before + [(ws[n - 1].socket, EntryOf(joined, n - 1 == source))]
      else before
  }

  lemma {:induction false} AnnouncementsGoToNotified(ws: seq<Worker>, joined: Worker, source: nat, n: nat)
    requires n <= |ws|
    ensures var places, sent := Notified(ws, joined.id, n), Announcements(ws, joined, source, n);
      && |sent| == |places|
      && (forall i :: 0 <= i < |sent| ==>
            sent[i] == (ws[places[i]].socket, EntryOf(joined, places[i] == source)))
  {
    if n > 0 {
      AnnouncementsGoToNotified(ws, joined, source, n - 1);
    }
  }

  /** How many of the first `n` sends succeeded. */
  function Successes(send: nat -> int, n: nat): (c: nat)
    ensures c <= n
    ensures c == |set k: nat | k < n && send(k) > 0|
  {
    if n == 0 then 0
    else
      assert (set k: nat | k < n && send(k) > 0) ==
             (set k: nat | k < n - 1 && send(k) > 0) + (if send(n - 1) > 0 then {n - 1} else {});
      Successes(send, n - 1) + (if send(n - 1) > 0 then 1 else 0)
  }
}
