/**
 * Replication among workers.  Three threads of each worker run side by side:
 * the receiver (Worker/ReceiverThread.c) takes requests from the load balancer,
 * the export thread (Worker/ExportThread.c with ExportHashTableToPeer) copies
 * the table to a new peer bucket by bucket, and the peer listener
 * (Worker/PeerListenerThread.c) merges what other workers send.  A connection
 * from one worker to another is a first-in, first-out channel of messages; a
 * listener serves one connection at a time, until that is closed.
 */
module Replication {
  import opened Config
  import opened HashSpec
  import opened PeerSpec

  datatype Message = Export(part: ExportMessage) | Notify(pair: Pair)

  datatype Receiver =
    | Ready
    | Broadcasting(pair: Pair, slot: nat, failed: seq<int>)  // in BroadcastData, before this slot
    | EntryAdded(id: int)                                    // between AddPeer and AddExportRequest

  datatype Exporter =
    | Idle
    | Counting(target: int, bucket: nat, total: nat)    // the count that decides whether to export
    | Announcing(target: int, bucket: nat, total: nat)  // the count that the start message carries
    | Scanning(target: int, bucket: nat, held: Option<seq<Pair>>)  // `held`: what is left of the locked bucket

  /**
   * Checked: HasHashTable said no, SetHashTable is next.  `stored` records the
   * value that a client's request has put under the key in between, if any.
   */
  datatype Listener = Listening | Checked(pair: Pair, stored: Option<Bytes>)

  /**
   * Of the last export: the total its start message gave, the entries sent, and
   * how many keys were new in a bucket after the count for the start message had
   * passed it and before the scan came to it.
   */
  datatype Tally = Tally(announced: nat, exported: nat, late: nat)

  /**
   * `stored`, `told`, `owed`, `scanned` and `tally` record history: the keys
   * stored for clients, each of these with the peers that were connected then,
   * the connected peers for which an export was queued, the keys that were in
   * each bucket when it was scanned for a peer, and the tally above.
   */
  datatype Worker = Worker(
    port: int, table: Table, peers: seq<Peer>, requests: seq<int>,
    receiver: Receiver, exporter: Exporter, listener: Listener,
    stored: set<Bytes>, told: set<(int, Bytes)>, owed: set<int>, scanned: map<int, set<Bytes>>, tally: Tally)

  datatype Action =
    // receiver thread
    | Store(pair: Pair)
    | NotifySlot(sent: bool)
    | EndBroadcast
    | Retrieve(key: Bytes)
    | Enter(id: int, address: Bytes, port: int, socket: SocketHandle, shouldExport: bool)
    | RequestExport
    // export thread
    | Dequeue
    | CountBucket
    | EndCount
    | SendStart(sent: bool)
    | LockBucket
    | SendEntry(sent: bool)
    | UnlockBucket
    | SendEnd(sent: bool)
    // peer listener
    | Insert

  datatype Output =
    | Nothing
    | Sent(to: int, message: Message)
    | Broke(to: int)             // a send failed
    | Opened(to: int)            // a connection was made
    | Closed(peers: seq<int>)    // connections were closed
    | Answered(pair: Pair)

  datatype Outcome = Outcome(worker: Worker, output: Output)

  function Transmit(w: Worker, to: int, message: Message, sent: bool): Outcome {
    Outcome(w, if sent then Sent(to, message) else Broke(to))
  }

  function KeysOf(chain: seq<Pair>): set<Bytes> {
    set i | 0 <= i < |chain| :: chain[i].key
  }

  function Scanned(w: Worker, n: int): set<Bytes> {
    if n in w.scanned then w.scanned[n] else {}
  }

  /** The lock of the key's bucket is not held by the export thread. */
  predicate Unlocked(w: Worker, key: Bytes) {
    w.exporter.Scanning? && w.exporter.held.Some? ==> w.exporter.bucket != Bucket(key)
  }

  /** The count for the start message has passed the bucket, and the scan has yet to come to it. */
  predicate AwaitsScan(e: Exporter, b: nat) {
    match e
    case Announcing(_, bucket, _) => b < bucket
    case Scanning(_, bucket, None) => bucket <= b
    case Scanning(_, bucket, Some(_)) => bucket < b
    case _ => false
  }

  /** The worker once the pair is in its table. */
  function Holding(w: Worker, p: Pair): Worker {
    var isLate := Lookup(w.table, p.key).None? && AwaitsScan(w.exporter, Bucket(p.key));
    w.(table := Set(w.table, p.key, p.value),
       tally := if isLate then w.tally.(late := w.tally.late + 1) else w.tally)
  }

  /** The peers that a broadcast of this key is for. */
  function Audience(peers: seq<Peer>, key: Bytes): set<(int, Bytes)> {
    set i | 0 <= i < |peers| && IsReached(peers[i]) :: (peers[i].workerId, key)
  }

  function Overtaken(l: Listener, p: Pair): Listener {
    if l.Checked? && l.pair.key == p.key then l.(stored := Some(p.value)) else l
  }

  predicate IsReceiverAction(a: Action) {
    a.Store? || a.NotifySlot? || a.EndBroadcast? || a.Retrieve? || a.Enter? || a.RequestExport?
  }

  /** Worker/ReceiverThread.c:47-140. */
  function ReceiverStep(w: Worker, a: Action): Option<Outcome>
    requires IsReceiverAction(a)
  {
    match a
    case Store(p) =>
      if !w.receiver.Ready? || !Unlocked(w, p.key) then None
      else if p.key == [] then Some(Outcome(w, Nothing))
      else Some(Outcome(
        Holding(w, p).(stored := w.stored + {p.key}, told := w.told + Audience(w.peers, p.key),
                       receiver := Broadcasting(p, 0, []), listener := Overtaken(w.listener, p)),
        Nothing))
    case NotifySlot(sent) =>
      if !w.receiver.Broadcasting? || w.receiver.slot >= |w.peers| then None
      else
        var Broadcasting(pair, slot, failed) := w.receiver;
        var peer := w.peers[slot];
        if !IsReached(peer) then Some(Outcome(w.(receiver := Broadcasting(pair, slot + 1, failed)), Nothing))
        else
          var w' := w.(receiver := Broadcasting(
            pair, slot + 1, if sent then failed else failed + [peer.workerId]));
          Some(Transmit(w', peer.workerId, Notify(pair), sent))
    case EndBroadcast =>
      if !w.receiver.Broadcasting? || w.receiver.slot < |w.peers| then None
      else
        var failed := w.receiver.failed;
        Some(Outcome(w.(peers := Without(w.peers, failed), receiver := Ready), Closed(failed)))
    case Retrieve(key) =>
      if !w.receiver.Ready? || !Unlocked(w, key) then None
      else
        (match Lookup(w.table, key)
         case None => Some(Outcome(w, Nothing))
         case Some(value) => Some(Outcome(w, Answered(Pair(key, value)))))
    case Enter(id, address, port, socket, shouldExport) =>
      if !w.receiver.Ready? then None
      else
        var peers := Register(w.peers, w.port, id, address, port, socket);
        var isNew := ConnectionTo(w.peers, id) == Invalid != ConnectionTo(peers, id);
        Some(Outcome(w.(peers := peers, receiver := if shouldExport then EntryAdded(id) else Ready),
                     if isNew then Opened(id) else Nothing))
    case RequestExport =>
      if !w.receiver.EntryAdded? then None
      else if |w.requests| >= MAX_WORKERS then Some(Outcome(w.(receiver := Ready), Nothing))
      else
        var id := w.receiver.id;
        var owed := if ConnectionTo(w.peers, id) == Invalid then w.owed else w.owed + {id};
        Some(Outcome(w.(requests := w.requests + [id], owed := owed, receiver := Ready), Nothing))
  }

  predicate IsExportAction(a: Action) {
    || a.Dequeue? || a.CountBucket? || a.EndCount?
    || a.SendStart? || a.LockBucket? || a.SendEntry? || a.UnlockBucket? || a.SendEnd?
  }

  /** Worker/ExportThread.c:21-52 and Worker/HashTable.c:379-426. */
  function ExportStep(w: Worker, a: Action): Option<Outcome>
    requires IsExportAction(a)
  {
    var e := w.exporter;
    match a
    case Dequeue =>
      if !e.Idle? || w.requests == [] then None
      else Some(Outcome(w.(requests := w.requests[1..], exporter := Counting(w.requests[0], 0, 0)), Nothing))
    case CountBucket =>
      if !(e.Counting? || e.Announcing?) || e.bucket >= BUCKET_COUNT then None
      else
        var total := e.total + |w.table[e.bucket]|;
        Some(Outcome(w.(exporter := e.(bucket := e.bucket + 1, total := total)), Nothing))
    case EndCount =>
      if !e.Counting? || e.bucket < BUCKET_COUNT then None
      else if e.total == 0 || ConnectionTo(w.peers, e.target) == Invalid
      then Some(Outcome(w.(exporter := Idle), Nothing))
      else Some(Outcome(w.(exporter := Announcing(e.target, 0, 0), tally := Tally(0, 0, 0)), Nothing))
    case SendStart(sent) =>
      if !e.Announcing? || e.bucket < BUCKET_COUNT then None
      else
        var w' := w.(exporter := if sent then Scanning(e.target, 0, None) else Idle,
                     tally := w.tally.(announced := e.total));
        Some(Transmit(w', e.target, Export(Start(e.total)), sent))
    case LockBucket =>
      if !e.Scanning? || e.held.Some? || e.bucket >= BUCKET_COUNT then None
      else
        var chain := w.table[e.bucket];
        var seen := Scanned(w, e.target) + KeysOf(chain);
        Some(Outcome(
          w.(exporter := Scanning(e.target, e.bucket, Some(chain)), scanned := w.scanned[e.target := seen]),
          Nothing))
    case SendEntry(sent) =>
      if !e.Scanning? || e.held.None? || e.held.value == [] then None
      else
        var rest := e.held.value;
        var w' := w.(exporter := if sent then Scanning(e.target, e.bucket, Some(rest[1..])) else Idle,
                     tally := w.tally.(exported := w.tally.exported + if sent then 1 else 0));
        Some(Transmit(w', e.target, Export(Data(rest[0])), sent))
    case UnlockBucket =>
      if !e.Scanning? || e.held != Some([]) then None
      else Some(Outcome(w.(exporter := Scanning(e.target, e.bucket + 1, None)), Nothing))
    case SendEnd(sent) =>
      if !e.Scanning? || e.held.Some? || e.bucket < BUCKET_COUNT then None
      else Some(Transmit(w.(exporter := Idle), e.target, Export(End), sent))
  }

  /** Worker/PeerListenerThread.c:102 and 121: the key was absent when it was looked for. */
  function InsertStep(w: Worker): Option<Outcome> {
    if !w.listener.Checked? || !Unlocked(w, w.listener.pair.key) then None
    else
      var p := w.listener.pair;
      var w' := if p.key == [] then w else Holding(w, p);
      Some(Outcome(w'.(listener := Listening), Nothing))
  }

  function Act(w: Worker, a: Action): Option<Outcome> {
    if IsReceiverAction(a) then ReceiverStep(w, a)
    else if IsExportAction(a) then ExportStep(w, a)
    else InsertStep(w)
  }

  function PairOf(m: Message): Option<Pair> {
    match m
    case Export(Data(p)) => Some(p)
    case Notify(p) => Some(p)
    case _ => None
  }

  /** Worker/PeerListenerThread.c:85-147, up to HasHashTable. */
  function Accept(w: Worker, m: Message): Option<Worker> {
    if !w.listener.Listening? then None
    else
      match PairOf(m)
      case None => Some(w)
      case Some(p) =>
        if !Unlocked(w, p.key) then None
        else if p.key == [] || Lookup(w.table, p.key).Some? then Some(w)
        else Some(w.(listener := Checked(p, None)))
  }

  // ===== The system

  /**
   * `backlogs` lists, for each listener, who is connected and waits to be
   * accepted, `serving` whose connection it has accepted, and `closed` the
   * connections that were closed or lost.  `puts` records the pairs of all store
   * requests, `answers` those of all successful retrieve responses, `broken` the
   * connections on which a send failed or messages were lost.
   */
  datatype State = State(
    workers: map<int, Worker>, channels: map<(int, int), seq<Message>>,
    backlogs: map<int, seq<int>>, serving: map<int, int>, closed: set<(int, int)>,
    puts: set<Pair>, answers: set<Pair>, broken: set<(int, int)>)

  datatype Step =
    | Local(at: int, action: Action)
    | Serve(at: int)               // the listener accepts the connection that has waited longest
    | Receive(at: int, from: int)
    | Drop(at: int)                // the listener finds its connection closed
    | Lose(from: int, to: int)

  function Channel(s: State, from: int, to: int): seq<Message> {
    if (from, to) in s.channels then s.channels[(from, to)] else []
  }

  function Backlog(s: State, n: int): seq<int> {
    if n in s.backlogs then s.backlogs[n] else []
  }

  predicate Serves(s: State, n: int, from: int) {
    n in s.serving && s.serving[n] == from
  }

  function Apply(s: State, id: int, o: Outcome): State {
    var s' := s.(workers := s.workers[id := o.worker]);
    match o.output
    case Nothing => s'
    case Sent(to, message) => s'.(channels := s.channels[(id, to) := Channel(s, id, to) + [message]])
    case Broke(to) => s'.(broken := s.broken + {(id, to)})
    case Opened(to) => s'.(backlogs := s.backlogs[to := Backlog(s, to) + [id]])
    case Closed(peers) => s'.(closed := s.closed + set n | n in peers :: (id, n))
    case Answered(pair) => s'.(answers := s.answers + {pair})
  }

  lemma OutcomeChangesWorker(s: State, id: int, o: Outcome)
    ensures Apply(s, id, o).workers == s.workers[id := o.worker]
  {
  }

  function Next(s: State, step: Step): Option<State> {
    match step
    case Local(id, action) =>
      if id !in s.workers then None
      else
        (match Act(s.workers[id], action)
         case None => None
         case Some(outcome) =>
           var s' := if action.Store? then s.(puts := s.puts + {action.pair}) else s;
           Some(Apply(s', id, outcome)))
    case Serve(id) =>
      if id in s.serving || Backlog(s, id) == [] then None
      else Some(s.(serving := s.serving[id := Backlog(s, id)[0]], backlogs := s.backlogs[id := Backlog(s, id)[1..]]))
    case Receive(id, from) =>
      if id !in s.workers || !Serves(s, id, from) || Channel(s, from, id) == [] then None
      else
        (match Accept(s.workers[id], Channel(s, from, id)[0])
         case None => None
         case Some(w) =>
           Some(s.(workers := s.workers[id := w], channels := s.channels[(from, id) := Channel(s, from, id)[1..]])))
    case Drop(id) =>
      if id !in s.workers || !s.workers[id].listener.Listening? then None
      else if id !in s.serving || (s.serving[id], id) !in s.closed then None
      else Some(s.(serving := s.serving - {id}))
    case Lose(from, to) =>
      Some(s.(channels := s.channels[(from, to) := []],
              closed := s.closed + {(from, to)}, broken := s.broken + {(from, to)}))
  }

  function NewWorker(port: int): Worker {
    Worker(port, EmptyTable(), [], [], Ready, Idle, Listening, {}, {}, {}, map[], Tally(0, 0, 0))
  }

  function Initial(ports: map<int, int>): State {
    State(map id | id in ports :: NewWorker(ports[id]), map[], map[], map[], {}, {}, {}, {})
  }

  function Run(s: State, steps: seq<Step>): Option<State>
    decreases |steps|
  {
    if steps == [] then Some(s)
    else
      match Next(s, steps[0])
      case None => None
      case Some(s') => Run(s', steps[1..])
  }

  // ===== What one worker owes another

  predicate Has(t: Table, key: Bytes) {
    Lookup(t, key).Some?
  }

  /** The key was stored here for a client, or was in its bucket when that was scanned for n. */
  predicate Owes(w: Worker, n: int, key: Bytes) {
    n != NO_PEER && n in w.owed && (key in w.stored || key in Scanned(w, n))
  }

  /** The broadcast of this key has yet to come to n. */
  predicate NotifyPending(w: Worker, n: int, key: Bytes) {
    && w.receiver.Broadcasting? && w.receiver.pair.key == key
    && w.receiver.slot <= FindPeer(w.peers, n) < |w.peers|
    && IsReached(w.peers[FindPeer(w.peers, n)])
  }

  /** An export to n is queued, or under way and has yet to come to this key. */
  predicate ExportPending(w: Worker, n: int, key: Bytes) {
    || n in w.requests
    || (match w.exporter
        case Idle => false
        case Counting(target, bucket, total) => target == n && (total > 0 || bucket <= Bucket(key))
        case Announcing(target, _, _) => target == n
        case Scanning(target, bucket, None) => target == n && bucket <= Bucket(key)
        case Scanning(target, bucket, Some(rest)) => target == n && (bucket < Bucket(key) || key in KeysOf(rest)))
  }

  predicate Pending(w: Worker, n: int, key: Bytes) {
    NotifyPending(w, n, key) || ExportPending(w, n, key)
  }

  predicate Carries(m: Message, key: Bytes) {
    PairOf(m).Some? && PairOf(m).value.key == key
  }

  /** What always holds of a worker with respect to n and a key. */
  predicate Sound(w: Worker, n: int, key: Bytes, broken: bool) {
    && (w.receiver.Broadcasting? && n in w.receiver.failed ==> broken)
    && (n in w.owed && !broken ==> ConnectionTo(w.peers, n) != Invalid)
    && (key in w.stored || key in Scanned(w, n) ==> Has(w.table, key))
  }

  /** A step of the owing worker: the duty stays pending unless its message goes out or the connection breaks. */
  predicate KeepsDuty(w: Worker, o: Outcome, n: int, key: Bytes, broken: bool) {
    var broken' := broken || o.output == Broke(n);
    && Sound(o.worker, n, key, broken')
    && (Owes(o.worker, n, key) && !broken' && (Owes(w, n, key) ==> Pending(w, n, key)) ==>
          Pending(o.worker, n, key) || (o.output.Sent? && o.output.to == n && Carries(o.output.message, key)))
    && (Has(w.table, key) ==> Has(o.worker.table, key))
  }

  lemma HasInChain(t: Table, key: Bytes)
    ensures Has(t, key) ==> key in KeysOf(t[Bucket(key)])
  {
    var chain := t[Bucket(key)];
    var k := Find(chain, key);
    assert k < |chain| ==> chain[k].key == key;
  }

  lemma SetKeepsHas(t: Table, p: Pair, key: Bytes)
    ensures Has(t, key) || p.key == key <==> Has(Set(t, p.key, p.value), key)
  {
    LookupAfterSet(t, p.key, p.value, key);
  }

  lemma InChainHas(t: Table, b: nat, i: nat)
    requires HashSpec.Valid(t) && b < BUCKET_COUNT && i < |t[b]|
    ensures Has(t, t[b][i].key)
  {
    assert ValidChain(t[b], b);
  }

  lemma StoreKeepsDuty(w: Worker, p: Pair, n: int, key: Bytes, broken: bool)
    requires ReceiverStep(w, Store(p)).Some? && Sound(w, n, key, broken)
    ensures KeepsDuty(w, ReceiverStep(w, Store(p)).value, n, key, broken)
  {
    SetKeepsHas(w.table, p, key);
  }

  lemma NotifyKeepsDuty(w: Worker, sent: bool, n: int, key: Bytes, broken: bool)
    requires ReceiverStep(w, NotifySlot(sent)).Some? && Sound(w, n, key, broken)
    ensures KeepsDuty(w, ReceiverStep(w, NotifySlot(sent)).value, n, key, broken)
  {
    hide FindPeer, Lookup, Bucket;
  }

  lemma EndBroadcastKeepsDuty(w: Worker, n: int, key: Bytes, broken: bool)
    requires ReceiverStep(w, EndBroadcast).Some? && Sound(w, n, key, broken)
    ensures KeepsDuty(w, ReceiverStep(w, EndBroadcast).value, n, key, broken)
  {
    if n !in w.receiver.failed {
      WithoutKeepsConnection(w.peers, w.receiver.failed, n);
    }
  }

  lemma EnterKeepsDuty(w: Worker, a: Action, n: int, key: Bytes, broken: bool)
    requires a.Enter? && ReceiverStep(w, a).Some? && Sound(w, n, key, broken)
    ensures KeepsDuty(w, ReceiverStep(w, a).value, n, key, broken)
  {
    RegisterKeepsConnection(w.peers, w.port, a.id, a.address, a.port, a.socket, n);
  }

  lemma RequestKeepsDuty(w: Worker, n: int, key: Bytes, broken: bool)
    requires ReceiverStep(w, RequestExport).Some? && Sound(w, n, key, broken)
    ensures KeepsDuty(w, ReceiverStep(w, RequestExport).value, n, key, broken)
  {
    hide FindPeer, Lookup, Bucket;
  }

  lemma ReceiverKeepsDuty(w: Worker, a: Action, n: int, key: Bytes, broken: bool)
    requires IsReceiverAction(a) && ReceiverStep(w, a).Some? && Sound(w, n, key, broken)
    ensures KeepsDuty(w, ReceiverStep(w, a).value, n, key, broken)
  {
    match a
    case Store(p) => StoreKeepsDuty(w, p, n, key, broken);
    case NotifySlot(sent) => NotifyKeepsDuty(w, sent, n, key, broken);
    case EndBroadcast => EndBroadcastKeepsDuty(w, n, key, broken);
    case Enter(_, _, _, _, _) => EnterKeepsDuty(w, a, n, key, broken);
    case Retrieve(_) =>
    case RequestExport => RequestKeepsDuty(w, n, key, broken);
  }

  lemma LockKeepsDuty(w: Worker, n: int, key: Bytes, broken: bool)
    requires ExportStep(w, LockBucket).Some? && Sound(w, n, key, broken) && HashSpec.Valid(w.table)
    ensures KeepsDuty(w, ExportStep(w, LockBucket).value, n, key, broken)
  {
    HasInChain(w.table, key);
    var chain := w.table[w.exporter.bucket];
    if key in KeysOf(chain) {
      var i :| 0 <= i < |chain| && chain[i].key == key;
      InChainHas(w.table, w.exporter.bucket, i);
    }
  }

  lemma CountKeepsDuty(w: Worker, n: int, key: Bytes, broken: bool)
    requires ExportStep(w, CountBucket).Some? && Sound(w, n, key, broken)
    ensures KeepsDuty(w, ExportStep(w, CountBucket).value, n, key, broken)
  {
    HasInChain(w.table, key);
  }

  lemma SendEntryKeepsDuty(w: Worker, sent: bool, n: int, key: Bytes, broken: bool)
    requires ExportStep(w, SendEntry(sent)).Some? && Sound(w, n, key, broken)
    ensures KeepsDuty(w, ExportStep(w, SendEntry(sent)).value, n, key, broken)
  {
  }

  lemma DequeueKeepsDuty(w: Worker, n: int, key: Bytes, broken: bool)
    requires ExportStep(w, Dequeue).Some? && Sound(w, n, key, broken)
    ensures KeepsDuty(w, ExportStep(w, Dequeue).value, n, key, broken)
  {
  }

  lemma ExportKeepsDuty(w: Worker, a: Action, n: int, key: Bytes, broken: bool)
    requires IsExportAction(a) && ExportStep(w, a).Some? && Sound(w, n, key, broken) && HashSpec.Valid(w.table)
    ensures KeepsDuty(w, ExportStep(w, a).value, n, key, broken)
  {
    hide FindPeer, HashSpec.Valid;
    match a
    case Dequeue => DequeueKeepsDuty(w, n, key, broken);
    case CountBucket => CountKeepsDuty(w, n, key, broken);
    case LockBucket => LockKeepsDuty(w, n, key, broken);
    case SendEntry(sent) => SendEntryKeepsDuty(w, sent, n, key, broken);
    case _ =>
  }

  lemma InsertKeepsDuty(w: Worker, n: int, key: Bytes, broken: bool)
    requires InsertStep(w).Some? && Sound(w, n, key, broken)
    ensures KeepsDuty(w, InsertStep(w).value, n, key, broken)
  {
    SetKeepsHas(w.table, w.listener.pair, key);
  }

  lemma ActKeepsDuty(w: Worker, a: Action, n: int, key: Bytes, broken: bool)
    requires Act(w, a).Some? && Sound(w, n, key, broken) && HashSpec.Valid(w.table)
    ensures KeepsDuty(w, Act(w, a).value, n, key, broken)
  {
    if IsReceiverAction(a) {
      ReceiverKeepsDuty(w, a, n, key, broken);
    } else if IsExportAction(a) {
      ExportKeepsDuty(w, a, n, key, broken);
    } else {
      InsertKeepsDuty(w, n, key, broken);
    }
  }

  // ===== Exports are complete

  /** The table has the key, or the listener is about to insert it. */
  predicate Holds(w: Worker, key: Bytes) {
    Has(w.table, key) || (w.listener.Checked? && w.listener.pair.key == key)
  }

  ghost predicate InFlight(channel: seq<Message>, key: Bytes) {
    exists m <- channel :: Carries(m, key)
  }

  ghost predicate Delivered(s: State, a: int, n: int, key: Bytes) {
    && a in s.workers && n in s.workers
    && Sound(s.workers[a], n, key, (a, n) in s.broken)
    && (Owes(s.workers[a], n, key) && (a, n) !in s.broken ==>
          || Pending(s.workers[a], n, key)
          || InFlight(Channel(s, a, n), key)
          || Holds(s.workers[n], key))
  }

  ghost predicate ValidTables(s: State) {
    forall id <- s.workers :: HashSpec.Valid(s.workers[id].table)
  }

  lemma ActKeepsTable(w: Worker, a: Action, key: Bytes)
    requires Act(w, a).Some? && HashSpec.Valid(w.table)
    ensures HashSpec.Valid(Act(w, a).value.worker.table)
    ensures key != [] && Holds(w, key) ==> Holds(Act(w, a).value.worker, key)
  {
    if a.Store? && a.pair.key != [] {
      SetKeepsValid(w.table, a.pair.key, a.pair.value);
      SetKeepsHas(w.table, a.pair, key);
    } else if a.Insert? && w.listener.pair.key != [] {
      SetKeepsValid(w.table, w.listener.pair.key, w.listener.pair.value);
      SetKeepsHas(w.table, w.listener.pair, key);
    }
  }

  lemma SendingKeepsInFlight(s: State, id: int, o: Outcome, a: int, n: int, key: Bytes)
    ensures InFlight(Channel(s, a, n), key) ==> InFlight(Channel(Apply(s, id, o), a, n), key)
    ensures id == a && o.output.Sent? && o.output.to == n && Carries(o.output.message, key) ==>
              InFlight(Channel(Apply(s, id, o), a, n), key)
  {
    var before, after := Channel(s, a, n), Channel(Apply(s, id, o), a, n);
    assert after == if id == a && o.output.Sent? && o.output.to == n then before + [o.output.message] else before;
    assert forall m <- before :: m in after;
  }

  lemma NothingOwedIsEmpty(w: Worker, n: int, broken: bool)
    requires HashSpec.Valid(w.table)
    ensures Sound(w, n, [], broken) ==> !Owes(w, n, [])
  {
    assert ValidChain(w.table[Bucket([])], Bucket([]));
  }

  lemma OutcomeKeepsDelivered(s: State, id: int, o: Outcome, a: int, n: int, key: Bytes)
    requires id in s.workers && Delivered(s, a, n, key)
    requires id == a ==> KeepsDuty(s.workers[a], o, n, key, (a, n) in s.broken)
    requires key != [] && Holds(s.workers[id], key) ==> Holds(o.worker, key)
    requires key == [] ==> !Owes(if id == a then o.worker else s.workers[a], n, key)
    ensures Delivered(Apply(s, id, o), a, n, key)
  {
    SendingKeepsInFlight(s, id, o, a, n, key);
  }

  lemma LocalKeepsDelivered(s: State, id: int, action: Action, a: int, n: int, key: Bytes)
    requires Next(s, Local(id, action)).Some? && ValidTables(s) && Delivered(s, a, n, key)
    ensures Delivered(Next(s, Local(id, action)).value, a, n, key)
  {
    var s' := if action.Store? then s.(puts := s.puts + {action.pair}) else s;
    var o := Act(s.workers[id], action).value;
    var broken := (a, n) in s.broken;
    ActKeepsTable(s.workers[id], action, key);
    NothingOwedIsEmpty(s.workers[a], n, broken);
    if id == a {
      ActKeepsDuty(s.workers[a], action, n, key, broken);
      NothingOwedIsEmpty(o.worker, n, broken || o.output == Broke(n));
    }
    OutcomeKeepsDelivered(s', id, o, a, n, key);
  }

  /** Taking in a message touches only the listener, and what it carried is then held. */
  lemma AcceptKeepsDuty(w: Worker, m: Message, n: int, key: Bytes, broken: bool)
    requires Accept(w, m).Some?
    ensures var w' := Accept(w, m).value;
      && w' == w.(listener := w'.listener)
      && (Sound(w, n, key, broken) ==> Sound(w', n, key, broken))
      && Owes(w', n, key) == Owes(w, n, key) && (Pending(w, n, key) ==> Pending(w', n, key))
      && (Holds(w, key) || (Carries(m, key) && key != []) ==> Holds(w', key))
  {
  }

  lemma ReceiveKeepsDelivered(s: State, id: int, from: int, a: int, n: int, key: Bytes)
    requires Next(s, Receive(id, from)).Some? && ValidTables(s) && Delivered(s, a, n, key)
    ensures Delivered(Next(s, Receive(id, from)).value, a, n, key)
  {
    var channel := Channel(s, from, id);
    AcceptKeepsDuty(s.workers[id], channel[0], n, key, (a, n) in s.broken);
    NothingOwedIsEmpty(s.workers[a], n, (a, n) in s.broken);
    hide Sound, Owes, Pending, Holds, Carries, Accept;
    assert forall m <- channel :: m == channel[0] || m in channel[1..];
  }

  lemma StepKeepsDelivered(s: State, step: Step, a: int, n: int, key: Bytes)
    requires Next(s, step).Some? && ValidTables(s) && Delivered(s, a, n, key)
    ensures Delivered(Next(s, step).value, a, n, key)
  {
    match step
    case Local(id, action) => LocalKeepsDelivered(s, id, action, a, n, key);
    case Receive(id, from) => ReceiveKeepsDelivered(s, id, from, a, n, key);
    case Serve(_) =>
    case Drop(_) =>
    case Lose(_, _) =>
  }

  lemma OutcomeKeepsTables(s: State, id: int, o: Outcome)
    requires ValidTables(s) && HashSpec.Valid(o.worker.table)
    ensures ValidTables(Apply(s, id, o))
  {
  }

  lemma StepKeepsTables(s: State, step: Step)
    requires Next(s, step).Some? && ValidTables(s)
    ensures ValidTables(Next(s, step).value)
  {
    hide Act, Apply;
    if step.Local? {
      var action := step.action;
      var s' := if action.Store? then s.(puts := s.puts + {action.pair}) else s;
      ActKeepsTable(s.workers[step.at], action, []);
      OutcomeKeepsTables(s', step.at, Act(s.workers[step.at], action).value);
    }
  }

  lemma {:induction false} RunKeepsDelivered(s: State, steps: seq<Step>, a: int, n: int, key: Bytes)
    requires Run(s, steps).Some? && ValidTables(s) && Delivered(s, a, n, key)
    ensures var s' := Run(s, steps).value; ValidTables(s') && Delivered(s', a, n, key)
    decreases |steps|
  {
    if steps != [] {
      StepKeepsTables(s, steps[0]);
      StepKeepsDelivered(s, steps[0], a, n, key);
      RunKeepsDelivered(Next(s, steps[0]).value, steps[1..], a, n, key);
    }
  }

  /** Nothing is left for n of what a's threads began, and n has taken in all it was sent. */
  predicate Settled(s: State, a: int, n: int)
    requires a in s.workers && n in s.workers
  {
    var w := s.workers[a];
    && n !in w.requests && (w.exporter.Idle? || w.exporter.target != n)
    && !w.receiver.Broadcasting?
    && Channel(s, a, n) == [] && s.workers[n].listener.Listening?
  }

  /**
   * However stores, broadcasts and the bucket-by-bucket export interleave: once
   * a's connection to n has drained without a failure, n has every key that a
   * stored for a client, before or after n was entered, and every key that was
   * in its bucket when the bucket was scanned.
   */
  lemma ExportComplete(ports: map<int, int>, steps: seq<Step>, a: int, n: int, key: Bytes)
    requires Run(Initial(ports), steps).Some? && a in ports && n in ports
    ensures var s := Run(Initial(ports), steps).value;
      && a in s.workers && n in s.workers
      && (n != NO_PEER && n in s.workers[a].owed && (a, n) !in s.broken && Settled(s, a, n)
          && (key in s.workers[a].stored || key in Scanned(s.workers[a], n)) ==>
            Has(s.workers[n].table, key))
  {
    var s0 := Initial(ports);
    RunKeepsDelivered(s0, steps, a, n, key);
  }

  // ===== Answers

  /**
   * In every run: a retrieve request that is served is answered with the value
   * that the table then has under the key, if there is one, and changes nothing
   * else; it waits only for the receiver and for the bucket's lock.
   */
  lemma RetrieveAnswers(ports: map<int, int>, steps: seq<Step>, id: int, key: Bytes)
    requires Run(Initial(ports), steps).Some? && id in Run(Initial(ports), steps).value.workers
    ensures var s := Run(Initial(ports), steps).value;
      var w := s.workers[id];
      var found := Contents(w.table);
      Next(s, Local(id, Retrieve(key))) ==
      if !w.receiver.Ready? || !Unlocked(w, key) then None
      else if key in found then Some(s.(answers := s.answers + {Pair(key, found[key])}))
      else Some(s)
  {
    RunKeepsTables(Initial(ports), steps);
    var s := Run(Initial(ports), steps).value;
    LookupIsContents(s.workers[id].table, key);
    assert s.workers[id := s.workers[id]] == s.workers;
  }

  lemma {:induction false} RunKeepsTables(s: State, steps: seq<Step>)
    requires Run(s, steps).Some? && ValidTables(s)
    ensures ValidTables(Run(s, steps).value)
    decreases |steps|
  {
    if steps != [] {
      StepKeepsTables(s, steps[0]);
      RunKeepsTables(Next(s, steps[0]).value, steps[1..]);
    }
  }

  // ===== Replicas hold what was put

  ghost function TablePairs(t: Table): set<Pair> {
    set b, i | 0 <= b < BUCKET_COUNT && 0 <= i < |t[b]| :: t[b][i]
  }

  ghost function PairsOf(chain: seq<Pair>): set<Pair> {
    set i | 0 <= i < |chain| :: chain[i]
  }

  /** Every pair a worker has anywhere: in its table and in the hands of its threads. */
  ghost function Known(w: Worker): set<Pair> {
    TablePairs(w.table)
    + (if w.receiver.Broadcasting? then {w.receiver.pair} else {})
    + (if w.listener.Checked? then {w.listener.pair} else {})
    + (if w.exporter.Scanning? && w.exporter.held.Some? then PairsOf(w.exporter.held.value) else {})
  }

  ghost function PairsIn(channel: seq<Message>): set<Pair> {
    set i | 0 <= i < |channel| && PairOf(channel[i]).Some? :: PairOf(channel[i]).value
  }

  ghost function Uttered(o: Output): set<Pair> {
    match o
    case Sent(_, m) => PairsIn([m])
    case Answered(p) => {p}
    case _ => {}
  }

  ghost function Put(a: Action): set<Pair> {
    if a.Store? then {a.pair} else {}
  }

  ghost predicate OnlyPuts(s: State) {
    && (forall id <- s.workers :: Known(s.workers[id]) <= s.puts)
    && (forall c <- s.channels :: PairsIn(s.channels[c]) <= s.puts)
    && s.answers <= s.puts
  }

  lemma SetAddsPair(t: Table, p: Pair)
    ensures TablePairs(Set(t, p.key, p.value)) <= TablePairs(t) + {p}
  {
    var t', h := Set(t, p.key, p.value), Bucket(p.key);
    forall b, i | 0 <= b < BUCKET_COUNT && 0 <= i < |t'[b]|
      ensures t'[b][i] in TablePairs(t) + {p}
    {
      if b == h && Find(t[h], p.key) == |t[h]| {
        assert i > 0 ==> t'[b][i] == t[b][i - 1];
      } else {
        assert t'[b][i] == p || t'[b][i] == t[b][i];
      }
    }
  }

  lemma LookupIsInTable(t: Table, key: Bytes)
    requires Has(t, key)
    ensures Pair(key, Lookup(t, key).value) in TablePairs(t)
  {
    var chain := t[Bucket(key)];
    assert chain[Find(chain, key)] == Pair(key, Lookup(t, key).value);
  }

  lemma ReceiverInventsNothing(w: Worker, a: Action)
    requires IsReceiverAction(a) && ReceiverStep(w, a).Some?
    ensures Known(ReceiverStep(w, a).value.worker) <= Known(w) + Put(a)
    ensures Uttered(ReceiverStep(w, a).value.output) <= Known(w) + Put(a)
  {
    match a
    case Store(p) => SetAddsPair(w.table, p);
    case Retrieve(key) =>
      if Has(w.table, key) {
        LookupIsInTable(w.table, key);
      }
    case _ =>
  }

  lemma ExportInventsNothing(w: Worker, a: Action)
    requires IsExportAction(a) && ExportStep(w, a).Some?
    ensures Known(ExportStep(w, a).value.worker) <= Known(w)
    ensures Uttered(ExportStep(w, a).value.output) <= Known(w)
  {
  }

  /** A thread knows and says only what its worker knew, or what it has just been given to store. */
  lemma ActInventsNothing(w: Worker, a: Action)
    requires Act(w, a).Some?
    ensures Known(Act(w, a).value.worker) <= Known(w) + Put(a)
    ensures Uttered(Act(w, a).value.output) <= Known(w) + Put(a)
  {
    if IsReceiverAction(a) {
      ReceiverInventsNothing(w, a);
    } else if IsExportAction(a) {
      ExportInventsNothing(w, a);
    } else {
      SetAddsPair(w.table, w.listener.pair);
    }
  }

  lemma SendingAddsPairs(s: State, id: int, o: Outcome, c: (int, int))
    requires c in Apply(s, id, o).channels
    ensures PairsIn(Apply(s, id, o).channels[c]) <=
              (if c in s.channels then PairsIn(s.channels[c]) else {}) + Uttered(o.output)
  {
    if o.output.Sent? && c == (id, o.output.to) {
      var before, m := Channel(s, id, o.output.to), o.output.message;
      forall i | 0 <= i < |before + [m]| && PairOf((before + [m])[i]).Some?
        ensures PairOf((before + [m])[i]).value in PairsIn(before) + PairsIn([m])
      {
        assert i == |before| ==> [m][0] == (before + [m])[i];
      }
    }
  }

  lemma OutcomeKeepsOnlyPuts(s: State, id: int, o: Outcome)
    requires OnlyPuts(s) && Known(o.worker) <= s.puts && Uttered(o.output) <= s.puts
    ensures OnlyPuts(Apply(s, id, o))
  {
    hide Known, PairsIn;
    var s' := Apply(s, id, o);
    forall c <- s'.channels
      ensures PairsIn(s'.channels[c]) <= s'.puts
    {
      SendingAddsPairs(s, id, o, c);
    }
  }

  lemma LocalKeepsOnlyPuts(s: State, id: int, action: Action)
    requires OnlyPuts(s) && Next(s, Local(id, action)).Some?
    ensures OnlyPuts(Next(s, Local(id, action)).value)
  {
    var s' := if action.Store? then s.(puts := s.puts + {action.pair}) else s;
    ActInventsNothing(s.workers[id], action);
    OutcomeKeepsOnlyPuts(s', id, Act(s.workers[id], action).value);
  }

  lemma ReceiveKeepsOnlyPuts(s: State, id: int, from: int)
    requires OnlyPuts(s) && Next(s, Receive(id, from)).Some?
    ensures OnlyPuts(Next(s, Receive(id, from)).value)
  {
    var channel := Channel(s, from, id);
    assert PairsIn(channel[1..]) <= PairsIn(channel) by {
      assert forall i :: 0 <= i < |channel[1..]| ==> channel[1..][i] == channel[i + 1];
    }
    assert PairOf(channel[0]).Some? ==> PairOf(channel[0]).value in PairsIn(channel);
  }

  lemma {:induction false} RunKeepsOnlyPuts(s: State, steps: seq<Step>)
    requires OnlyPuts(s) && Run(s, steps).Some?
    ensures OnlyPuts(Run(s, steps).value)
    decreases |steps|
  {
    if steps != [] {
      match steps[0] {
        case Local(id, action) => LocalKeepsOnlyPuts(s, id, action);
        case Receive(id, from) => ReceiveKeepsOnlyPuts(s, id, from);
        case Serve(_) =>
        case Drop(_) =>
        case Lose(_, _) =>
      }
      RunKeepsOnlyPuts(Next(s, steps[0]).value, steps[1..]);
    }
  }

  /** Every pair in a table, a thread's hands, a channel or an answer came in a store request. */
  lemma ReplicaSafety(ports: map<int, int>, steps: seq<Step>)
    requires Run(Initial(ports), steps).Some?
    ensures OnlyPuts(Run(Initial(ports), steps).value)
  {
    RunKeepsOnlyPuts(Initial(ports), steps);
  }

  ghost predicate WriteOnce(puts: set<Pair>) {
    forall p, q :: p in puts && q in puts && p.key == q.key ==> p == q
  }

  /** When no key is put with two values, replicas agree on their common keys, and with every answer. */
  lemma ReplicasAgree(ports: map<int, int>, steps: seq<Step>, a: int, n: int, key: Bytes)
    requires Run(Initial(ports), steps).Some? && WriteOnce(Run(Initial(ports), steps).value.puts)
    requires a in Run(Initial(ports), steps).value.workers && n in Run(Initial(ports), steps).value.workers
    ensures var s := Run(Initial(ports), steps).value;
      var ta, tn := s.workers[a].table, s.workers[n].table;
      && (Has(ta, key) && Has(tn, key) ==> Lookup(ta, key) == Lookup(tn, key))
      && (forall p <- s.answers :: p.key == key && Has(ta, key) ==> Lookup(ta, key) == Some(p.value))
      && (forall p <- s.answers, q <- s.puts :: p.key == q.key ==> p == q)
  {
    ReplicaSafety(ports, steps);
    var s := Run(Initial(ports), steps).value;
    forall id | id in {a, n} && Has(s.workers[id].table, key)
      ensures Pair(key, Lookup(s.workers[id].table, key).value) in s.puts
    {
      LookupIsInTable(s.workers[id].table, key);
      assert Known(s.workers[id]) <= s.puts;
    }
  }
}
