/**
 * Which keys reach a worker.  A worker offers a key to another in two ways only:
 * it broadcasts a key it has stored to the peers that are connected then, and it
 * exports the keys that a bucket has when it is scanned.  A key that a worker got
 * from a peer is not passed on, so these offers decide what the other will have.
 */
module KeyArrival {
  import opened Config
  import opened HashSpec
  import opened PeerSpec
  import opened Replication

  /** n was connected when the key was stored here, or the key was in its bucket when that was scanned for n. */
  predicate Offers(w: Worker, n: int, key: Bytes) {
    (n, key) in w.told || key in Scanned(w, n)
  }

  /** What is left of the bucket that is locked for n has the key. */
  predicate HeldFor(w: Worker, n: int, key: Bytes) {
    w.exporter.Scanning? && w.exporter.target == n && w.exporter.held.Some? && key in KeysOf(w.exporter.held.value)
  }

  /** An offer that has yet to be sent. */
  predicate Coming(w: Worker, n: int, key: Bytes) {
    NotifyPending(w, n, key) || HeldFor(w, n, key)
  }

  /** What always holds of a worker's offers. */
  ghost predicate Regular(w: Worker, n: int, key: Bytes) {
    && ValidPeers(w.peers)
    && ((n, key) in w.told ==> key in w.stored)
    && (Coming(w, n, key) ==> Offers(w, n, key))
  }

  predicate Sends(o: Outcome, n: int, key: Bytes) {
    o.output.Sent? && o.output.to == n && Carries(o.output.message, key)
  }

  /** A step of the offering worker: what it sends was offered, and an offer is sent unless the connection breaks. */
  ghost predicate KeepsOffers(w: Worker, o: Outcome, n: int, key: Bytes) {
    && Regular(o.worker, n, key)
    && (Offers(w, n, key) || Sends(o, n, key) ==> Offers(o.worker, n, key))
    && ((n, key) in o.worker.told && o.output != Broke(n) && ((n, key) in w.told ==> NotifyPending(w, n, key)) ==>
          NotifyPending(o.worker, n, key) || Sends(o, n, key))
    && (key in Scanned(o.worker, n) && o.output != Broke(n) && (key in Scanned(w, n) ==> HeldFor(w, n, key)) ==>
          HeldFor(o.worker, n, key) || Sends(o, n, key))
  }

  lemma ReachedIsInAudience(peers: seq<Peer>, n: int, key: Bytes)
    requires ValidPeers(peers)
    ensures (n, key) in Audience(peers, key) <==>
              FindPeer(peers, n) < |peers| && IsReached(peers[FindPeer(peers, n)])
  {
  }

  lemma StoreKeepsOffers(w: Worker, p: Pair, n: int, key: Bytes)
    requires ReceiverStep(w, Store(p)).Some? && Regular(w, n, key)
    ensures KeepsOffers(w, ReceiverStep(w, Store(p)).value, n, key)
  {
    ReachedIsInAudience(w.peers, n, p.key);
    hide FindPeer;
  }

  lemma NotifyKeepsOffers(w: Worker, sent: bool, n: int, key: Bytes)
    requires ReceiverStep(w, NotifySlot(sent)).Some? && Regular(w, n, key)
    ensures KeepsOffers(w, ReceiverStep(w, NotifySlot(sent)).value, n, key)
  {
    hide FindPeer;
  }

  lemma EndBroadcastKeepsOffers(w: Worker, n: int, key: Bytes)
    requires ReceiverStep(w, EndBroadcast).Some? && Regular(w, n, key)
    ensures KeepsOffers(w, ReceiverStep(w, EndBroadcast).value, n, key)
  {
    WithoutKeepsOrder(w.peers, w.receiver.failed);
  }

  lemma EnterKeepsOffers(w: Worker, a: Action, n: int, key: Bytes)
    requires a.Enter? && ReceiverStep(w, a).Some? && Regular(w, n, key)
    ensures KeepsOffers(w, ReceiverStep(w, a).value, n, key)
  {
    RegisterKeepsValid(w.peers, w.port, a.id, a.address, a.port, a.socket);
  }

  lemma SendEntryKeepsOffers(w: Worker, sent: bool, n: int, key: Bytes)
    requires ExportStep(w, SendEntry(sent)).Some? && Regular(w, n, key)
    ensures KeepsOffers(w, ExportStep(w, SendEntry(sent)).value, n, key)
  {
    hide FindPeer;
    var rest := w.exporter.held.value;
    assert rest == [rest[0]] + rest[1..];
  }

  lemma LockKeepsOffers(w: Worker, n: int, key: Bytes)
    requires ExportStep(w, LockBucket).Some? && Regular(w, n, key)
    ensures KeepsOffers(w, ExportStep(w, LockBucket).value, n, key)
  {
    hide FindPeer;
  }

  lemma ReceiverKeepsOffers(w: Worker, a: Action, n: int, key: Bytes)
    requires IsReceiverAction(a) && ReceiverStep(w, a).Some? && Regular(w, n, key)
    ensures KeepsOffers(w, ReceiverStep(w, a).value, n, key)
  {
    match a
    case Store(p) => StoreKeepsOffers(w, p, n, key);
    case NotifySlot(sent) => NotifyKeepsOffers(w, sent, n, key);
    case EndBroadcast => EndBroadcastKeepsOffers(w, n, key);
    case Enter(_, _, _, _, _) => EnterKeepsOffers(w, a, n, key);
    case Retrieve(_) =>
    case RequestExport =>
  }

  lemma ExportKeepsOffers(w: Worker, a: Action, n: int, key: Bytes)
    requires IsExportAction(a) && ExportStep(w, a).Some? && Regular(w, n, key)
    ensures KeepsOffers(w, ExportStep(w, a).value, n, key)
  {
    hide ValidPeers, FindPeer;
    match a
    case LockBucket => LockKeepsOffers(w, n, key);
    case SendEntry(sent) => SendEntryKeepsOffers(w, sent, n, key);
    case _ =>
  }

  lemma InsertKeepsOffers(w: Worker, n: int, key: Bytes)
    requires InsertStep(w).Some? && Regular(w, n, key)
    ensures KeepsOffers(w, InsertStep(w).value, n, key)
  {
    hide ValidPeers;
  }

  lemma ActKeepsOffers(w: Worker, a: Action, n: int, key: Bytes)
    requires Act(w, a).Some? && Regular(w, n, key)
    ensures KeepsOffers(w, Act(w, a).value, n, key)
  {
    hide ReceiverStep, ExportStep, InsertStep, KeepsOffers, Regular;
    if IsReceiverAction(a) {
      ReceiverKeepsOffers(w, a, n, key);
    } else if IsExportAction(a) {
      ExportKeepsOffers(w, a, n, key);
    } else {
      InsertKeepsOffers(w, n, key);
    }
  }

  /** A step adds a key to what a worker holds only by storing it. */
  lemma ActHoldsStored(w: Worker, a: Action, key: Bytes)
    requires Act(w, a).Some?
    ensures var w' := Act(w, a).value.worker;
      w.stored <= w'.stored && (Holds(w', key) ==> Holds(w, key) || key in w'.stored)
  {
    match a
    case Store(p) => SetKeepsHas(w.table, p, key);
    case Insert => SetKeepsHas(w.table, w.listener.pair, key);
    case _ =>
  }

  // ===== Nothing else arrives

  ghost predicate IsOffered(s: State, n: int, key: Bytes) {
    exists a <- s.workers :: Offers(s.workers[a], n, key)
  }

  /** Whatever is on its way to n was offered to it, and what n has was offered or stored. */
  ghost predicate Traced(s: State, n: int, key: Bytes) {
    && (forall a <- s.workers :: Regular(s.workers[a], n, key))
    && (forall a :: InFlight(Channel(s, a, n), key) ==> a in s.workers && Offers(s.workers[a], n, key))
    && (n in s.workers && Holds(s.workers[n], key) ==> key in s.workers[n].stored || IsOffered(s, n, key))
  }

  lemma SentIsInFlight(s: State, id: int, o: Outcome, a: int, n: int, key: Bytes)
    ensures InFlight(Channel(Apply(s, id, o), a, n), key) <==>
              InFlight(Channel(s, a, n), key) || (id == a && Sends(o, n, key))
  {
    SendingKeepsInFlight(s, id, o, a, n, key);
    var before, after := Channel(s, a, n), Channel(Apply(s, id, o), a, n);
    assert after == if id == a && o.output.Sent? && o.output.to == n then before + [o.output.message] else before;
  }

  lemma OutcomeKeepsTraced(s: State, id: int, o: Outcome, n: int, key: Bytes)
    requires id in s.workers && Traced(s, n, key) && KeepsOffers(s.workers[id], o, n, key)
    requires s.workers[id].stored <= o.worker.stored
    requires Holds(o.worker, key) ==> Holds(s.workers[id], key) || key in o.worker.stored
    ensures Traced(Apply(s, id, o), n, key)
  {
    hide Apply, Regular, InFlight, Holds, Offers, Sends, Channel;
    var s' := Apply(s, id, o);
    OutcomeChangesWorker(s, id, o);
    forall a
      ensures InFlight(Channel(s', a, n), key) ==> a in s'.workers && Offers(s'.workers[a], n, key)
    {
      SentIsInFlight(s, id, o, a, n, key);
    }
    if IsOffered(s, n, key) {
      var a :| a in s.workers && Offers(s.workers[a], n, key);
      assert Offers(s'.workers[a], n, key);
    }
  }

  lemma AcceptKeepsOffers(w: Worker, m: Message, n: int, key: Bytes)
    requires Accept(w, m).Some?
    ensures var w' := Accept(w, m).value;
      && Regular(w', n, key) == Regular(w, n, key)
      && w'.told == w.told && Scanned(w', n) == Scanned(w, n) && Offers(w', n, key) == Offers(w, n, key)
      && NotifyPending(w', n, key) == NotifyPending(w, n, key) && HeldFor(w', n, key) == HeldFor(w, n, key)
      && w'.stored == w.stored && (Holds(w', key) ==> Holds(w, key) || Carries(m, key))
  {
    hide ValidPeers, FindPeer;
  }

  lemma FirstTaken(channel: seq<Message>, key: Bytes)
    requires channel != []
    ensures InFlight(channel, key) <==> Carries(channel[0], key) || InFlight(channel[1..], key)
  {
    assert channel == [channel[0]] + channel[1..];
  }

  lemma ReceiveKeepsTraced(s: State, id: int, from: int, n: int, key: Bytes)
    requires Next(s, Receive(id, from)).Some? && Traced(s, n, key)
    ensures Traced(Next(s, Receive(id, from)).value, n, key)
  {
    hide Accept, Regular, Holds, Offers, Carries, InFlight;
    var s', channel := Next(s, Receive(id, from)).value, Channel(s, from, id);
    AcceptKeepsOffers(s.workers[id], channel[0], n, key);
    FirstTaken(channel, key);
    assert forall a :: Channel(s', a, n) == if (a, n) == (from, id) then channel[1..] else Channel(s, a, n);
    if IsOffered(s, n, key) {
      var a :| a in s.workers && Offers(s.workers[a], n, key);
      assert Offers(s'.workers[a], n, key);
    }
    if id == n && Carries(channel[0], key) {
      assert InFlight(channel, key);
      assert Offers(s'.workers[from], n, key);
    }
  }

  lemma LocalKeepsTraced(s: State, id: int, action: Action, n: int, key: Bytes)
    requires Next(s, Local(id, action)).Some? && Traced(s, n, key)
    ensures Traced(Next(s, Local(id, action)).value, n, key)
  {
    hide Act, Apply, KeepsOffers, Regular, Holds, Offers, InFlight;
    var s1 := if action.Store? then s.(puts := s.puts + {action.pair}) else s;
    ActKeepsOffers(s.workers[id], action, n, key);
    ActHoldsStored(s.workers[id], action, key);
    assert Traced(s1, n, key);
    OutcomeKeepsTraced(s1, id, Act(s.workers[id], action).value, n, key);
  }

  lemma StepKeepsTraced(s: State, step: Step, n: int, key: Bytes)
    requires Next(s, step).Some? && Traced(s, n, key)
    ensures Traced(Next(s, step).value, n, key)
  {
    hide Regular, Holds, Offers, Act, Apply, Accept;
    match step
    case Local(id, action) => LocalKeepsTraced(s, id, action, n, key);
    case Receive(id, from) => ReceiveKeepsTraced(s, id, from, n, key);
    case Serve(_) =>
    case Drop(_) =>
    case Lose(_, _) =>
  }

  // ===== Every offer arrives

  /** An offer on a connection that has not failed is still to be sent, on its way, or taken in. */
  ghost predicate Arriving(s: State, a: int, n: int, key: Bytes) {
    && a in s.workers && n in s.workers
    && ((a, n) !in s.broken && !InFlight(Channel(s, a, n), key) && !Holds(s.workers[n], key) ==>
          && ((n, key) in s.workers[a].told ==> NotifyPending(s.workers[a], n, key))
          && (key in Scanned(s.workers[a], n) ==> HeldFor(s.workers[a], n, key)))
  }

  lemma NoEmptyKeyIsOffered(w: Worker, n: int, broken: bool)
    requires HashSpec.Valid(w.table) && Sound(w, n, [], broken) && Regular(w, n, [])
    ensures !Offers(w, n, [])
  {
    assert ValidChain(w.table[Bucket([])], Bucket([]));
  }

  lemma OutcomeKeepsArriving(s: State, id: int, o: Outcome, a: int, n: int, key: Bytes)
    requires id in s.workers && Arriving(s, a, n, key)
    requires id == a ==> KeepsOffers(s.workers[a], o, n, key)
    requires key != [] && Holds(s.workers[id], key) ==> Holds(o.worker, key)
    requires key == [] ==> !Offers(if id == a then o.worker else s.workers[a], n, key)
    ensures Arriving(Apply(s, id, o), a, n, key)
  {
    hide Regular, InFlight, Holds, Scanned, NotifyPending, HeldFor, Carries;
    SentIsInFlight(s, id, o, a, n, key);
  }

  lemma LocalKeepsArriving(s: State, id: int, action: Action, a: int, n: int, key: Bytes)
    requires Next(s, Local(id, action)).Some? && ValidTables(s)
    requires Traced(s, n, key) && Delivered(s, a, n, key) && Arriving(s, a, n, key)
    ensures Arriving(Next(s, Local(id, action)).value, a, n, key)
  {
    hide Act, Apply, Regular, Holds, Offers, Coming, InFlight, Sound, Owes;
    var s1 := if action.Store? then s.(puts := s.puts + {action.pair}) else s;
    var o := Act(s.workers[id], action).value;
    var broken := (a, n) in s.broken;
    ActKeepsOffers(s.workers[id], action, n, key);
    ActKeepsTable(s.workers[id], action, key);
    if key == [] {
      NoEmptyKeyIsOffered(s.workers[a], n, broken);
      if id == a {
        ActKeepsDuty(s.workers[a], action, n, key, broken);
        NoEmptyKeyIsOffered(o.worker, n, broken || o.output == Broke(n));
      }
    }
    OutcomeKeepsArriving(s1, id, o, a, n, key);
  }

  lemma ReceiveKeepsArriving(s: State, id: int, from: int, a: int, n: int, key: Bytes)
    requires Next(s, Receive(id, from)).Some? && ValidTables(s)
    requires Traced(s, n, key) && Delivered(s, a, n, key) && Arriving(s, a, n, key)
    ensures Arriving(Next(s, Receive(id, from)).value, a, n, key)
  {
    var channel := Channel(s, from, id);
    AcceptKeepsOffers(s.workers[id], channel[0], n, key);
    AcceptKeepsDuty(s.workers[id], channel[0], n, key, (a, n) in s.broken);
    if key == [] {
      NoEmptyKeyIsOffered(s.workers[a], n, (a, n) in s.broken);
    }
    hide Regular, Sound, Owes, Pending, Offers, Coming, Holds, Carries, Accept;
    assert forall m <- channel :: m == channel[0] || m in channel[1..];
  }

  lemma StepKeepsArriving(s: State, step: Step, a: int, n: int, key: Bytes)
    requires Next(s, step).Some? && ValidTables(s)
    requires Traced(s, n, key) && Delivered(s, a, n, key) && Arriving(s, a, n, key)
    ensures Arriving(Next(s, step).value, a, n, key)
  {
    hide Regular, Holds, Offers, Coming, Act, Apply, Accept;
    match step
    case Local(id, action) => LocalKeepsArriving(s, id, action, a, n, key);
    case Receive(id, from) => ReceiveKeepsArriving(s, id, from, a, n, key);
    case Serve(_) =>
    case Drop(_) =>
    case Lose(_, _) =>
  }

  /** All that is kept about a, n and the key. */
  ghost predicate Inv(s: State, a: int, n: int, key: Bytes) {
    ValidTables(s) && Traced(s, n, key) && Delivered(s, a, n, key) && Arriving(s, a, n, key)
  }

  lemma StepKeepsInv(s: State, step: Step, a: int, n: int, key: Bytes)
    requires Next(s, step).Some? && Inv(s, a, n, key)
    ensures Inv(Next(s, step).value, a, n, key)
  {
    hide ValidTables, Traced, Delivered, Arriving, Next;
    StepKeepsTables(s, step);
    StepKeepsTraced(s, step, n, key);
    StepKeepsDelivered(s, step, a, n, key);
    StepKeepsArriving(s, step, a, n, key);
  }

  lemma {:induction false} RunKeepsInv(s: State, steps: seq<Step>, a: int, n: int, key: Bytes)
    requires Run(s, steps).Some? && Inv(s, a, n, key)
    ensures Inv(Run(s, steps).value, a, n, key)
    decreases |steps|
  {
    hide Inv, Next;
    if steps != [] {
      StepKeepsInv(s, steps[0], a, n, key);
      RunKeepsInv(Next(s, steps[0]).value, steps[1..], a, n, key);
    }
  }

  lemma InitiallyInv(ports: map<int, int>, a: int, n: int, key: Bytes)
    requires a in ports && n in ports
    ensures Inv(Initial(ports), a, n, key)
  {
  }

  /** n has taken in all that a sent it. */
  predicate IsRead(s: State, a: int, n: int)
    requires n in s.workers
  {
    Channel(s, a, n) == [] && s.workers[n].listener.Listening?
  }

  predicate HoldsBucketFor(w: Worker, n: int) {
    w.exporter.Scanning? && w.exporter.target == n && w.exporter.held.Some?
  }

  /**
   * In every run, once n has read what came over a's unbroken connection: it has
   * each key that a stored while n was connected, unless a broadcast is under
   * way, and each key of a bucket scanned for n, unless that is locked.
   */
  lemma OfferedKeyArrives(ports: map<int, int>, steps: seq<Step>, a: int, n: int, key: Bytes)
    requires Run(Initial(ports), steps).Some? && a in ports && n in ports
    ensures var s := Run(Initial(ports), steps).value;
      && a in s.workers && n in s.workers
      && ((a, n) !in s.broken && IsRead(s, a, n) ==>
            && ((n, key) in s.workers[a].told && !s.workers[a].receiver.Broadcasting? ==> Has(s.workers[n].table, key))
            && (key in Scanned(s.workers[a], n) && !HoldsBucketFor(s.workers[a], n) ==> Has(s.workers[n].table, key)))
  {
    InitiallyInv(ports, a, n, key);
    RunKeepsInv(Initial(ports), steps, a, n, key);
    hide Run, ValidTables, Regular, Sound;
  }

  lemma StepKeepsWorkers(s: State, step: Step)
    requires Next(s, step).Some?
    ensures Next(s, step).value.workers.Keys == s.workers.Keys
  {
    hide Act, Apply, Accept;
    if step.Local? {
      var action := step.action;
      var s1 := if action.Store? then s.(puts := s.puts + {action.pair}) else s;
      OutcomeChangesWorker(s1, step.at, Act(s.workers[step.at], action).value);
    }
  }

  lemma {:induction false} RunKeepsWorkers(s: State, steps: seq<Step>)
    requires Run(s, steps).Some?
    ensures Run(s, steps).value.workers.Keys == s.workers.Keys
    decreases |steps|
  {
    hide Next;
    if steps != [] {
      StepKeepsWorkers(s, steps[0]);
      RunKeepsWorkers(Next(s, steps[0]).value, steps[1..]);
    }
  }

  /** No connection to n has failed, and nothing is on its way to it. */
  ghost predicate AllArrived(s: State, n: int)
    requires n in s.workers
  {
    forall a <- s.workers ::
      && (a, n) !in s.broken && IsRead(s, a, n)
      && !s.workers[a].receiver.Broadcasting? && !HoldsBucketFor(s.workers[a], n)
  }

  /**
   * In every run, n has only keys that were stored there for a client, or stored
   * at a worker to which n was connected at the time, or in a bucket when some
   * worker scanned it for n; and it has all of these once no connection to n has
   * failed and nothing is on its way.
   */
  lemma HasIffStoredOrOffered(ports: map<int, int>, steps: seq<Step>, n: int, key: Bytes)
    requires Run(Initial(ports), steps).Some? && n in ports
    ensures var s := Run(Initial(ports), steps).value;
      && n in s.workers
      && (Has(s.workers[n].table, key) ==> key in s.workers[n].stored || IsOffered(s, n, key))
      && (AllArrived(s, n) ==>
            (Has(s.workers[n].table, key) <==> key in s.workers[n].stored || IsOffered(s, n, key)))
  {
    InitiallyInv(ports, n, n, key);
    RunKeepsInv(Initial(ports), steps, n, n, key);
    var s := Run(Initial(ports), steps).value;
    RunKeepsWorkers(Initial(ports), steps);
    hide Run;
    if AllArrived(s, n) && IsOffered(s, n, key) {
      var a :| a in s.workers && Offers(s.workers[a], n, key);
      OfferedKeyArrives(ports, steps, a, n, key);
    }
  }

  // ===== Every key stored while the other is connected

  /** The worker is connected to n, and has stored the key only while it was. */
  predicate Linked(w: Worker, n: int, key: Bytes) {
    ConnectionTo(w.peers, n) != Invalid && (key in w.stored ==> (n, key) in w.told)
  }

  lemma StoreKeepsLinked(w: Worker, p: Pair, n: int, key: Bytes)
    requires ReceiverStep(w, Store(p)).Some? && ValidPeers(w.peers) && n != NO_PEER && Linked(w, n, key)
    ensures Linked(ReceiverStep(w, Store(p)).value.worker, n, key)
  {
    ReachedIsInAudience(w.peers, n, p.key);
  }

  lemma ActKeepsLinked(w: Worker, a: Action, n: int, key: Bytes)
    requires Act(w, a).Some? && ValidPeers(w.peers) && n != NO_PEER
    requires Sound(w, n, key, false) && Linked(w, n, key)
    ensures Linked(Act(w, a).value.worker, n, key)
  {
    match a
    case Store(p) => StoreKeepsLinked(w, p, n, key);
    case EndBroadcast => WithoutKeepsConnection(w.peers, w.receiver.failed, n);
    case Enter(id, address, port, socket, _) =>
      RegisterKeepsConnection(w.peers, w.port, id, address, port, socket, n);
    case _ =>
  }

  lemma AcceptKeepsLinked(w: Worker, m: Message, n: int, key: Bytes)
    requires Accept(w, m).Some?
    ensures Linked(Accept(w, m).value, n, key) == Linked(w, n, key)
  {
  }

  lemma OutcomeKeepsBroken(s: State, id: int, o: Outcome)
    ensures s.broken <= Apply(s, id, o).broken
  {
  }

  lemma StepKeepsLinked(s: State, step: Step, a: int, n: int, key: Bytes)
    requires Next(s, step).Some? && Inv(s, a, n, key) && n != NO_PEER
    requires (a, n) !in s.broken ==> Linked(s.workers[a], n, key)
    ensures var s' := Next(s, step).value;
      && a in s'.workers && s.broken <= s'.broken && ((a, n) !in s'.broken ==> Linked(s'.workers[a], n, key))
  {
    hide Act, Apply, Accept, Linked, Sound, Owes, Pending, Coming, Offers;
    match step
    case Local(id, action) =>
      var s1 := if action.Store? then s.(puts := s.puts + {action.pair}) else s;
      var o := Act(s.workers[id], action).value;
      OutcomeChangesWorker(s1, id, o);
      OutcomeKeepsBroken(s1, id, o);
      if id == a && (a, n) !in s.broken {
        ActKeepsLinked(s.workers[a], action, n, key);
      }
    case Receive(id, from) => AcceptKeepsLinked(s.workers[id], Channel(s, from, id)[0], n, key);
    case _ =>
  }

  lemma {:induction false} RunKeepsLinked(s: State, steps: seq<Step>, a: int, n: int, key: Bytes)
    requires Run(s, steps).Some? && Inv(s, a, n, key) && n != NO_PEER
    requires (a, n) !in s.broken ==> Linked(s.workers[a], n, key)
    ensures var s' := Run(s, steps).value;
      a in s'.workers && s.broken <= s'.broken && ((a, n) !in s'.broken ==> Linked(s'.workers[a], n, key))
    decreases |steps|
  {
    if steps != [] {
      StepKeepsLinked(s, steps[0], a, n, key);
      StepKeepsInv(s, steps[0], a, n, key);
      RunKeepsLinked(Next(s, steps[0]).value, steps[1..], a, n, key);
    }
  }

  /**
   * From any state of any run in which a is connected to n: however the run goes
   * on, each key that a stores anew is at n once n has read what came over the
   * unbroken connection and no broadcast is under way.
   */
  lemma StoredKeyArrives(
    ports: map<int, int>, before: seq<Step>, s: State, more: seq<Step>, a: int, n: int, key: Bytes)
    requires Run(Initial(ports), before) == Some(s) && Run(s, more).Some? && a in s.workers && n in s.workers
    requires n != NO_PEER && ConnectionTo(s.workers[a].peers, n) != Invalid && key !in s.workers[a].stored
    ensures var s' := Run(s, more).value;
      && a in s'.workers && n in s'.workers
      && ((a, n) !in s'.broken && IsRead(s', a, n) && !s'.workers[a].receiver.Broadcasting?
          && key in s'.workers[a].stored ==>
            Has(s'.workers[n].table, key))
  {
    RunKeepsWorkers(Initial(ports), before);
    InitiallyInv(ports, a, n, key);
    RunKeepsInv(Initial(ports), before, a, n, key);
    RunKeepsInv(s, more, a, n, key);
    RunKeepsLinked(s, more, a, n, key);
    hide Run, ValidTables, Traced, Delivered, ConnectionTo;
  }
}
