/**
 * The actions of one worker of module Replication, several at a time: the steps
 * of a store, of a broadcast and of an export, taken without interruption, do
 * what the call does as a whole.
 */
module ReplicationRuns {
  import opened Config
  import opened HashSpec
  import opened PeerSpec
  import opened Replication

  // ===== Several actions of one worker

  type Deeds = (Worker, seq<Output>)

  function Spoken(o: Output): seq<Output> {
    if o.Nothing? then [] else [o]
  }

  function AndThen(w: Worker, sent: seq<Output>, a: Action): Option<Deeds> {
    match Act(w, a)
    case None => None
    case Some(o) => Some((o.worker, sent + Spoken(o.output)))
  }

  /** The worker after the actions, and what they did to connections, in order. */
  function ActAll(w: Worker, actions: seq<Action>): Option<Deeds> {
    if actions == [] then Some((w, []))
    else
      match ActAll(w, actions[..|actions| - 1])
      case None => None
      case Some((w', sent)) => AndThen(w', sent, actions[|actions| - 1])
  }

  lemma NothingDone(w: Worker)
    ensures ActAll(w, []) == Some((w, []))
  {
  }

  lemma ActOne(w: Worker, actions: seq<Action>, w1: Worker, sent: seq<Output>, a: Action)
    requires ActAll(w, actions) == Some((w1, sent))
    ensures ActAll(w, actions + [a]) == AndThen(w1, sent, a)
  {
    hide AndThen;
    assert (actions + [a])[..|actions + [a]| - 1] == actions;
  }

  lemma AndThenMore(w: Worker, sent: seq<Output>, more: seq<Output>, a: Action)
    requires AndThen(w, more, a).Some?
    ensures var (w', all) := AndThen(w, more, a).value; AndThen(w, sent + more, a) == Some((w', sent + all))
  {
    var o := Act(w, a).value;
    assert (sent + more) + Spoken(o.output) == sent + (more + Spoken(o.output));
  }

  lemma {:induction false} ActMore(w: Worker, xs: seq<Action>, w1: Worker, sent: seq<Output>, ys: seq<Action>)
    requires ActAll(w, xs) == Some((w1, sent)) && ActAll(w1, ys).Some?
    ensures var (w2, more) := ActAll(w1, ys).value; ActAll(w, xs + ys) == Some((w2, sent + more))
  {
    hide AndThen;
    if ys == [] {
      assert xs + ys == xs && sent + [] == sent;
    } else {
      var front, last := ys[..|ys| - 1], ys[|ys| - 1];
      ActMore(w, xs, w1, sent, front);
      assert xs + ys == (xs + front) + [last];
      var (w2, more) := ActAll(w1, front).value;
      ActOne(w, xs + front, w2, sent + more, last);
      AndThenMore(w2, sent, more, last);
    }
  }

  // ===== A broadcast

  function Notifications(send: nat -> int, n: nat): seq<Action> {
    if n == 0 then [] else Notifications(send, n - 1) + [NotifySlot(send(n - 1) > 0)]
  }

  /** What a broadcast does to the connection of one peer. */
  function Notice(peer: Peer, p: Pair, ok: bool): Output {
    if !IsReached(peer) then Nothing else if ok then Sent(peer.workerId, Notify(p)) else Broke(peer.workerId)
  }

  /** What it does to those of the first n slots. */
  function Notices(peers: seq<Peer>, send: nat -> int, p: Pair, n: nat): seq<Output>
    requires n <= |peers|
  {
    if n == 0 then [] else Notices(peers, send, p, n - 1) + Spoken(Notice(peers[n - 1], p, send(n - 1) > 0))
  }

  lemma NotifyOne(w: Worker, p: Pair, n: nat, failed: seq<int>, sent: seq<Output>, ok: bool)
    requires n < |w.peers|
    ensures var peer := w.peers[n];
      AndThen(w.(receiver := Broadcasting(p, n, failed)), sent, NotifySlot(ok)) ==
      Some((w.(receiver := Broadcasting(
                 p, n + 1, failed + if IsReached(peer) && !ok then [peer.workerId] else [])),
            sent + Spoken(Notice(peer, p, ok))))
  {
    assert failed + [] == failed;
  }

  lemma {:induction false} NotifyFirst(w: Worker, send: nat -> int, p: Pair, n: nat)
    requires w.receiver == Broadcasting(p, 0, []) && n <= |w.peers|
    ensures ActAll(w, Notifications(send, n)) ==
              Some((w.(receiver := Broadcasting(p, n, Failed(w.peers, send, n))), Notices(w.peers, send, p, n)))
  {
    if n == 0 {
      assert w.(receiver := Broadcasting(p, 0, [])) == w;
    } else {
      var failed, sent, ok := Failed(w.peers, send, n - 1), Notices(w.peers, send, p, n - 1), send(n - 1) > 0;
      var before := w.(receiver := Broadcasting(p, n - 1, failed));
      var peer := w.peers[n - 1];
      assert Failed(w.peers, send, n) == failed + (if IsReached(peer) && !ok then [peer.workerId] else []);
      NotifyFirst(w, send, p, n - 1);
      hide AndThen, ActAll, Failed;
      ActOne(w, Notifications(send, n - 1), before, sent, NotifySlot(ok));
      NotifyOne(w, p, n - 1, failed, sent, ok);
    }
  }

  /** The worker once a client's pair is in its table. */
  function Stored(w: Worker, p: Pair): Worker {
    Holding(w, p).(stored := w.stored + {p.key}, told := w.told + Audience(w.peers, p.key),
                   listener := Overtaken(w.listener, p))
  }

  lemma StoreOne(w: Worker, p: Pair)
    requires w.receiver.Ready? && Unlocked(w, p.key) && p.key != []
    ensures ActAll(w, [Store(p)]) == Some((Stored(w, p).(receiver := Broadcasting(p, 0, [])), []))
  {
    ActOne(w, [], w, [], Store(p));
    assert [] + [Store(p)] == [Store(p)] && [] + Spoken(Nothing) == [];
  }

  lemma BroadcastEnds(w: Worker, p: Pair, failed: seq<int>, sent: seq<Output>)
    ensures AndThen(w.(receiver := Broadcasting(p, |w.peers|, failed)), sent, EndBroadcast) ==
              Some((w.(peers := Without(w.peers, failed), receiver := Ready), sent + [Closed(failed)]))
  {
  }

  function StoreActions(peers: seq<Peer>, send: nat -> int, p: Pair): seq<Action> {
    ([Store(p)] + Notifications(send, |peers|)) + [EndBroadcast]
  }

  function StoreOutputs(peers: seq<Peer>, send: nat -> int, p: Pair): seq<Output> {
    Notices(peers, send, p, |peers|) + [Closed(Failed(peers, send, |peers|))]
  }

  /** A store request without interruption: the table, the peers and the notices of BroadcastData. */
  lemma WholeStore(w: Worker, send: nat -> int, p: Pair)
    requires w.receiver.Ready? && Unlocked(w, p.key) && p.key != []
    ensures ActAll(w, StoreActions(w.peers, send, p)) ==
              Some((Stored(w, p).(peers := Survivors(w.peers, send)), StoreOutputs(w.peers, send, p)))
  {
    var w1 := Stored(w, p);
    assert w1.peers == w.peers;
    hide AndThen, ActAll, Notifications, Notices, Failed, Without, Stored;
    var notices, failed := Notices(w.peers, send, p, |w.peers|), Failed(w.peers, send, |w.peers|);
    StoreOne(w, p);
    NotifyFirst(w1.(receiver := Broadcasting(p, 0, [])), send, p, |w.peers|);
    ActMore(w, [Store(p)], w1.(receiver := Broadcasting(p, 0, [])), [], Notifications(send, |w.peers|));
    NothingBefore(notices);
    ActOne(w, [Store(p)] + Notifications(send, |w.peers|),
           w1.(receiver := Broadcasting(p, |w.peers|, failed)), notices, EndBroadcast);
    BroadcastEnds(w1, p, failed, notices);
  }

  // ===== An export

  function Times(a: Action, n: nat): seq<Action> {
    if n == 0 then [] else Times(a, n - 1) + [a]
  }

  function DataTo(target: int, pairs: seq<Pair>): seq<Output> {
    if pairs == [] then []
    else DataTo(target, pairs[..|pairs| - 1]) + [Sent(target, Export(Data(pairs[|pairs| - 1])))]
  }

  lemma DataToLast(target: int, pairs: seq<Pair>)
    requires pairs != []
    ensures var front, last := pairs[..|pairs| - 1], pairs[|pairs| - 1];
      DataTo(target, pairs) == DataTo(target, front) + [Sent(target, Export(Data(last)))]
  {
  }

  lemma {:induction false} DataToBoth(target: int, xs: seq<Pair>, ys: seq<Pair>)
    ensures DataTo(target, xs + ys) == DataTo(target, xs) + DataTo(target, ys)
  {
    if ys == [] {
      assert xs + ys == xs;
    } else {
      assert (xs + ys)[..|xs + ys| - 1] == xs + ys[..|ys| - 1];
      DataToBoth(target, xs, ys[..|ys| - 1]);
    }
  }

  /** The worker with k more entries sent. */
  function Exported(w: Worker, k: nat): Worker {
    w.(tally := w.tally.(exported := w.tally.exported + k))
  }

  function AtExport(w: Worker, e: Exporter): Worker {
    w.(exporter := e)
  }

  lemma CountOne(w: Worker, e: Exporter, b: nat, total: nat)
    requires (e.Counting? || e.Announcing?) && b < BUCKET_COUNT
    ensures AndThen(AtExport(w, e.(bucket := b, total := total)), [], CountBucket) ==
              Some((AtExport(w, e.(bucket := b + 1, total := total + |w.table[b]|)), []))
  {
    assert [] + Spoken(Nothing) == [];
  }

  /** A count of all buckets finds the number of pairs. */
  lemma {:induction false} CountFirst(w: Worker, e: Exporter, n: nat)
    requires (e.Counting? || e.Announcing?) && e.bucket == 0 && e.total == 0 && n <= BUCKET_COUNT
    ensures ActAll(AtExport(w, e), Times(CountBucket, n)) ==
              Some((AtExport(w, e.(bucket := n, total := |Flat(w.table, n)|)), []))
  {
    hide AndThen;
    if n > 0 {
      var total := |Flat(w.table, n - 1)|;
      CountFirst(w, e, n - 1);
      ActOne(AtExport(w, e), Times(CountBucket, n - 1), AtExport(w, e.(bucket := n - 1, total := total)), [],
             CountBucket);
      CountOne(w, e, n - 1, total);
    } else {
      assert e.(bucket := 0, total := 0) == e;
    }
  }

  lemma EntrySent(w: Worker, target: int, b: nat, rest: seq<Pair>, sent: seq<Output>)
    requires rest != []
    ensures AndThen(AtExport(w, Scanning(target, b, Some(rest))), sent, SendEntry(true)) ==
              Some((AtExport(Exported(w, 1), Scanning(target, b, Some(rest[1..]))),
                    sent + [Sent(target, Export(Data(rest[0])))]))
  {
  }

  lemma {:induction false} EntriesFirst(w: Worker, target: int, b: nat, chain: seq<Pair>, k: nat)
    requires k <= |chain|
    ensures ActAll(AtExport(w, Scanning(target, b, Some(chain))), Times(SendEntry(true), k)) ==
              Some((AtExport(Exported(w, k), Scanning(target, b, Some(chain[k..]))), DataTo(target, chain[..k])))
  {
    hide AndThen;
    var start := AtExport(w, Scanning(target, b, Some(chain)));
    if k > 0 {
      var w1, rest, sent := Exported(w, k - 1), chain[k - 1..], DataTo(target, chain[..k - 1]);
      EntriesFirst(w, target, b, chain, k - 1);
      ActOne(start, Times(SendEntry(true), k - 1), AtExport(w1, Scanning(target, b, Some(rest))), sent,
             SendEntry(true));
      EntrySent(w1, target, b, rest, sent);
      assert rest[1..] == chain[k..] && chain[..k][..k - 1] == chain[..k - 1];
    } else {
      assert chain[0..] == chain;
    }
  }

  function ScanBucket(chain: seq<Pair>): seq<Action> {
    [LockBucket] + Times(SendEntry(true), |chain|) + [UnlockBucket]
  }

  function ScanActions(t: Table, n: nat): seq<Action>
    requires n <= BUCKET_COUNT
  {
    if n == 0 then [] else ScanActions(t, n - 1) + ScanBucket(t[n - 1])
  }

  function Seen(w: Worker, target: int, b: nat): Worker
    requires b < BUCKET_COUNT
  {
    w.(scanned := w.scanned[target := Scanned(w, target) + KeysOf(w.table[b])])
  }

  function AfterBucket(w: Worker, target: int, b: nat): Worker
    requires b < BUCKET_COUNT
  {
    Exported(Seen(w, target, b), |w.table[b]|)
  }

  lemma BucketLocked(w: Worker, target: int, b: nat)
    requires b < BUCKET_COUNT
    ensures ActAll(AtExport(w, Scanning(target, b, None)), [LockBucket]) ==
              Some((AtExport(Seen(w, target, b), Scanning(target, b, Some(w.table[b]))), []))
  {
    ActOne(AtExport(w, Scanning(target, b, None)), [], AtExport(w, Scanning(target, b, None)), [], LockBucket);
    assert [] + [LockBucket] == [LockBucket] && [] + Spoken(Nothing) == [];
  }

  lemma BucketUnlocked(w: Worker, target: int, b: nat, sent: seq<Output>)
    ensures AndThen(AtExport(w, Scanning(target, b, Some([]))), sent, UnlockBucket) ==
              Some((AtExport(w, Scanning(target, b + 1, None)), sent))
  {
    assert sent + Spoken(Nothing) == sent;
  }

  /** The scan of one bucket sends its chain. */
  lemma BucketScanned(w: Worker, target: int, b: nat)
    requires b < BUCKET_COUNT
    ensures ActAll(AtExport(w, Scanning(target, b, None)), ScanBucket(w.table[b])) ==
              Some((AtExport(AfterBucket(w, target, b), Scanning(target, b + 1, None)), DataTo(target, w.table[b])))
  {
    hide AndThen;
    var chain, w0, w1 := w.table[b], AtExport(w, Scanning(target, b, None)), Seen(w, target, b);
    var w2, sends, sent := AfterBucket(w, target, b), Times(SendEntry(true), |chain|), DataTo(target, chain);
    BucketLocked(w, target, b);
    EntriesFirst(w1, target, b, chain, |chain|);
    assert chain[..|chain|] == chain && chain[|chain|..] == [] && [] + sent == sent;
    ActMore(w0, [LockBucket], AtExport(w1, Scanning(target, b, Some(chain))), [], sends);
    ActOne(w0, [LockBucket] + sends, AtExport(w2, Scanning(target, b, Some([]))), sent, UnlockBucket);
    BucketUnlocked(w2, target, b, sent);
  }

  function AfterScan(w: Worker, target: int, n: nat): (w': Worker)
    requires n <= BUCKET_COUNT
    ensures w'.(scanned := w.scanned, tally := w.tally) == w
    ensures w'.tally.(exported := w.tally.exported) == w.tally
  {
    if n == 0 then w else AfterBucket(AfterScan(w, target, n - 1), target, n - 1)
  }

  lemma {:induction false} ScanFirst(w: Worker, target: int, n: nat)
    requires n <= BUCKET_COUNT
    ensures ActAll(AtExport(w, Scanning(target, 0, None)), ScanActions(w.table, n)) ==
              Some((AtExport(AfterScan(w, target, n), Scanning(target, n, None)), DataTo(target, Flat(w.table, n))))
  {
    hide AndThen;
    var start := AtExport(w, Scanning(target, 0, None));
    if n > 0 {
      var w1, before, chain := AfterScan(w, target, n - 1), Flat(w.table, n - 1), w.table[n - 1];
      ScanFirst(w, target, n - 1);
      BucketScanned(w1, target, n - 1);
      ActMore(start, ScanActions(w.table, n - 1), AtExport(w1, Scanning(target, n - 1, None)),
              DataTo(target, before), ScanBucket(chain));
      DataToBoth(target, before, chain);
    }
  }

  /** GetHashTableCount: every bucket once. */
  function CountAll(t: Table): seq<Action> {
    Times(CountBucket, |t|)
  }

  /** Up to the decision whether to export. */
  function Decide(t: Table): seq<Action> {
    ([Dequeue] + CountAll(t)) + [EndCount]
  }

  function Announce(t: Table): seq<Action> {
    CountAll(t) + [SendStart(true)]
  }

  function ScanAll(t: Table): seq<Action> {
    ScanActions(t, BUCKET_COUNT) + [SendEnd(true)]
  }

  function Dequeued(w: Worker): Worker
    requires w.requests != []
  {
    w.(requests := w.requests[1..])
  }

  lemma DequeueFirst(w: Worker)
    requires w.exporter.Idle? && w.requests != []
    ensures AndThen(w, [], Dequeue) == Some((AtExport(Dequeued(w), Counting(w.requests[0], 0, 0)), []))
  {
    assert [] + Spoken(Nothing) == [];
  }

  lemma DequeueOne(w: Worker)
    requires w.exporter.Idle? && w.requests != []
    ensures ActAll(w, [Dequeue]) == Some((AtExport(Dequeued(w), Counting(w.requests[0], 0, 0)), []))
  {
    NothingDone(w);
    hide AndThen, ActAll;
    DequeueFirst(w);
    ActOne(w, [], w, [], Dequeue);
    NothingBefore([Dequeue]);
  }

  lemma CountedAfterDequeue(w: Worker)
    requires w.exporter.Idle? && w.requests != []
    ensures ActAll(w, [Dequeue] + CountAll(w.table)) ==
              Some((AtExport(Dequeued(w), Counting(w.requests[0], |w.table|, |Pairs(w.table)|)), []))
  {
    hide ActAll, Flat, Times;
    var w1, e := Dequeued(w), Counting(w.requests[0], 0, 0);
    DequeueOne(w);
    CountFirst(w1, e, |w.table|);
    ActMore(w, [Dequeue], AtExport(w1, e), [], CountAll(w.table));
    var nothing: seq<Output> := [];
    assert nothing + nothing == nothing;
  }

  predicate Exports(w: Worker, target: int) {
    Pairs(w.table) != [] && ConnectionTo(w.peers, target) != Invalid
  }

  /** The worker at the start of an export. */
  function Fresh(w: Worker): Worker {
    w.(tally := Tally(0, 0, 0))
  }

  /** The worker once it has announced a total. */
  function Told(w: Worker, total: nat): Worker {
    w.(tally := w.tally.(announced := total))
  }

  function DecidedAt(w: Worker, target: int): Worker {
    if Exports(w, target) then AtExport(Fresh(w), Announcing(target, 0, 0)) else AtExport(w, Idle)
  }

  lemma CountEnds(w: Worker, target: int)
    ensures AndThen(AtExport(w, Counting(target, |w.table|, |Pairs(w.table)|)), [], EndCount) ==
              Some((DecidedAt(w, target), []))
  {
    assert [] + Spoken(Nothing) == [];
  }

  lemma Decided(w: Worker)
    requires w.exporter.Idle? && w.requests != []
    ensures ActAll(w, Decide(w.table)) == Some((DecidedAt(Dequeued(w), w.requests[0]), []))
  {
    hide AndThen;
    var counted := AtExport(Dequeued(w), Counting(w.requests[0], |w.table|, |Pairs(w.table)|));
    CountedAfterDequeue(w);
    ActOne(w, [Dequeue] + CountAll(w.table), counted, [], EndCount);
    CountEnds(Dequeued(w), w.requests[0]);
  }

  lemma StartSent(w: Worker, target: int, total: nat)
    ensures AndThen(AtExport(w, Announcing(target, |w.table|, total)), [], SendStart(true)) ==
              Some((AtExport(Told(w, total), Scanning(target, 0, None)), [Sent(target, Export(Start(total)))]))
  {
    assert [] + [Sent(target, Export(Start(total)))] == [Sent(target, Export(Start(total)))];
  }

  lemma Announced(w: Worker, target: int)
    ensures ActAll(AtExport(w, Announcing(target, 0, 0)), Announce(w.table)) ==
              Some((AtExport(Told(w, |Pairs(w.table)|), Scanning(target, 0, None)),
                    [Sent(target, Export(Start(|Pairs(w.table)|)))]))
  {
    hide AndThen;
    var start, total := AtExport(w, Announcing(target, 0, 0)), |Pairs(w.table)|;
    CountFirst(w, Announcing(target, 0, 0), |w.table|);
    ActOne(start, CountAll(w.table), AtExport(w, Announcing(target, |w.table|, total)), [], SendStart(true));
    StartSent(w, target, total);
  }

  lemma EndSent(w: Worker, target: int, sent: seq<Output>)
    ensures AndThen(AtExport(w, Scanning(target, BUCKET_COUNT, None)), sent, SendEnd(true)) ==
              Some((AtExport(w, Idle), sent + [Sent(target, Export(End))]))
  {
  }

  lemma AllScanned(w: Worker, target: int)
    ensures ActAll(AtExport(w, Scanning(target, 0, None)), ScanAll(w.table)) ==
              Some((AtExport(AfterScan(w, target, BUCKET_COUNT), Idle),
                    DataTo(target, Pairs(w.table)) + [Sent(target, Export(End))]))
  {
    hide AndThen;
    ScanFirst(w, target, BUCKET_COUNT);
    ActOne(AtExport(w, Scanning(target, 0, None)), ScanActions(w.table, BUCKET_COUNT),
           AtExport(AfterScan(w, target, BUCKET_COUNT), Scanning(target, BUCKET_COUNT, None)),
           DataTo(target, Pairs(w.table)), SendEnd(true));
    EndSent(AfterScan(w, target, BUCKET_COUNT), target, DataTo(target, Pairs(w.table)));
  }

  function ExportActions(t: Table): seq<Action> {
    (Decide(t) + Announce(t)) + ScanAll(t)
  }

  function ScriptTo(target: int, t: Table): seq<Output> {
    [Sent(target, Export(Start(|Pairs(t)|)))] + (DataTo(target, Pairs(t)) + [Sent(target, Export(End))])
  }

  /** The worker after an export of its first request. */
  function AfterExport(w: Worker): Worker
    requires w.requests != []
  {
    AtExport(AfterScan(Told(Fresh(Dequeued(w)), |Pairs(w.table)|), w.requests[0], BUCKET_COUNT), Idle)
  }

  /** Uninterrupted, an export sends the script and goes through the whole table. */
  lemma WholeExport(w: Worker)
    requires w.exporter.Idle? && w.requests != [] && Exports(w, w.requests[0])
    ensures ActAll(w, ExportActions(w.table)) == Some((AfterExport(w), ScriptTo(w.requests[0], w.table)))
  {
    hide AndThen, ActAll, AfterScan, ScanActions, Flat;
    var target, total := w.requests[0], |Pairs(w.table)|;
    var w1, w2 := Fresh(Dequeued(w)), Told(Fresh(Dequeued(w)), total);
    var start := [Sent(target, Export(Start(total)))];
    Decided(w);
    Announced(w1, target);
    AllScanned(w2, target);
    ActMore(w, Decide(w.table), AtExport(w1, Announcing(target, 0, 0)), [], Announce(w.table));
    assert [] + start == start;
    ActMore(w, Decide(w.table) + Announce(w.table), AtExport(w2, Scanning(target, 0, None)), start, ScanAll(w.table));
  }

  lemma {:induction false} DataToAt(target: int, pairs: seq<Pair>, i: nat)
    ensures |DataTo(target, pairs)| == |pairs|
    ensures i < |pairs| ==> DataTo(target, pairs)[i] == Sent(target, Export(Data(pairs[i])))
    decreases |pairs|
  {
    if pairs != [] {
      DataToAt(target, pairs[..|pairs| - 1], i);
    }
  }

  /** The script is what ExportHashTableToPeer sends of a table at rest. */
  lemma ScriptIsExport(target: int, t: Table)
    ensures |ScriptTo(target, t)| == |ExportScript(t)|
    ensures forall i :: 0 <= i < |ScriptTo(target, t)| ==>
              ScriptTo(target, t)[i] == Sent(target, Export(ExportScript(t)[i]))
  {
    forall i: nat {
      DataToAt(target, Pairs(t), i);
    }
  }
}
