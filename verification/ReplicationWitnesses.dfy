/**
 * Runs from the start of the system in which replication falls short: two
 * workers that disagree, a client's value replaced by a peer's older one, an
 * export that sends more than it announced, and a message that is never read.
 */
module ReplicationWitnesses {
  import opened Config
  import opened HashSpec
  import opened PeerSpec
  import opened PeerConnections
  import opened Replication
  import opened ReplicationDelivery
  import opened ReplicationRuns
  import ExportTally
  import ValueChanges

  function Succeed(slot: nat): int {
    1
  }

  function PeerOf(n: int, port: int): Peer {
    Peer(n, [], port, Handle(0), true)
  }

  function EnterPeer(n: int, port: int, shouldExport: bool): Action {
    Enter(n, [], port, Handle(0), shouldExport)
  }

  /** A new peer: the entry is made and the connection waits at the peer. */
  lemma EntersNext(s: State, a: int, n: int, port: int, shouldExport: bool)
    requires a in s.workers && s.workers[a].receiver.Ready? && port != s.workers[a].port
    requires FindPeer(s.workers[a].peers, n) == |s.workers[a].peers| < MAX_WORKERS
    ensures var w := s.workers[a].(peers := s.workers[a].peers + [PeerOf(n, port)],
                                   receiver := if shouldExport then EntryAdded(n) else Ready);
      Next(s, Local(a, EnterPeer(n, port, shouldExport))) ==
      Some(s.(workers := s.workers[a := w], backlogs := s.backlogs[n := Backlog(s, n) + [a]]))
  {
    var before, after := s.workers[a].peers, s.workers[a].peers + [PeerOf(n, port)];
    assert after[|before|].workerId == n && forall j :: 0 <= j < |before| ==> after[j] == before[j];
    assert FindPeer(after, n) == |before|;
  }

  /** A worker's first peer. */
  lemma Enters(s: State, a: int, n: int, port: int, shouldExport: bool)
    requires a in s.workers && s.workers[a].peers == [] && s.workers[a].receiver.Ready? && port != s.workers[a].port
    ensures var w := s.workers[a].(peers := [PeerOf(n, port)],
                                   receiver := if shouldExport then EntryAdded(n) else Ready);
      Next(s, Local(a, EnterPeer(n, port, shouldExport))) ==
      Some(s.(workers := s.workers[a := w], backlogs := s.backlogs[n := Backlog(s, n) + [a]]))
  {
    hide Next;
    EntersNext(s, a, n, port, shouldExport);
    NothingBefore([PeerOf(n, port)]);
  }

  lemma {:induction false} NoneFails(peers: seq<Peer>, m: nat)
    requires m <= |peers|
    ensures Failed(peers, Succeed, m) == []
  {
    if m > 0 {
      NoneFails(peers, m - 1);
    }
  }

  lemma NoneIsLost(peers: seq<Peer>)
    ensures Survivors(peers, Succeed) == peers
  {
    NoneFails(peers, |peers|);
    WithoutNone(peers);
  }

  // ===== Two workers, one of which is the other's peer

  /** a has entered n and is connected to it; nothing else has happened. */
  predicate IsJoined(s: State, a: int, n: int, pa: int, pn: int) {
    && a in s.workers && n in s.workers && a != n && n != NO_PEER
    && s.workers[a] == NewWorker(pa).(peers := [PeerOf(n, pn)])
    && s.workers[n] == NewWorker(pn)
    && Channel(s, a, n) == [] && Attends(s, a, n)
  }

  lemma Joins(a: int, n: int, pa: int, pn: int)
    requires a != n && n != NO_PEER && pa != pn
    ensures var s0 := Initial(map[a := pa, n := pn]);
      && Next(s0, Local(a, EnterPeer(n, pn, false))).Some?
      && IsJoined(Next(s0, Local(a, EnterPeer(n, pn, false))).value, a, n, pa, pn)
  {
    Enters(Initial(map[a := pa, n := pn]), a, n, pn, false);
  }

  lemma FirstStore(s: State, a: int, n: int, pa: int, pn: int, p: Pair)
    requires IsJoined(s, a, n, pa, pn) && p.key != []
    ensures Run(s, StoreSteps(s, a, n, Succeed, p)).Some?
    ensures var s' := Run(s, StoreSteps(s, a, n, Succeed, p)).value;
      && a in s'.workers && n in s'.workers && Channel(s', a, n) == [] && Attends(s', a, n)
      && s'.workers[a] == Stored(s.workers[a], p) && s'.workers[n] == Holding(s.workers[n], p)
  {
    StoreIsTakenIn(s, a, n, Succeed, 0, p);
    NoneIsLost(s.workers[a].peers);
    assert Lookup(EmptyTable(), p.key) == None;
  }

  /** Two puts of one key, each broadcast without failure and taken in: the two workers answer differently. */
  lemma WorkersDisagree(a: int, n: int, pa: int, pn: int, key: Bytes, v: Bytes, v': Bytes)
    requires a != n && n != NO_PEER && pa != pn && key != [] && v != v'
    ensures exists steps :: Run(Initial(map[a := pa, n := pn]), steps).Some? &&
              var s := Run(Initial(map[a := pa, n := pn]), steps).value;
              && a in s.workers && n in s.workers && Channel(s, a, n) == []
              && Lookup(s.workers[a].table, key) == Some(v') && Lookup(s.workers[n].table, key) == Some(v)
  {
    var s0 := Initial(map[a := pa, n := pn]);
    var enter := Local(a, EnterPeer(n, pn, false));
    Joins(a, n, pa, pn);
    var s1 := Next(s0, enter).value;
    FirstStore(s1, a, n, pa, pn, Pair(key, v));
    var first := StoreSteps(s1, a, n, Succeed, Pair(key, v));
    var s2 := Run(s1, first).value;
    SecondStore(s1, s2, a, n, pa, pn, Pair(key, v), v');
    var second := StoreSteps(s2, a, n, Succeed, Pair(key, v'));
    hide Run, Next, StoreSteps, Stored, Holding;
    RunFirst(s0, enter, s1, first + second);
    RunMore(s1, first, s2, second);
    assert Run(s0, [enter] + (first + second)) == Run(s2, second);
  }

  lemma RunFirst(s: State, step: Step, s1: State, steps: seq<Step>)
    requires Next(s, step) == Some(s1)
    ensures Run(s, [step] + steps) == Run(s1, steps)
  {
    assert ([step] + steps)[1..] == steps;
  }

  lemma SecondStore(s1: State, s2: State, a: int, n: int, pa: int, pn: int, p: Pair, v': Bytes)
    requires IsJoined(s1, a, n, pa, pn) && p.key != []
    requires a in s2.workers && n in s2.workers && Channel(s2, a, n) == [] && Attends(s2, a, n)
    requires s2.workers[a] == Stored(s1.workers[a], p) && s2.workers[n] == Holding(s1.workers[n], p)
    ensures Run(s2, StoreSteps(s2, a, n, Succeed, Pair(p.key, v'))).Some?
    ensures var s' := Run(s2, StoreSteps(s2, a, n, Succeed, Pair(p.key, v'))).value;
      && a in s'.workers && n in s'.workers && Channel(s', a, n) == []
      && Lookup(s'.workers[a].table, p.key) == Some(v') && Lookup(s'.workers[n].table, p.key) == Some(p.value)
  {
    StoreIsTakenIn(s2, a, n, Succeed, 0, Pair(p.key, v'));
    LookupAfterSet(s1.workers[n].table, p.key, p.value, p.key);
    LookupAfterSet(s2.workers[a].table, p.key, v', p.key);
  }

  // ===== A client's value is replaced by an older one

  /** n's listener has looked for the key of a's pair and not found it. */
  lemma LooksFor(s: State, a: int, n: int, pa: int, pn: int, p: Pair)
    requires IsJoined(s, a, n, pa, pn) && p.key != []
    ensures var steps := Locals(a, StoreActions(s.workers[a].peers, Succeed, p)) + (TurnTo(s, n) + [Receive(n, a)]);
      && Run(s, steps).Some?
      && var s' := Run(s, steps).value;
         n in s'.workers && s'.workers[n] == s.workers[n].(listener := Checked(p, None))
  {
    var store, turn := Locals(a, StoreActions(s.workers[a].peers, Succeed, p)), TurnTo(s, n);
    StoreIsSent(s, a, n, Succeed, 0, p);
    var s1 := Run(s, store).value;
    TurnsTo(s1, a, n);
    assert TurnTo(s1, n) == turn;
    var s2 := Run(s1, turn).value;
    assert Channel(s2, a, n) == [Notify(p)] && Lookup(EmptyTable(), p.key) == None;
    var s3 := Next(s2, Receive(n, a)).value;
    hide Next;
    RunOne(s1, turn, s2, Receive(n, a));
    RunMore(s, store, s1, turn + [Receive(n, a)]);
  }

  lemma StoresAndInserts(s: State, n: int, pn: int, p: Pair, v': Bytes)
    requires n in s.workers && s.workers[n] == NewWorker(pn).(listener := Checked(p, None)) && p.key != []
    ensures var s' := Next(s, Local(n, Store(Pair(p.key, v'))));
      && s'.Some? && n in s'.value.workers && Lookup(s'.value.workers[n].table, p.key) == Some(v')
      && p.key in s'.value.workers[n].stored
      && var s'' := Next(s'.value, Local(n, Insert));
         s''.Some? && n in s''.value.workers && Lookup(s''.value.workers[n].table, p.key) == Some(p.value)
  {
    var t := EmptyTable();
    LookupAfterSet(t, p.key, v', p.key);
    LookupAfterSet(Set(t, p.key, v'), p.key, p.value, p.key);
  }

  /** The listener's step takes the value of a client's request away and puts back the one a had sent before. */
  lemma ClientValueReplaced(a: int, n: int, pa: int, pn: int, key: Bytes, v: Bytes, v': Bytes)
    requires a != n && n != NO_PEER && pa != pn && key != [] && v != v'
    ensures exists steps :: Run(Initial(map[a := pa, n := pn]), steps).Some? &&
              var s := Run(Initial(map[a := pa, n := pn]), steps).value;
              && n in s.workers && Lookup(s.workers[n].table, key) == Some(v') && key in s.workers[n].stored
              && Next(s, Local(n, Insert)).Some?
              && var s' := Next(s, Local(n, Insert)).value;
                 n in s'.workers && Lookup(s'.workers[n].table, key) == Some(v)
  {
    var s0, p := Initial(map[a := pa, n := pn]), Pair(key, v);
    var enter, store := Local(a, EnterPeer(n, pn, false)), Local(n, Store(Pair(key, v')));
    Joins(a, n, pa, pn);
    var s1 := Next(s0, enter).value;
    LooksFor(s1, a, n, pa, pn, p);
    var look := Locals(a, StoreActions(s1.workers[a].peers, Succeed, p)) + (TurnTo(s1, n) + [Receive(n, a)]);
    var s2 := Run(s1, look).value;
    hide Run, Next, Locals, StoreActions, TurnTo, Set, Lookup, Holding;
    StoresAndInserts(s2, n, pn, p, v');
    var s3 := Next(s2, store).value;
    RunOne(s1, look, s2, store);
    RunFirst(s0, enter, s1, look + [store]);
    assert Run(s0, [enter] + (look + [store])) == Some(s3);
  }

  // ===== A message that is never read

  /** n serves b, and a's message waits for as long as b's connection and a's stay open. */
  ghost predicate IsStuck(s: State, a: int, b: int, n: int, p: Pair) {
    && Serves(s, n, b) && (b, n) !in s.closed && (a, n) !in s.closed && Channel(s, a, n) == [Notify(p)]
    && forall more :: Run(s, more).Some? ==>
         var s' := Run(s, more).value;
         (b, n) !in s'.closed && (a, n) !in s'.closed ==> Serves(s', n, b) && [Notify(p)] <= Channel(s', a, n)
  }

  lemma ServedElsewhereIsStuck(s: State, a: int, b: int, n: int, p: Pair)
    requires Serves(s, n, b) && a != b && (b, n) !in s.closed && (a, n) !in s.closed && Channel(s, a, n) == [Notify(p)]
    ensures IsStuck(s, a, b, n, p)
  {
    forall more | Run(s, more).Some?
      ensures var s' := Run(s, more).value;
        (b, n) !in s'.closed && (a, n) !in s'.closed ==> Serves(s', n, b) && [Notify(p)] <= Channel(s', a, n)
    {
      OthersWait(s, more, a, b, n);
    }
  }

  /** What the actions of one worker leave alone: the connections from others, and who serves or waits. */
  predicate Leaves(s: State, s': State, c: (int, int)) {
    && Channel(s', c.0, c.1) == Channel(s, c.0, c.1)
    && IsIntact(s', c.0, c.1) == IsIntact(s, c.0, c.1) && (c in s'.closed <==> c in s.closed)
    && s'.serving == s.serving && Backlog(s, c.1) <= Backlog(s', c.1)
  }

  lemma OutcomeLeaves(s: State, id: int, o: Outcome, c: (int, int))
    requires c.0 != id
    ensures Leaves(s, Apply(s, id, o), c)
  {
  }

  lemma ActionLeaves(s: State, a: int, action: Action, c: (int, int))
    requires Next(s, Local(a, action)).Some? && c.0 != a
    ensures Leaves(s, Next(s, Local(a, action)).value, c)
  {
    hide Act, Apply;
    var s1 := if action.Store? then s.(puts := s.puts + {action.pair}) else s;
    OutcomeLeaves(s1, a, Act(s.workers[a], action).value, c);
  }

  lemma LeavesBoth(s: State, s1: State, s': State, c: (int, int))
    requires Leaves(s, s1, c) && Leaves(s1, s', c)
    ensures Leaves(s, s', c)
  {
  }

  lemma {:induction false} ActionsLeave(s: State, a: int, actions: seq<Action>, c: (int, int))
    requires Run(s, Locals(a, actions)).Some? && c.0 != a
    ensures Leaves(s, Run(s, Locals(a, actions)).value, c)
  {
    if actions == [] {
      return;
    }
    hide Next, Leaves;
    var front, last := actions[..|actions| - 1], actions[|actions| - 1];
    RunPrefix(s, Locals(a, front), [Local(a, last)]);
    ActionsLeave(s, a, front, c);
    var s1 := Run(s, Locals(a, front)).value;
    RunOne(s, Locals(a, front), s1, Local(a, last));
    ActionLeaves(s1, a, last, c);
    LeavesBoth(s, s1, Run(s, Locals(a, actions)).value, c);
  }

  lemma {:induction false} RunPrefix(s: State, xs: seq<Step>, ys: seq<Step>)
    requires Run(s, xs + ys).Some?
    ensures Run(s, xs).Some?
    decreases |xs|
  {
    if xs != [] {
      assert (xs + ys)[1..] == xs[1..] + ys;
      RunPrefix(Next(s, xs[0]).value, xs[1..], ys);
    }
  }

  /** Two peers of n are connected, the first is accepted. */
  lemma BothEnter(a: int, b: int, n: int, pa: int, pb: int, pn: int)
    requires a != b && a != n && b != n && pa != pn && pb != pn
    ensures var s0 := Initial(map[a := pa, b := pb, n := pn]);
      var steps := [Local(b, EnterPeer(n, pn, false)), Local(a, EnterPeer(n, pn, false)), Serve(n)];
      && Run(s0, steps).Some?
      && var s := Run(s0, steps).value;
         && a in s.workers && s.workers[a] == NewWorker(pa).(peers := [PeerOf(n, pn)])
         && Serves(s, n, b) && s.closed == {} && s.broken == {} && Channel(s, a, n) == []
  {
    var s0 := Initial(map[a := pa, b := pb, n := pn]);
    var enterB, enterA := Local(b, EnterPeer(n, pn, false)), Local(a, EnterPeer(n, pn, false));
    Enters(s0, b, n, pn, false);
    var s1 := Next(s0, enterB).value;
    Enters(s1, a, n, pn, false);
    var s2 := Next(s1, enterA).value;
    assert Backlog(s2, n) == [b, a];
    var s3 := Next(s2, Serve(n)).value;
    RunFirst(s2, Serve(n), s3, []);
    RunFirst(s1, enterA, s2, [Serve(n)]);
    RunFirst(s0, enterB, s1, [enterA, Serve(n)]);
    assert [enterB] + [enterA, Serve(n)] == [enterB, enterA, Serve(n)];
    assert [enterA] + [Serve(n)] == [enterA, Serve(n)] && [Serve(n)] + [] == [Serve(n)];
  }

  /** The store that n never hears of while it serves b. */
  lemma StoreGetsStuck(s: State, a: int, b: int, n: int, pa: int, pn: int, p: Pair)
    requires a in s.workers && s.workers[a] == NewWorker(pa).(peers := [PeerOf(n, pn)]) && n != NO_PEER && a != b
    requires Serves(s, n, b) && s.closed == {} && s.broken == {} && Channel(s, a, n) == [] && p.key != []
    ensures var steps := Locals(a, StoreActions(s.workers[a].peers, Succeed, p));
      Run(s, steps).Some? && IsStuck(Run(s, steps).value, a, b, n, p)
  {
    var w := s.workers[a];
    var actions := StoreActions(w.peers, Succeed, p);
    WholeStore(w, Succeed, p);
    ActionsRun(s, a, actions, n);
    StoreReaches(w.peers, Succeed, p, n, 0);
    NothingBefore([Notify(p)]);
    var s' := Run(s, Locals(a, actions)).value;
    ActionsLeave(s, a, actions, (b, n));
    ServedElsewhereIsStuck(s', a, b, n, p);
  }

  /**
   * With three workers, of which n first accepts b: a's message to n is not read
   * for as long as b's connection stays open, however the run goes on.
   */
  lemma MessageIsNeverRead(a: int, b: int, n: int, pa: int, pb: int, pn: int, p: Pair)
    requires a != b && a != n && b != n && n != NO_PEER && pa != pn && pb != pn && p.key != []
    ensures exists steps :: Run(Initial(map[a := pa, b := pb, n := pn]), steps).Some?
              && IsStuck(Run(Initial(map[a := pa, b := pb, n := pn]), steps).value, a, b, n, p)
  {
    var s0 := Initial(map[a := pa, b := pb, n := pn]);
    var enter := [Local(b, EnterPeer(n, pn, false)), Local(a, EnterPeer(n, pn, false)), Serve(n)];
    BothEnter(a, b, n, pa, pb, pn);
    var s1 := Run(s0, enter).value;
    StoreGetsStuck(s1, a, b, n, pa, pn, p);
    var store := Locals(a, StoreActions(s1.workers[a].peers, Succeed, p));
    hide IsStuck, Run, Locals;
    RunMore(s0, enter, s1, store);
    assert Run(s0, enter + store) == Run(s1, store);
  }

  // ===== More entries than announced

  predicate Leads(w: Worker, actions: seq<Action>, w': Worker) {
    ActAll(w, actions).Some? && ActAll(w, actions).value.0 == w'
  }

  lemma LeadsOn(w: Worker, xs: seq<Action>, w1: Worker, ys: seq<Action>, w2: Worker)
    requires Leads(w, xs, w1) && Leads(w1, ys, w2)
    ensures Leads(w, xs + ys, w2)
  {
    hide AndThen;
    ActMore(w, xs, w1, ActAll(w, xs).value.1, ys);
  }

  lemma StoreLeads(w: Worker, p: Pair)
    requires w.receiver.Ready? && Unlocked(w, p.key) && p.key != []
    ensures Leads(w, StoreActions(w.peers, Succeed, p), Stored(w, p))
  {
    hide AndThen, StoreActions, ActAll, Succeed;
    WholeStore(w, Succeed, p);
    NoneIsLost(w.peers);
  }

  lemma {:induction false} FlatOfEmpty(n: nat)
    requires n <= BUCKET_COUNT
    ensures Flat(EmptyTable(), n) == []
  {
    if n > 0 {
      FlatOfEmpty(n - 1);
    }
  }

  /** A worker that has its first pair, and a request to export it. */
  predicate IsFirstExport(w: Worker, n: int, p: Pair) {
    && w.receiver.Ready? && w.exporter.Idle? && w.requests == [n]
    && ConnectionTo(w.peers, n) != Invalid && w.table == Set(EmptyTable(), p.key, p.value)
  }

  lemma OnePairExports(w: Worker, n: int, p: Pair)
    requires IsFirstExport(w, n, p)
    ensures Exports(w, n) && |Pairs(w.table)| == 1
  {
    ExportTally.SetGrowsFlat(EmptyTable(), p, BUCKET_COUNT);
    FlatOfEmpty(BUCKET_COUNT);
    assert Lookup(EmptyTable(), p.key) == None;
  }

  function LateActions(w: Worker, late: Pair): seq<Action> {
    (Decide(w.table) + CountAll(w.table)) + StoreActions(w.peers, Succeed, late)
  }

  /** After the count for the start message, before it is sent, another key is stored. */
  function WithLateKey(w: Worker, n: int, late: Pair): Worker
    requires w.requests != []
  {
    Stored(AtExport(Fresh(Dequeued(w)), Announcing(n, BUCKET_COUNT, 1)), late)
  }

  lemma LateKeyIsCounted(w: Worker, n: int, p: Pair, late: Pair)
    requires IsFirstExport(w, n, p) && p.key != late.key
    ensures WithLateKey(w, n, late).tally == Tally(0, 0, 1)
  {
    LookupAfterSet(EmptyTable(), p.key, p.value, late.key);
    assert Lookup(EmptyTable(), late.key) == None;
  }

  lemma LateKeyLeads(w: Worker, n: int, p: Pair, late: Pair)
    requires IsFirstExport(w, n, p) && late.key != []
    ensures Leads(w, LateActions(w, late), WithLateKey(w, n, late))
  {
    OnePairExports(w, n, p);
    hide AndThen, ActAll, Flat, Set, Lookup, Decide, Times, StoreActions, Exports, Stored;
    var w1 := Fresh(Dequeued(w));
    var w2 := AtExport(w1, Announcing(n, BUCKET_COUNT, 1));
    Decided(w);
    CountFirst(w1, Announcing(n, 0, 0), |w.table|);
    StoreLeads(w2, late);
    LeadsOn(w, Decide(w.table), AtExport(w1, Announcing(n, 0, 0)), CountAll(w.table), w2);
    LeadsOn(w, Decide(w.table) + CountAll(w.table), w2, StoreActions(w.peers, Succeed, late), Stored(w2, late));
  }

  lemma ScansToEnd(w: Worker, n: int)
    requires w.exporter == Announcing(n, BUCKET_COUNT, 1)
    ensures Leads(w, [SendStart(true)] + ScanActions(w.table, BUCKET_COUNT),
                  AtExport(AfterScan(Told(w, 1), n, BUCKET_COUNT), Scanning(n, BUCKET_COUNT, None)))
  {
    hide AndThen, AfterScan, ScanActions, Flat, ActAll;
    assert AtExport(w, Announcing(n, |w.table|, 1)) == w;
    NothingDone(w);
    ActOne(w, [], w, [], SendStart(true));
    NothingBefore([SendStart(true)]);
    StartSent(w, n, 1);
    ScanFirst(Told(w, 1), n, BUCKET_COUNT);
    LeadsOn(w, [SendStart(true)], AtExport(Told(w, 1), Scanning(n, 0, None)), ScanActions(w.table, BUCKET_COUNT),
            AtExport(AfterScan(Told(w, 1), n, BUCKET_COUNT), Scanning(n, BUCKET_COUNT, None)));
  }

  lemma Requests(s: State, a: int, n: int)
    requires a in s.workers && s.workers[a].receiver == EntryAdded(n)
    requires s.workers[a].requests == [] && s.workers[a].owed == {} && ConnectionTo(s.workers[a].peers, n) != Invalid
    ensures Next(s, Local(a, RequestExport)) ==
              Some(s.(workers := s.workers[a := s.workers[a].(receiver := Ready, requests := [n], owed := {n})]))
  {
    NothingBefore([n]);
    assert {} + {n} == {n};
  }

  /** a has entered n, which wants an export, and has queued it. */
  lemma EntersForExport(a: int, n: int, pa: int, pn: int)
    requires a != n && pa != pn
    ensures var s0 := Initial(map[a := pa, n := pn]);
      var steps := [Local(a, EnterPeer(n, pn, true)), Local(a, RequestExport)];
      && Run(s0, steps).Some?
      && var s := Run(s0, steps).value;
         a in s.workers && s.workers[a] == NewWorker(pa).(peers := [PeerOf(n, pn)], requests := [n], owed := {n})
  {
    var s0 := Initial(map[a := pa, n := pn]);
    var enter := Local(a, EnterPeer(n, pn, true));
    Enters(s0, a, n, pn, true);
    var s1 := Next(s0, enter).value;
    assert ConnectionTo(s1.workers[a].peers, n) == Handle(0);
    Requests(s1, a, n);
    var s2 := Next(s1, Local(a, RequestExport)).value;
    hide Next, ConnectionTo;
    RunFirst(s1, Local(a, RequestExport), s2, []);
    RunFirst(s0, enter, s1, [Local(a, RequestExport)]);
    NothingBefore([Local(a, RequestExport)]);
    assert [enter] + [Local(a, RequestExport)] == [enter, Local(a, RequestExport)];
  }

  lemma FirstExportStarts(w: Worker, n: int, pa: int, pn: int, p: Pair)
    requires w == NewWorker(pa).(peers := [PeerOf(n, pn)], requests := [n], owed := {n}) && p.key != []
    ensures Leads(w, StoreActions(w.peers, Succeed, p), Stored(w, p)) && IsFirstExport(Stored(w, p), n, p)
  {
    assert ConnectionTo(w.peers, n) == Handle(0);
    StoreLeads(w, p);
  }

  lemma LateExportLeads(w: Worker, n: int, p: Pair, late: Pair)
    requires IsFirstExport(w, n, p) && p.key != late.key && late.key != []
    ensures exists actions, w' ::
              Leads(w, actions, w') && w'.exporter == Scanning(n, BUCKET_COUNT, None)
              && w'.tally.announced == 1 && w'.tally.late == 1
  {
    var w1 := WithLateKey(w, n, late);
    var scan := [SendStart(true)] + ScanActions(w1.table, BUCKET_COUNT);
    var w2 := AtExport(AfterScan(Told(w1, 1), n, BUCKET_COUNT), Scanning(n, BUCKET_COUNT, None));
    LateKeyLeads(w, n, p, late);
    LateKeyIsCounted(w, n, p, late);
    ScansToEnd(w1, n);
    hide LateActions, ScanActions, WithLateKey, AfterScan, Leads;
    LeadsOn(w, LateActions(w, late), w1, scan, w2);
    assert Leads(w, LateActions(w, late) + scan, w2);
  }

  /** A key that is stored between the count and the start message is sent though it was not announced. */
  lemma SentIsMoreThanAnnounced(a: int, n: int, pa: int, pn: int, p: Pair, late: Pair)
    requires a != n && pa != pn && p.key != [] && late.key != [] && p.key != late.key
    ensures exists steps :: Run(Initial(map[a := pa, n := pn]), steps).Some?
              && var s := Run(Initial(map[a := pa, n := pn]), steps).value;
                 a in s.workers && s.workers[a].exporter == Scanning(n, BUCKET_COUNT, None)
                 && s.workers[a].tally == Tally(1, 2, 1)
  {
    var ports := map[a := pa, n := pn];
    var enter := [Local(a, EnterPeer(n, pn, true)), Local(a, RequestExport)];
    EntersForExport(a, n, pa, pn);
    var s1 := Run(Initial(ports), enter).value;
    var w := s1.workers[a];
    hide Run, Leads, StoreActions, Stored, IsFirstExport, Initial, ActAll;
    FirstExportStarts(w, n, pa, pn, p);
    LateExportLeads(Stored(w, p), n, p, late);
    var actions, w' :| Leads(Stored(w, p), actions, w') && w'.exporter == Scanning(n, BUCKET_COUNT, None)
                       && w'.tally.announced == 1 && w'.tally.late == 1;
    var all := StoreActions(w.peers, Succeed, p) + actions;
    LeadsOn(w, StoreActions(w.peers, Succeed, p), Stored(w, p), actions, w');
    LeadsRun(s1, a, all, w', n);
    RunMore(Initial(ports), enter, s1, Locals(a, all));
    var steps := enter + Locals(a, all);
    ExportTally.SentIsAnnouncedPlusLate(ports, steps, a);
    assert Run(Initial(ports), steps).value.workers[a].tally == Tally(1, 2, 1);
  }

  lemma LeadsRun(s: State, a: int, actions: seq<Action>, w': Worker, n: int)
    requires a in s.workers && Leads(s.workers[a], actions, w')
    ensures Run(s, Locals(a, actions)).Some?
    ensures a in Run(s, Locals(a, actions)).value.workers && Run(s, Locals(a, actions)).value.workers[a] == w'
  {
    hide AndThen, Run, Next;
    ActionsRun(s, a, actions, n);
  }
}
