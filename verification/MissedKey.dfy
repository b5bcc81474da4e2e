/**
 * A run of three workers after which n lacks a key that a and b have, though
 * every connection is intact and nothing is left to be sent: b stores the key and
 * tells a; before a has taken that in, its export to n goes through the table;
 * and b is connected to n only afterwards.
 */
module MissedKey {
  import opened Config
  import opened HashSpec
  import opened PeerSpec
  import opened Replication
  import opened ReplicationDelivery
  import opened ReplicationRuns
  import opened ReplicationWitnesses
  import ExportTally
  import KeyArrival

  /** The workers, their ports, what a exports and what n misses. */
  datatype Roles = Roles(a: int, b: int, n: int, portA: int, portB: int, portN: int, exported: Pair, missed: Pair) {
    predicate Valid() {
      && a != b && a != n && b != n && a != NO_PEER && n != NO_PEER
      && portA != portB && portA != portN && portB != portN
      && exported.key != [] && missed.key != [] && exported.key != missed.key
    }

    function Ports(): map<int, int> {
      map[a := portA, b := portB, n := portN]
    }
  }

  ghost predicate Reaches(s: State, s': State) {
    exists steps :: Run(s, steps) == Some(s')
  }

  lemma StepReaches(s: State, step: Step)
    requires Next(s, step).Some?
    ensures Reaches(s, Next(s, step).value)
  {
    hide Next;
    var s' := Next(s, step).value;
    RunFirst(s, step, s', []);
    assert Run(s, [step] + []) == Some(s');
  }

  lemma RunReaches(s: State, steps: seq<Step>)
    requires Run(s, steps).Some?
    ensures Reaches(s, Run(s, steps).value)
  {
  }

  lemma ReachesOn(s: State, s1: State, s': State)
    requires Reaches(s, s1) && Reaches(s1, s')
    ensures Reaches(s, s')
  {
    hide Run;
    var xs :| Run(s, xs) == Some(s1);
    var ys :| Run(s1, ys) == Some(s');
    RunMore(s, xs, s1, ys);
    assert Run(s, xs + ys) == Some(s');
  }

  // ===== Stores

  lemma StoresAlone(s: State, a: int, p: Pair)
    requires a in s.workers && s.workers[a].peers == []
    requires s.workers[a].receiver.Ready? && Unlocked(s.workers[a], p.key) && p.key != []
    ensures Reaches(s, s.(workers := s.workers[a := Stored(s.workers[a], p)], puts := s.puts + {p}))
  {
    hide Run;
    var s1 := Next(s, Local(a, Store(p))).value;
    var s2 := Next(s1, Local(a, EndBroadcast)).value;
    StepReaches(s, Local(a, Store(p)));
    StepReaches(s1, Local(a, EndBroadcast));
    ReachesOn(s, s1, s2);
    assert s2.workers == s.workers[a := Stored(s.workers[a], p)] && s2.closed == s.closed;
  }

  lemma StoresToOne(s: State, b: int, a: int, port: int, p: Pair)
    requires b in s.workers && s.workers[b].peers == [PeerOf(a, port)] && a != NO_PEER
    requires s.workers[b].receiver.Ready? && Unlocked(s.workers[b], p.key) && p.key != []
    ensures Reaches(s, s.(workers := s.workers[b := Stored(s.workers[b], p)], puts := s.puts + {p},
                          channels := s.channels[(b, a) := Channel(s, b, a) + [Notify(p)]]))
  {
    hide Run, Set, Without, Lookup;
    var s1 := Next(s, Local(b, Store(p))).value;
    var s2 := Next(s1, Local(b, NotifySlot(true))).value;
    var s3 := Next(s2, Local(b, EndBroadcast)).value;
    StepReaches(s, Local(b, Store(p)));
    StepReaches(s1, Local(b, NotifySlot(true)));
    StepReaches(s2, Local(b, EndBroadcast));
    ReachesOn(s, s1, s2);
    ReachesOn(s, s2, s3);
    WithoutNone(s.workers[b].peers);
    assert s3.workers == s.workers[b := Stored(s.workers[b], p)] && s3.closed == s.closed;
  }

  // ===== Before the export

  /** a with its pair and a request to export it to n. */
  function Source(r: Roles): Worker {
    Stored(NewWorker(r.portA), r.exported).(peers := [PeerOf(r.n, r.portN)], requests := [r.n], owed := {r.n})
  }

  /** b with the pair that n will miss. */
  function Teller(r: Roles): Worker {
    Stored(NewWorker(r.portB).(peers := [PeerOf(r.a, r.portA)]), r.missed)
  }

  /** a has its pair and no peers. */
  predicate OneIsStored(r: Roles, s: State) {
    && s.workers == Initial(r.Ports()).workers[r.a := Stored(NewWorker(r.portA), r.exported)]
    && s.channels == map[] && s.backlogs == map[] && s.serving == map[] && s.closed == {} && s.broken == {}
  }

  lemma FirstStored(r: Roles) returns (s: State)
    requires r.Valid()
    ensures Reaches(Initial(r.Ports()), s) && OneIsStored(r, s)
  {
    hide Stored, Reaches;
    var s0 := Initial(r.Ports());
    StoresAlone(s0, r.a, r.exported);
    s := s0.(workers := s0.workers[r.a := Stored(s0.workers[r.a], r.exported)], puts := s0.puts + {r.exported});
  }

  /** b has entered a, stored its pair and told a. */
  predicate BothAreStored(r: Roles, s: State) {
    && r.a in s.workers && r.b in s.workers && r.n in s.workers
    && s.workers[r.a] == Stored(NewWorker(r.portA), r.exported)
    && s.workers[r.b] == Teller(r) && s.workers[r.n] == NewWorker(r.portN)
    && s.channels == map[(r.b, r.a) := [Notify(r.missed)]] && s.backlogs == map[r.a := [r.b]]
    && s.serving == map[] && s.closed == {} && s.broken == {}
  }

  lemma SecondStored(r: Roles, s: State) returns (s': State)
    requires r.Valid() && OneIsStored(r, s)
    ensures Reaches(s, s') && BothAreStored(r, s')
  {
    hide Stored, Reaches, Next;
    Enters(s, r.b, r.a, r.portA, false);
    StepReaches(s, Local(r.b, EnterPeer(r.a, r.portA, false)));
    var s1 := Next(s, Local(r.b, EnterPeer(r.a, r.portA, false))).value;
    StoresToOne(s1, r.b, r.a, r.portA, r.missed);
    var w := s1.workers[r.b];
    s' := s1.(workers := s1.workers[r.b := Stored(w, r.missed)], puts := s1.puts + {r.missed},
              channels := s1.channels[(r.b, r.a) := Channel(s1, r.b, r.a) + [Notify(r.missed)]]);
    ReachesOn(s, s1, s');
    NothingBefore([Notify(r.missed)]);
    NothingBefore([r.b]);
  }

  /** b has stored its pair and told a, which is still to export to n. */
  predicate IsSetUp(r: Roles, s: State) {
    && r.a in s.workers && r.b in s.workers && r.n in s.workers
    && s.workers[r.a] == Source(r) && s.workers[r.b] == Teller(r) && s.workers[r.n] == NewWorker(r.portN)
    && s.channels == map[(r.b, r.a) := [Notify(r.missed)]]
    && Backlog(s, r.a) == [r.b] && Backlog(s, r.n) == [r.a]
    && s.serving == map[] && s.closed == {} && s.broken == {}
  }

  lemma ExportRequested(r: Roles, s: State) returns (s': State)
    requires r.Valid() && BothAreStored(r, s)
    ensures Reaches(s, s') && IsSetUp(r, s')
  {
    hide Reaches, Next;
    var enter := Local(r.a, EnterPeer(r.n, r.portN, true));
    Enters(s, r.a, r.n, r.portN, true);
    StepReaches(s, enter);
    var s1 := Next(s, enter).value;
    assert ConnectionTo(s1.workers[r.a].peers, r.n) == Handle(0);
    Requests(s1, r.a, r.n);
    StepReaches(s1, Local(r.a, RequestExport));
    s' := Next(s1, Local(r.a, RequestExport)).value;
    ReachesOn(s, s1, s');
    NothingBefore([r.a]);
  }

  // ===== The export

  lemma OnePairIsThere(p: Pair)
    requires p.key != []
    ensures var t := Set(EmptyTable(), p.key, p.value);
      HashSpec.Valid(t) && p in t[Bucket(p.key)] && |Pairs(t)| == 1
  {
    var t := EmptyTable();
    assert Lookup(t, p.key) == None;
    FlatOfEmpty(BUCKET_COUNT);
    hide Flat, Bucket;
    ExportTally.SetGrowsFlat(t, p, BUCKET_COUNT);
    SetKeepsValid(t, p.key, p.value);
  }

  lemma OnePair(p: Pair)
    requires p.key != []
    ensures Pairs(Set(EmptyTable(), p.key, p.value)) == [p]
  {
    hide Set, Flat, HashSpec.Valid;
    OnePairIsThere(p);
    FlatHolds(Set(EmptyTable(), p.key, p.value), BUCKET_COUNT, p);
  }

  /** What an export of one pair sends. */
  function Script(p: Pair): seq<Message> {
    [Export(Start(1))] + ([Export(Data(p))] + [Export(End)])
  }

  lemma OnePairIsSent(n: int, p: Pair)
    requires p.key != []
    ensures MessagesTo(ScriptTo(n, Set(EmptyTable(), p.key, p.value)), n) == Script(p)
  {
    var first, data := [Sent(n, Export(Start(1)))], [Sent(n, Export(Data(p)))];
    OnePair(p);
    hide MessagesTo, PairsAlong, Pairs, Set;
    assert DataTo(n, [p]) == data by {
      DataToLast(n, [p]);
      assert [p][..0] == [] && [] + data == data;
    }
    MessageToThis([], n, Export(Start(1)));
    NothingBefore(first);
    MessageToThis(first, n, Export(Data(p)));
    MessageToThis(first + data, n, Export(End));
    Regroup(first, data, [Sent(n, Export(End))]);
    NothingSent(n);
    NothingBefore([Export(Start(1))]);
    Regroup([Export(Start(1))], [Export(Data(p))], [Export(End)]);
  }

  lemma NothingSent(n: int)
    ensures MessagesTo([], n) == []
  {
  }

  /** The connection has nothing on it and has not failed. */
  predicate IsQuiet(s: State, a: int, n: int) {
    Channel(s, a, n) == [] && IsIntact(s, a, n)
  }

  /** Nothing but a's export is on its way to n. */
  predicate OnlyExport(r: Roles, s: State) {
    && r.a in s.workers && r.b in s.workers && r.n in s.workers && s.workers[r.n] == NewWorker(r.portN)
    && Channel(s, r.a, r.n) == Script(r.exported) && Attends(s, r.a, r.n) && r.n !in s.serving
    && IsQuiet(s, r.b, r.n) && IsQuiet(s, r.n, r.n)
  }

  /** The export is sent, and b's notice still waits at a. */
  predicate IsExported(r: Roles, s: State) {
    && OnlyExport(r, s) && s.workers[r.a] == AfterExport(Source(r)) && s.workers[r.b] == Teller(r)
    && Channel(s, r.b, r.a) == [Notify(r.missed)] && Attends(s, r.b, r.a) && r.a !in s.serving
  }

  lemma SourceExports(r: Roles)
    requires r.Valid()
    ensures Exports(Source(r), r.n)
  {
    OnePair(r.exported);
    hide Pairs, Set;
    assert ConnectionTo(Source(r).peers, r.n) == Handle(0);
  }

  lemma OthersAreLeft(r: Roles, s: State, s': State)
    requires r.Valid() && IsSetUp(r, s) && s'.workers == s.workers[r.a := AfterExport(Source(r))]
    requires Channel(s', r.a, r.n) == Script(r.exported) && Attends(s', r.a, r.n)
    requires Leaves(s, s', (r.b, r.a)) && Leaves(s, s', (r.b, r.n)) && Leaves(s, s', (r.n, r.n))
    ensures IsExported(r, s')
  {
    hide AfterExport, Source, Teller, NewWorker, Script;
  }

  lemma ExportSent(r: Roles, s: State) returns (s': State)
    requires r.Valid() && IsSetUp(r, s)
    ensures Reaches(s, s') && IsExported(r, s')
  {
    var t := s.workers[r.a].table;
    var steps := Locals(r.a, ExportActions(t));
    SourceExports(r);
    OnePairIsSent(r.n, r.exported);
    hide Run, Exports, ScriptTo, MessagesTo, AfterExport, Locals, ExportActions, Set, Leaves, IsExported, Script;
    ExportIsSent(s, r.a, r.n);
    s' := Run(s, steps).value;
    RunReaches(s, steps);
    ActionsLeave(s, r.a, ExportActions(t), (r.b, r.a));
    ActionsLeave(s, r.a, ExportActions(t), (r.b, r.n));
    ActionsLeave(s, r.a, ExportActions(t), (r.n, r.n));
    OthersAreLeft(r, s, s');
  }

  // ===== After the export

  /** n serves nobody yet, and takes in a's messages first. */
  predicate IsPassedOn(r: Roles, s: State) {
    && OnlyExport(r, s) && s.workers[r.b] == Teller(r)
    && s.workers[r.a] == Holding(AfterExport(Source(r)), r.missed) && Channel(s, r.b, r.a) == []
  }

  lemma SourceIgnoresNot(r: Roles)
    requires r.Valid()
    ensures var w := AfterExport(Source(r));
      IsListening(w) && TakenIn(w, Notify(r.missed)) == Holding(w, r.missed)
  {
    LookupAfterSet(EmptyTable(), r.exported.key, r.exported.value, r.missed.key);
    assert Lookup(EmptyTable(), r.missed.key) == None;
  }

  /** a's own table, connection from b and backlog do not concern n. */
  lemma OnlyExportStays(r: Roles, s: State, s': State, w: Worker, channel: seq<Message>, waiting: seq<int>)
    requires r.Valid() && OnlyExport(r, s)
    requires s' == s.(workers := s.workers[r.a := w], channels := s.channels[(r.b, r.a) := channel],
                      serving := s.serving[r.a := r.b], backlogs := s.backlogs[r.a := waiting])
    ensures OnlyExport(r, s') && Channel(s', r.b, r.a) == channel
  {
    hide Script, NewWorker;
  }

  /** n accepts the connection that has waited longest. */
  lemma Accepts(s: State, n: int) returns (s': State)
    requires n !in s.serving && Backlog(s, n) != []
    ensures Reaches(s, s')
    ensures s' == s.(serving := s.serving[n := Backlog(s, n)[0]], backlogs := s.backlogs[n := Backlog(s, n)[1..]])
  {
    StepReaches(s, Serve(n));
    s' := Next(s, Serve(n)).value;
  }

  /** The listener takes in the first message of the connection it serves. */
  lemma TakesOneMore(s: State, a: int, n: int, m: Message, rest: seq<Message>) returns (s': State)
    requires n in s.workers && IsListening(s.workers[n]) && Serves(s, n, a) && Channel(s, a, n) == [m] + rest
    ensures Reaches(s, s')
    ensures s' == s.(workers := s.workers[n := TakenIn(s.workers[n], m)], channels := s.channels[(a, n) := rest])
  {
    assert Channel(s, a, n)[1..] == rest;
    TakesIn(s, a, n);
    var steps := TakeIn(s.workers[n], m, n, a);
    hide Run;
    RunReaches(s, steps);
    s' := Run(s, steps).value;
  }

  lemma NoticeTakenIn(r: Roles, s: State) returns (s': State)
    requires r.Valid() && IsExported(r, s)
    ensures Reaches(s, s') && IsPassedOn(r, s')
  {
    assert r.a in s.workers && r.b in s.workers && OnlyExport(r, s);
    SourceIgnoresNot(r);
    NothingBefore([Notify(r.missed)]);
    hide Run, Next, Reaches, AfterExport, Source, Teller, TakenIn, Holding, IsListening, OnlyExport;
    var s1 := Accepts(s, r.a);
    s' := TakesOneMore(s1, r.b, r.a, Notify(r.missed), []);
    ReachesOn(s, s1, s');
    OnlyExportStays(r, s, s', Holding(AfterExport(Source(r)), r.missed), [], Backlog(s, r.a)[1..]);
  }

  /** b is connected to n at last. */
  predicate IsMeshed(r: Roles, s: State) {
    && OnlyExport(r, s) && Channel(s, r.b, r.a) == []
    && s.workers[r.a] == Holding(AfterExport(Source(r)), r.missed)
    && s.workers[r.b] == Teller(r).(peers := [PeerOf(r.a, r.portA)] + [PeerOf(r.n, r.portN)])
  }

  lemma TellerHasOnePeer(r: Roles)
    requires r.Valid()
    ensures var w := Teller(r);
      && w.receiver.Ready? && w.port == r.portB && w.peers == [PeerOf(r.a, r.portA)]
      && FindPeer(w.peers, r.n) == |w.peers|
  {
  }

  /** Nor does b's joining those that wait for n to accept them. */
  lemma OnlyExportWaits(r: Roles, s: State, s': State, w: Worker)
    requires r.Valid() && OnlyExport(r, s)
    requires s' == s.(workers := s.workers[r.b := w], backlogs := s.backlogs[r.n := Backlog(s, r.n) + [r.b]])
    ensures OnlyExport(r, s') && Channel(s', r.b, r.a) == Channel(s, r.b, r.a)
  {
    hide Script, NewWorker;
  }

  lemma LateComer(r: Roles, s: State) returns (s': State)
    requires r.Valid() && IsPassedOn(r, s)
    ensures Reaches(s, s') && IsMeshed(r, s')
  {
    TellerHasOnePeer(r);
    var enter := Local(r.b, EnterPeer(r.n, r.portN, false));
    assert r.a in s.workers && r.b in s.workers && OnlyExport(r, s);
    hide Run, Next, Reaches, AfterExport, Source, Teller, Holding, FindPeer, OnlyExport;
    EntersNext(s, r.b, r.n, r.portN, false);
    StepReaches(s, enter);
    s' := Next(s, enter).value;
    OnlyExportWaits(r, s, s', s'.workers[r.b]);
  }

  /** n has taken in all that it was sent, and everything but n is as before. */
  predicate IsAtRest(r: Roles, s: State) {
    && r.a in s.workers && r.b in s.workers && r.n in s.workers
    && s.workers[r.a] == Holding(AfterExport(Source(r)), r.missed)
    && s.workers[r.b] == Teller(r).(peers := [PeerOf(r.a, r.portA)] + [PeerOf(r.n, r.portN)])
    && s.workers[r.n] == Holding(NewWorker(r.portN), r.exported)
    && Channel(s, r.b, r.a) == []
    && IsQuiet(s, r.a, r.n) && IsQuiet(s, r.b, r.n) && IsQuiet(s, r.n, r.n)
  }

  lemma ScriptAdds(w: Worker, p: Pair)
    requires IsListening(w) && !Has(w.table, p.key) && p.key != []
    ensures TakenIn(w, Export(Start(1))) == w && TakenIn(w, Export(Data(p))) == Holding(w, p)
    ensures IsListening(Holding(w, p)) && TakenIn(Holding(w, p), Export(End)) == Holding(w, p)
  {
  }

  /** The three messages of the export, once n serves a. */
  lemma ScriptTakenIn(s: State, a: int, n: int, p: Pair) returns (s': State)
    requires n in s.workers && IsListening(s.workers[n]) && Serves(s, n, a) && Channel(s, a, n) == Script(p)
    requires !Has(s.workers[n].table, p.key) && p.key != []
    ensures Reaches(s, s')
    ensures s' == s.(workers := s.workers[n := Holding(s.workers[n], p)], channels := s.channels[(a, n) := []])
  {
    ScriptAdds(s.workers[n], p);
    hide Run, Next, Reaches, IsListening, TakenIn, Holding, Has;
    var start, data, end := [Export(Start(1))], [Export(Data(p))], [Export(End)];
    NothingBefore(end);
    var s2 := TakesOneMore(s, a, n, Export(Start(1)), data + end);
    var s3 := TakesOneMore(s2, a, n, Export(Data(p)), end);
    s' := TakesOneMore(s3, a, n, Export(End), []);
    ReachesOn(s, s2, s3);
    ReachesOn(s, s3, s');
    assert s'.workers == s.workers[n := Holding(s.workers[n], p)];
    assert s'.channels == s.channels[(a, n) := []];
  }

  lemma NewLacks(port: int, p: Pair)
    ensures IsListening(NewWorker(port)) && !Has(NewWorker(port).table, p.key)
  {
  }

  lemma RestsAfter(r: Roles, s: State, s': State, waiting: seq<int>)
    requires r.Valid() && IsMeshed(r, s)
    requires s' == s.(workers := s.workers[r.n := Holding(s.workers[r.n], r.exported)],
                      channels := s.channels[(r.a, r.n) := []],
                      serving := s.serving[r.n := r.a], backlogs := s.backlogs[r.n := waiting])
    ensures IsAtRest(r, s')
  {
    hide AfterExport, Source, Teller, Holding, NewWorker;
  }

  lemma ExportTakenIn(r: Roles, s: State) returns (s': State)
    requires r.Valid() && IsMeshed(r, s)
    ensures Reaches(s, s') && IsAtRest(r, s')
  {
    NewLacks(r.portN, r.exported);
    hide Run, Next, Reaches, AfterExport, Source, Teller, Holding, Script, NewWorker, IsListening, Has, IsAtRest;
    var s1 := Accepts(s, r.n);
    s' := ScriptTakenIn(s1, r.a, r.n, r.exported);
    ReachesOn(s, s1, s');
    RestsAfter(r, s, s', Backlog(s, r.n)[1..]);
  }

  /** a and b are connected to n, b has told a of the key, nothing is on its way, and n lacks the key. */
  ghost predicate IsMissed(r: Roles, s: State) {
    && r.a in s.workers && r.b in s.workers && r.n in s.workers
    && ConnectionTo(s.workers[r.a].peers, r.n) != Invalid && ConnectionTo(s.workers[r.b].peers, r.n) != Invalid
    && Channel(s, r.b, r.a) == [] && KeyArrival.AllArrived(s, r.n)
    && r.missed.key in s.workers[r.b].stored && Has(s.workers[r.a].table, r.missed.key)
    && !Has(s.workers[r.n].table, r.missed.key)
  }

  lemma OnlyNLacks(r: Roles)
    requires r.Valid()
    ensures Has(Holding(AfterExport(Source(r)), r.missed).table, r.missed.key)
    ensures !Has(Holding(NewWorker(r.portN), r.exported).table, r.missed.key)
  {
    LookupAfterSet(Source(r).table, r.missed.key, r.missed.value, r.missed.key);
    LookupAfterSet(EmptyTable(), r.exported.key, r.exported.value, r.missed.key);
    assert Lookup(EmptyTable(), r.missed.key) == None;
  }

  lemma RestMisses(r: Roles, s: State)
    requires r.Valid() && IsAtRest(r, s) && s.workers.Keys == {r.a, r.b, r.n}
    ensures IsMissed(r, s)
  {
    hide Has, Set;
    OnlyNLacks(r);
  }

  /**
   * From the start, whatever the ids, ports and values: a key that b stores before
   * n is its peer, and that comes to a after a's scan for n, is at both of them and
   * not at n, with all connections made, intact and drained.
   */
  lemma KeyIsMissed(r: Roles)
    requires r.Valid()
    ensures exists steps :: Run(Initial(r.Ports()), steps).Some? && IsMissed(r, Run(Initial(r.Ports()), steps).value)
  {
    hide Run, Initial, Reaches, IsMissed;
    hide OneIsStored, BothAreStored, IsSetUp, IsExported, IsPassedOn, IsMeshed, IsAtRest;
    var s0 := Initial(r.Ports());
    var s1 := FirstStored(r);
    var s2 := SecondStored(r, s1);
    ReachesOn(s0, s1, s2);
    var s3 := ExportRequested(r, s2);
    ReachesOn(s0, s2, s3);
    var s4 := ExportSent(r, s3);
    ReachesOn(s0, s3, s4);
    var s5 := NoticeTakenIn(r, s4);
    ReachesOn(s0, s4, s5);
    var s6 := LateComer(r, s5);
    ReachesOn(s0, s5, s6);
    var s7 := ExportTakenIn(r, s6);
    ReachesOn(s0, s6, s7);
    MissedAtEnd(r, s7);
  }

  lemma MissedAtEnd(r: Roles, s: State)
    requires r.Valid() && Reaches(Initial(r.Ports()), s) && IsAtRest(r, s)
    ensures exists steps :: Run(Initial(r.Ports()), steps).Some? && IsMissed(r, Run(Initial(r.Ports()), steps).value)
  {
    hide Run, IsMissed, IsAtRest;
    var steps :| Run(Initial(r.Ports()), steps) == Some(s);
    KeyArrival.RunKeepsWorkers(Initial(r.Ports()), steps);
    RestMisses(r, s);
    assert Run(Initial(r.Ports()), steps).Some? && IsMissed(r, Run(Initial(r.Ports()), steps).value);
  }
}
