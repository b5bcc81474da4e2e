/**
 * Client requests on their way to a worker.  Client threads
 * (LoadBalancer/ClientDataReceiverThread.c) put requests that parse into the
 * queue of module PermitQueue; the dispatcher
 * (LoadBalancer/WorkerClientRequestDispatcherThread.c) takes a request, picks a
 * worker, sends, and puts the request back if that fails.
 */
module Dispatcher {
  import opened Config
  import opened MessageQueue
  import opened Payload
  import Protocol
  import PQ = PermitQueue

  type Request = Message<ClientOwner>

  /** What a request asks for, or None where ReceivePut or ReceiveGet rejects it. */
  function Asked(r: Request): Option<seq<Field>> {
    if r.messageType == Protocol.MSG_PUT then Parse(PUT, r.payload)
    else if r.messageType == Protocol.MSG_GET then Parse(GET, r.payload)
    else None
  }

  predicate IsKnownType(r: Request) {
    r.messageType == Protocol.MSG_PUT || r.messageType == Protocol.MSG_GET
  }

  /** The admission test of the client threads. */
  predicate Admitted(r: Request) {
    IsKnownType(r) && Asked(r).Some?
  }

  /** SendStoreRequest and SendRetrieveRequest accept the request only if its key is not empty. */
  predicate Sendable(r: Request) {
    Asked(r).Some? && Asked(r).value != [] && Asked(r).value[0].Str? && Asked(r).value[0].s != []
  }

  const DISPATCHER: nat := 0

  /**
   * `hand` is the request the dispatcher has, `worker` the worker it has picked;
   * `returning`: it is inside ReturnClientRequestQueue.  The other fields record
   * history: what was accepted from clients, what was sent and to which worker,
   * what was dropped by a failed return or thrown away unparsed, and how often a
   * send failed.
   */
  datatype State = State(
    queue: PQ.State<Request>, hand: Option<Request>, worker: Option<int>, returning: bool,
    accepted: seq<Request>, sent: seq<Request>, sentTo: seq<int>,
    dropped: seq<Request>, discarded: seq<Request>, failures: nat)

  datatype Step =
    // a client thread
    | Offer(client: nat, request: Request)
    | Enqueue(client: nat)
    | Signal(client: nat)
    // the dispatcher
    | AwaitRequest
    | TakeRequest
    | SignalRoom
    | PickWorker(id: int)
    | Send(result: int)
    | AwaitRoom
    | GiveUp   // the wait on notFull times out
    | PutBack
    | SignalBack

  function Phase(s: State, t: nat): PQ.Phase<Request> {
    if t in s.queue.threads then s.queue.threads[t] else PQ.Idle
  }

  function WithQueue(s: State, step: PQ.Step<Request>): Option<State> {
    match PQ.Next(s.queue, step)
    case None => None
    case Some(q) => Some(s.(queue := q))
  }

  function ClientStep(s: State, step: Step): Option<State>
    requires step.Offer? || step.Enqueue? || step.Signal?
  {
    if step.client == DISPATCHER then None
    else
      match step
      case Offer(c, r) => if Admitted(r) then WithQueue(s, PQ.AwaitRoom(c, r)) else None
      case Enqueue(c) =>
        if !Phase(s, c).MayEnqueue? then None
        else
          var isFull := |s.queue.queue| >= QUEUE_CAPACITY;
          var accepted := if isFull then s.accepted else s.accepted + [Phase(s, c).item];
          WithQueue(s.(accepted := accepted), PQ.Locked(c))
      case Signal(c) => WithQueue(s, PQ.Release(c))
  }

  /** The dispatcher is between calls. */
  predicate IsFree(s: State) {
    !s.returning && Phase(s, DISPATCHER).Idle?
  }

  function DispatcherStep(s: State, step: Step): Option<State>
    requires !step.Offer? && !step.Enqueue? && !step.Signal?
  {
    var phase := Phase(s, DISPATCHER);
    match step
    case AwaitRequest =>
      if IsFree(s) && s.hand.None? then WithQueue(s, PQ.AwaitItem(DISPATCHER)) else None
    case TakeRequest =>
      if !phase.MayDequeue? then None
      else
        var hand := if s.queue.queue == [] then s.hand else Some(s.queue.queue[0]);
        WithQueue(s.(hand := hand), PQ.Locked(DISPATCHER))
    case SignalRoom =>
      if phase.Dequeued? then WithQueue(s, PQ.Release(DISPATCHER)) else None
    case PickWorker(id) =>
      if IsFree(s) && s.hand.Some? && s.worker.None? then Some(s.(worker := Some(id))) else None
    case Send(result) =>
      if !IsFree(s) || s.hand.None? || s.worker.None? then None
      else
        var r := s.hand.value;
        if !IsKnownType(r) then Some(s)
        else if Asked(r).None? then Some(s.(hand := None, discarded := s.discarded + [r]))
        else if Sendable(r) && result > 0 then
          Some(s.(hand := None, worker := None, sent := s.sent + [r], sentTo := s.sentTo + [s.worker.value]))
        else Some(s.(returning := true, failures := s.failures + 1))
    case AwaitRoom =>
      if s.returning && phase.Idle? && s.hand.Some? then WithQueue(s, PQ.AwaitRoom(DISPATCHER, s.hand.value)) else None
    case GiveUp =>
      if s.returning && phase.Idle? && s.hand.Some? && s.queue.notFull == 0
      then Some(s.(hand := None, worker := None, returning := false, dropped := s.dropped + [s.hand.value]))
      else None
    case PutBack =>
      if !phase.MayEnqueue? then None
      else if |s.queue.queue| >= QUEUE_CAPACITY then
        WithQueue(
          s.(hand := None, worker := None, returning := false, dropped := s.dropped + [phase.item]),
          PQ.Locked(DISPATCHER))
      else WithQueue(s.(hand := None, worker := None), PQ.Locked(DISPATCHER))
    case SignalBack =>
      if phase.Enqueued? then WithQueue(s.(returning := false), PQ.Release(DISPATCHER)) else None
  }

  function Next(s: State, step: Step): Option<State> {
    if step.Offer? || step.Enqueue? || step.Signal? then ClientStep(s, step) else DispatcherStep(s, step)
  }

  function Initial(clients: set<nat>): State {
    State(PQ.Initial(clients + {DISPATCHER}), None, None, false, [], [], [], [], [], 0)
  }

  function Run(s: State, steps: seq<Step>): Option<State>
    decreases |steps|
  {
    if steps == [] then Some(s)
    else
      match Next(s, steps[0])
      case None => None
      case Some(s') => Run(s', steps[1..])
  }

  // ===== Conservation

  function InHand(s: State): seq<Request> {
    if s.hand.Some? then [s.hand.value] else []
  }

  /** Every accepted request is in exactly one place. */
  ghost predicate Conserved(s: State) {
    multiset(s.accepted) ==
      multiset(s.queue.queue) + multiset(InHand(s)) + multiset(s.sent) + multiset(s.dropped)
  }

  /** As long as no send has failed, requests keep the order they were accepted in. */
  ghost predicate InOrder(s: State) {
    s.failures == 0 ==> !s.returning && s.dropped == [] && s.sent + InHand(s) + s.queue.queue == s.accepted
  }

  /** Where the dispatcher stands, and what it then has in hand. */
  predicate Consistent(s: State) {
    match Phase(s, DISPATCHER)
    case Idle => s.returning ==> s.hand.Some?
    case MayEnqueue(item) => s.returning && s.hand == Some(item)
    case Enqueued => s.returning && s.hand == None
    case MayDequeue => !s.returning && s.hand == None
    case Dequeued(_) => !s.returning && s.hand.Some?
  }

  ghost predicate AllAdmitted(s: State) {
    && (forall i :: 0 <= i < |s.queue.queue| ==> Admitted(s.queue.queue[i]))
    && (s.hand.Some? ==> Admitted(s.hand.value))
    && (forall t <- s.queue.threads :: s.queue.threads[t].MayEnqueue? ==> Admitted(s.queue.threads[t].item))
    && s.discarded == []
  }

  ghost predicate SentIsSendable(s: State) {
    |s.sentTo| == |s.sent| && forall i :: 0 <= i < |s.sent| ==> Sendable(s.sent[i])
  }

  ghost predicate Inv(s: State) {
    && DISPATCHER in s.queue.threads && PQ.Accounted(s.queue)
    && Consistent(s) && AllAdmitted(s) && SentIsSendable(s) && Conserved(s) && InOrder(s)
  }

  lemma OfferKeepsInv(s: State, c: nat, r: Request)
    requires Inv(s) && Next(s, Offer(c, r)).Some?
    ensures Inv(Next(s, Offer(c, r)).value)
  {
    PQ.StepKeepsAccounts(s.queue, PQ.AwaitRoom(c, r));
  }

  lemma AcceptingKeepsOrder(s: State, s': State, item: Request)
    requires Conserved(s) && InOrder(s)
    requires s' == s.(accepted := s.accepted + [item], queue := s'.queue)
    requires s'.queue.queue == s.queue.queue + [item]
    ensures Conserved(s') && InOrder(s')
  {
    assert (s.sent + InHand(s) + s.queue.queue) + [item] == s.sent + InHand(s) + (s.queue.queue + [item]);
  }

  lemma EnqueueKeepsInv(s: State, c: nat)
    requires Inv(s) && Next(s, Enqueue(c)).Some?
    ensures Inv(Next(s, Enqueue(c)).value)
  {
    PQ.StepKeepsAccounts(s.queue, PQ.Locked(c));
    PQ.BranchesUnreachable(s.queue, c);
    AcceptingKeepsOrder(s, Next(s, Enqueue(c)).value, Phase(s, c).item);
  }

  /** A client thread that has ended its call. */
  lemma IdleKeepsInv(s: State, s': State, c: nat)
    requires Inv(s) && c != DISPATCHER && PQ.Accounted(s'.queue)
    requires s' == s.(queue := s'.queue) && s'.queue.queue == s.queue.queue
    requires s'.queue.threads == s.queue.threads[c := PQ.Idle]
    ensures Inv(s')
  {
    hide PQ.Accounted, Admitted, Sendable;
  }

  lemma SignalKeepsInv(s: State, c: nat)
    requires Inv(s) && Next(s, Signal(c)).Some?
    ensures Inv(Next(s, Signal(c)).value)
  {
    assert PQ.Accounted(s.queue);
    hide PQ.Accounted, Inv;
    PQ.StepKeepsAccounts(s.queue, PQ.Release(c));
    IdleKeepsInv(s, Next(s, Signal(c)).value, c);
  }

  /** The dispatcher, having ended its call. */
  lemma CallEndKeepsInv(s: State, s': State)
    requires Inv(s) && PQ.Accounted(s'.queue) && (Phase(s, DISPATCHER).Enqueued? || Phase(s, DISPATCHER).Dequeued?)
    requires s' == s.(queue := s'.queue, returning := false) && s'.queue.queue == s.queue.queue
    requires s'.queue.threads == s.queue.threads[DISPATCHER := PQ.Idle]
    ensures Inv(s')
  {
    hide PQ.Accounted, Admitted, Sendable;
  }

  lemma ReleaseKeepsInv(s: State, step: Step)
    requires step.SignalRoom? || step.SignalBack?
    requires Inv(s) && Next(s, step).Some?
    ensures Inv(Next(s, step).value)
  {
    assert PQ.Accounted(s.queue);
    hide PQ.Accounted, Inv;
    PQ.StepKeepsAccounts(s.queue, PQ.Release(DISPATCHER));
    CallEndKeepsInv(s, Next(s, step).value);
  }

  lemma WaitKeepsInv(s: State, step: Step)
    requires step.AwaitRequest? || step.AwaitRoom?
    requires Inv(s) && Next(s, step).Some?
    ensures Inv(Next(s, step).value)
  {
    var wait := if step.AwaitRequest? then PQ.AwaitItem(DISPATCHER) else PQ.AwaitRoom(DISPATCHER, s.hand.value);
    PQ.StepKeepsAccounts(s.queue, wait);
  }

  lemma TakingKeepsOrder(s: State, s': State)
    requires Conserved(s) && InOrder(s) && s.hand.None? && s.queue.queue != []
    requires s' == s.(hand := Some(s.queue.queue[0]), queue := s'.queue)
    requires s'.queue.queue == s.queue.queue[1..]
    ensures Conserved(s') && InOrder(s')
  {
    var q := s.queue.queue;
    assert q == [q[0]] + q[1..];
    NothingBefore(s.sent);
    Regroup(s.sent, [q[0]], q[1..]);
  }

  lemma TakeKeepsInv(s: State)
    requires Inv(s) && Next(s, TakeRequest).Some?
    ensures Inv(Next(s, TakeRequest).value)
  {
    PQ.StepKeepsAccounts(s.queue, PQ.Locked(DISPATCHER));
    PQ.BranchesUnreachable(s.queue, DISPATCHER);
    TakingKeepsOrder(s, Next(s, TakeRequest).value);
  }

  /** The request in hand has gone to its worker. */
  lemma SendingKeepsInv(s: State, s': State, r: Request)
    requires Inv(s) && IsFree(s) && s.hand == Some(r) && Sendable(r)
    requires s' == s.(hand := None, worker := None, sent := s.sent + [r], sentTo := s'.sentTo)
    requires |s'.sentTo| == |s.sentTo| + 1
    ensures Inv(s')
  {
    hide PQ.Accounted, Admitted, Sendable;
    Regroup(s.sent, [r], s.queue.queue);
    NothingBefore(s'.sent);
  }

  /** It has been dropped after a failure. */
  lemma DroppingKeepsInv(s: State, s': State, r: Request)
    requires Inv(s) && Phase(s, DISPATCHER).Idle? && s.hand == Some(r) && s.returning
    requires s' == s.(hand := None, worker := None, returning := false, dropped := s.dropped + [r])
    ensures Inv(s')
  {
    hide PQ.Accounted, Admitted, Sendable;
  }

  /** A worker has been picked, or a send has failed. */
  lemma HoldingKeepsInv(s: State, s': State)
    requires Inv(s) && IsFree(s) && s.hand.Some?
    requires s' == s.(worker := s'.worker, returning := s'.returning, failures := s'.failures)
    requires s'.failures >= s.failures && (s'.returning ==> s'.failures > 0)
    ensures Inv(s')
  {
    hide PQ.Accounted, Admitted, Sendable;
  }

  lemma SendKeepsInv(s: State, step: Step)
    requires step.PickWorker? || step.Send? || step.GiveUp?
    requires Inv(s) && Next(s, step).Some?
    ensures Inv(Next(s, step).value)
  {
    var s' := Next(s, step).value;
    assert s.hand.Some? && Admitted(s.hand.value);
    hide Inv, Asked, Sendable;
    if step.GiveUp? {
      DroppingKeepsInv(s, s', s.hand.value);
    } else if s'.hand.None? {
      SendingKeepsInv(s, s', s.hand.value);
    } else {
      HoldingKeepsInv(s, s');
    }
  }

  lemma PutBackKeepsInv(s: State)
    requires Inv(s) && Next(s, PutBack).Some?
    ensures Inv(Next(s, PutBack).value)
  {
    PQ.StepKeepsAccounts(s.queue, PQ.Locked(DISPATCHER));
    PQ.BranchesUnreachable(s.queue, DISPATCHER);
  }

  lemma StepKeepsInv(s: State, step: Step)
    requires Inv(s) && Next(s, step).Some?
    ensures Inv(Next(s, step).value)
  {
    match step
    case Offer(c, r) => OfferKeepsInv(s, c, r);
    case Enqueue(c) => EnqueueKeepsInv(s, c);
    case Signal(c) => SignalKeepsInv(s, c);
    case SignalRoom => ReleaseKeepsInv(s, step);
    case SignalBack => ReleaseKeepsInv(s, step);
    case AwaitRequest => WaitKeepsInv(s, step);
    case AwaitRoom => WaitKeepsInv(s, step);
    case TakeRequest => TakeKeepsInv(s);
    case PutBack => PutBackKeepsInv(s);
    case PickWorker(_) => SendKeepsInv(s, step);
    case Send(_) => SendKeepsInv(s, step);
    case GiveUp => SendKeepsInv(s, step);
  }

  lemma {:induction false} RunKeepsInv(s: State, steps: seq<Step>)
    requires Inv(s) && Run(s, steps).Some?
    ensures Inv(Run(s, steps).value)
    decreases |steps|
  {
    if steps != [] {
      StepKeepsInv(s, steps[0]);
      RunKeepsInv(Next(s, steps[0]).value, steps[1..]);
    }
  }

  lemma InitiallyInv(clients: set<nat>)
    ensures Inv(Initial(clients))
  {
    PQ.InitiallyAccounted<Request>(clients + {DISPATCHER});
  }

  /**
   * In every interleaving: each accepted request is in exactly one of the queue,
   * the dispatcher's hand, those sent to exactly one worker, and those dropped;
   * a request in hand has a known type and parses, so none is thrown away; what
   * was sent has a key; and while no send fails, requests are sent in the order
   * they were accepted.
   */
  lemma EveryInterleaving(clients: set<nat>, steps: seq<Step>)
    requires Run(Initial(clients), steps).Some?
    ensures var s := Run(Initial(clients), steps).value;
      && Conserved(s) && |s.sentTo| == |s.sent|
      && (s.hand.Some? ==> Admitted(s.hand.value)) && s.discarded == []
      && (forall i :: 0 <= i < |s.sent| ==> Sendable(s.sent[i]))
      && (s.failures == 0 ==> s.dropped == [] && s.sent + InHand(s) + s.queue.queue == s.accepted)
  {
    InitiallyInv(clients);
    RunKeepsInv(Initial(clients), steps);
  }

  /** A return can time out if and only if every slot of the queue is taken, promised or not yet given back. */
  lemma ReturnTimesOutIffFull(s: State)
    requires Inv(s) && s.returning && Phase(s, DISPATCHER).Idle?
    ensures Next(s, GiveUp).Some? <==>
              |s.queue.queue| + PQ.Threads(s.queue, PQ.Producing) + PQ.Threads(s.queue, PQ.Consumed) == QUEUE_CAPACITY
  {
  }

  /** Only a return that times out drops a request. */
  lemma DropsAreTimeouts(s: State, step: Step)
    requires Inv(s) && Next(s, step).Some?
    ensures Next(s, step).value.dropped == if step.GiveUp? then s.dropped + [s.hand.value] else s.dropped
  {
    if step.PutBack? {
      PQ.BranchesUnreachable(s.queue, DISPATCHER);
    }
  }

  /** A request with an empty key is never sent: it stays with the load balancer unless it is dropped. */
  lemma EmptyKeyStays(clients: set<nat>, steps: seq<Step>, r: Request)
    requires Run(Initial(clients), steps).Some? && !Sendable(r)
    ensures var s := Run(Initial(clients), steps).value;
      multiset(s.accepted)[r] == multiset(s.queue.queue + InHand(s) + s.dropped)[r]
  {
    EveryInterleaving(clients, steps);
    var s := Run(Initial(clients), steps).value;
    assert r !in multiset(s.sent);
  }

  /** What a client has to send for this: no key at all, or one that begins with a NUL. */
  lemma UnsendableIffNoKey(r: Request)
    requires Admitted(r)
    ensures |r.payload| >= 2 + Value16(r.payload)
    ensures !Sendable(r) <==> Value16(r.payload) == 0 || r.payload[2] == 0
  {
    var kinds := if r.messageType == Protocol.MSG_PUT then PUT else GET;
    FirstField(kinds, r.payload);
    KeyIsEmpty(r.payload);
  }

  lemma FirstField(kinds: seq<Kind>, b: Bytes)
    requires kinds != [] && Parse(kinds, b).Some?
    ensures Read(kinds[0], b).Some? && Parse(kinds, b).value != []
    ensures Parse(kinds, b).value[0] == Read(kinds[0], b).value.0
  {
    ParseFirst(kinds, b);
  }

  lemma KeyIsEmpty(b: Bytes)
    requires Read(KEY, b).Some?
    ensures |b| >= 2 + Value16(b) && Read(KEY, b).value.0.Str?
    ensures Read(KEY, b).value.0.s == [] <==> Value16(b) == 0 || b[2] == 0
  {
    var key := b[2..2 + Value16(b)];
    assert Terminated(key) == [] <==> key == [] || key[0] == 0;
  }

  /** The shortest such request is admitted, and a client thread puts it into the queue. */
  lemma EmptyKeyIsAccepted(owner: ClientOwner, client: nat)
    requires client != DISPATCHER
    ensures var r := Message(owner, [0, 0], Protocol.MSG_GET);
      && Admitted(r) && !Sendable(r)
      && var steps := [Offer(client, r), Enqueue(client)];
         Run(Initial({client}), steps).Some? && Run(Initial({client}), steps).value.accepted == [r]
  {
    var r: Request := Message(owner, [0, 0], Protocol.MSG_GET);
    ParseEncoded(GET, [Str([])], []);
    assert Encode([Str([])]) + [] == [0, 0];
    var s0 := Initial({client});
    var s1 := Next(s0, Offer(client, r)).value;
    var s2 := Next(s1, Enqueue(client)).value;
    NothingBefore([r]);
    RunStep(s0, Offer(client, r), [Enqueue(client)]);
    RunStep(s1, Enqueue(client), []);
    NothingBefore([Enqueue(client)]);
    assert [Offer(client, r)] + [Enqueue(client)] == [Offer(client, r), Enqueue(client)];
  }

  lemma RunStep(s: State, step: Step, rest: seq<Step>)
    requires Next(s, step).Some?
    ensures Run(s, [step] + rest) == Run(Next(s, step).value, rest)
  {
    assert ([step] + rest)[1..] == rest;
  }

  /** Whatever sending answers, a request with an empty key has to be returned. */
  lemma EmptyKeyFails(s: State, id: int, result: int)
    requires IsFree(s) && s.hand.Some? && s.worker.None? && Admitted(s.hand.value) && !Sendable(s.hand.value)
    ensures Run(s, [PickWorker(id), Send(result)]) ==
              Some(s.(worker := Some(id), returning := true, failures := s.failures + 1))
  {
    var s1 := s.(worker := Some(id));
    var s2 := s1.(returning := true, failures := s.failures + 1);
    RunStep(s, PickWorker(id), [Send(result)]);
    RunStep(s1, Send(result), []);
    assert Run(s2, []) == Some(s2);
    assert [PickWorker(id)] + [Send(result)] == [PickWorker(id), Send(result)];
    assert [Send(result)] + [] == [Send(result)];
  }

  /** The state once the request in hand is back in the queue. */
  function Returned(s: State): State
    requires s.hand.Some? && s.queue.notFull > 0
  {
    var q, r := s.queue, s.hand.value;
    s.(hand := None, worker := None, returning := false,
       queue := q.(queue := q.queue + [r], accepted := q.accepted + [r],
                   notFull := q.notFull - 1, notEmpty := q.notEmpty + 1))
  }

  lemma ReturnRuns(s: State)
    requires s.returning && DISPATCHER in s.queue.threads && Phase(s, DISPATCHER).Idle? && s.hand.Some?
    requires s.queue.notFull > 0 && |s.queue.queue| < QUEUE_CAPACITY && s.queue.notEmpty < QUEUE_CAPACITY
    ensures Run(s, [AwaitRoom, PutBack, SignalBack]) == Some(Returned(s))
  {
    var s1 := Next(s, AwaitRoom).value;
    var s2 := Next(s1, PutBack).value;
    var s3 := Next(s2, SignalBack).value;
    assert s3.queue.threads == s.queue.threads;
    assert s3 == Returned(s);
    RunStep(s, AwaitRoom, [PutBack, SignalBack]);
    RunStep(s1, PutBack, [SignalBack]);
    RunStep(s2, SignalBack, []);
    assert [AwaitRoom] + [PutBack, SignalBack] == [AwaitRoom, PutBack, SignalBack];
    assert [PutBack] + [SignalBack] == [PutBack, SignalBack] && [SignalBack] + [] == [SignalBack];
  }

  /** ReturnClientRequestQueue when there is room: the request goes to the end of the queue. */
  lemma WholeReturn(s: State)
    requires Inv(s) && s.returning && Phase(s, DISPATCHER).Idle? && s.queue.notFull > 0
    ensures Run(s, [AwaitRoom, PutBack, SignalBack]) == Some(Returned(s))
  {
    ReturnRuns(s);
  }

  // ===== A run that drops a request

  lemma {:induction false} RunMore(s: State, xs: seq<Step>, s1: State, ys: seq<Step>)
    requires Run(s, xs) == Some(s1)
    ensures Run(s, xs + ys) == Run(s1, ys)
    decreases |xs|
  {
    if xs == [] {
      NothingBefore(ys);
    } else {
      assert (xs + ys)[1..] == xs[1..] + ys;
      RunMore(Next(s, xs[0]).value, xs[1..], s1, ys);
    }
  }

  /** A client thread's call of the queue. */
  function Call(client: nat, r: Request): seq<Step> {
    [Offer(client, r)] + ([Enqueue(client)] + [Signal(client)])
  }

  /** The state once a client thread has put a request into the queue. */
  function Called(s: State, r: Request): State
    requires s.queue.notFull > 0
  {
    var q := s.queue;
    s.(accepted := s.accepted + [r],
       queue := q.(queue := q.queue + [r], accepted := q.accepted + [r],
                   notFull := q.notFull - 1, notEmpty := q.notEmpty + 1))
  }

  /** There is room for n more requests, and this client thread is between calls. */
  predicate HasRoom(s: State, client: nat, n: nat) {
    && client != DISPATCHER && client in s.queue.threads && s.queue.threads[client].Idle?
    && n <= s.queue.notFull && |s.queue.queue| + n <= QUEUE_CAPACITY && s.queue.notEmpty + n <= QUEUE_CAPACITY
  }

  lemma CallRuns(s: State, client: nat, r: Request)
    requires Admitted(r) && HasRoom(s, client, 1)
    ensures Run(s, Call(client, r)) == Some(Called(s, r))
  {
    hide Asked;
    var s1 := Next(s, Offer(client, r)).value;
    var s2 := Next(s1, Enqueue(client)).value;
    var s3 := Next(s2, Signal(client)).value;
    assert s3.queue.threads == s.queue.threads;
    RunStep(s, Offer(client, r), [Enqueue(client)] + [Signal(client)]);
    RunStep(s1, Enqueue(client), [Signal(client)]);
    RunStep(s2, Signal(client), []);
    NothingBefore([Signal(client)]);
  }

  function Calls(client: nat, rs: seq<Request>): seq<Step> {
    if rs == [] then [] else Call(client, rs[0]) + Calls(client, rs[1..])
  }

  lemma {:induction false} CallsFill(s: State, client: nat, rs: seq<Request>)
    requires (forall r <- rs :: Admitted(r)) && HasRoom(s, client, |rs|)
    ensures Run(s, Calls(client, rs)).Some?
    ensures var s', q := Run(s, Calls(client, rs)).value, s.queue;
      && s' == s.(accepted := s'.accepted, queue := s'.queue)
      && s'.queue.threads == q.threads && s'.queue.queue == q.queue + rs
      && s'.queue.notFull == q.notFull - |rs| && s'.queue.notEmpty == q.notEmpty + |rs|
    decreases |rs|
  {
    if rs != [] {
      hide Call, Next, Admitted;
      CallRuns(s, client, rs[0]);
      RunMore(s, Call(client, rs[0]), Called(s, rs[0]), Calls(client, rs[1..]));
      CallsFill(Called(s, rs[0]), client, rs[1..]);
      assert rs == [rs[0]] + rs[1..];
      Regroup(s.queue.queue, [rs[0]], rs[1..]);
    } else {
      NothingBefore(s.queue.queue);
    }
  }

  /** The dispatcher's call of the queue. */
  const TAKE := [AwaitRequest] + ([TakeRequest] + [SignalRoom])

  /** The state once the dispatcher has the first request in hand. */
  function Taken(s: State): State
    requires s.queue.queue != [] && s.queue.notEmpty > 0
  {
    var q := s.queue;
    s.(hand := Some(q.queue[0]),
       queue := q.(queue := q.queue[1..], taken := q.taken + [q.queue[0]],
                   notEmpty := q.notEmpty - 1, notFull := q.notFull + 1))
  }

  lemma TakeRuns(s: State)
    requires IsFree(s) && s.hand.None? && DISPATCHER in s.queue.threads
    requires s.queue.queue != [] && s.queue.notEmpty > 0 && s.queue.notFull < QUEUE_CAPACITY
    ensures Run(s, TAKE) == Some(Taken(s))
  {
    var s1 := Next(s, AwaitRequest).value;
    var s2 := Next(s1, TakeRequest).value;
    var s3 := Next(s2, SignalRoom).value;
    assert s3.queue.threads == s.queue.threads;
    RunStep(s, AwaitRequest, [TakeRequest] + [SignalRoom]);
    RunStep(s1, TakeRequest, [SignalRoom]);
    RunStep(s2, SignalRoom, []);
    NothingBefore([SignalRoom]);
  }

  lemma FailedSendDrops(s: State, r: Request, id: int)
    requires IsFree(s) && s.hand == Some(r) && s.worker.None? && Admitted(r) && s.queue.notFull == 0
    ensures var steps := [PickWorker(id)] + ([Send(-1)] + [GiveUp]);
      Run(s, steps).Some? && Run(s, steps).value.dropped == s.dropped + [r]
  {
    var s1 := Next(s, PickWorker(id)).value;
    var s2 := Next(s1, Send(-1)).value;
    RunStep(s, PickWorker(id), [Send(-1)] + [GiveUp]);
    RunStep(s1, Send(-1), [GiveUp]);
    RunStep(s2, GiveUp, []);
    NothingBefore([GiveUp]);
  }

  /** The one request of a new system is accepted and taken. */
  lemma FirstRequestIsTaken(client: nat, r: Request)
    requires client != DISPATCHER && Admitted(r)
    ensures var s0 := Initial({client});
      && Run(s0, Call(client, r) + TAKE).Some?
      && var s := Run(s0, Call(client, r) + TAKE).value;
         && IsFree(s) && s.hand == Some(r) && s.worker.None? && s.dropped == []
         && HasRoom(s, client, QUEUE_CAPACITY) && s.queue.notFull == QUEUE_CAPACITY
  {
    var s0 := Initial({client});
    CallRuns(s0, client, r);
    NothingBefore([r]);
    TakeRuns(Called(s0, r));
    hide Run, Next;
    RunMore(s0, Call(client, r), Called(s0, r), TAKE);
  }

  /**
   * Any request that the load balancer accepts can be lost: the dispatcher takes
   * it, further calls fill the queue, sending fails, and the return times out.
   */
  lemma RequestIsDropped(client: nat, r: Request, id: int)
    requires client != DISPATCHER && Admitted(r)
    ensures exists steps :: Run(Initial({client}), steps).Some?
              && Run(Initial({client}), steps).value.dropped == [r]
  {
    var s0, more := Initial({client}), seq(QUEUE_CAPACITY, _ => r);
    var take := Call(client, r) + TAKE;
    var fill, drop := Calls(client, more), [PickWorker(id)] + ([Send(-1)] + [GiveUp]);
    FirstRequestIsTaken(client, r);
    var s1 := Run(s0, take).value;
    CallsFill(s1, client, more);
    var s2 := Run(s1, fill).value;
    FailedSendDrops(s2, r, id);
    hide Run, Next, Admitted;
    RunMore(s1, fill, s2, drop);
    RunMore(s0, take, s1, fill + drop);
    NothingBefore([r]);
    assert Run(s0, take + (fill + drop)) == Run(s2, drop);
  }

  // ===== Runs that send

  /** The state once the request in hand has been sent to a worker. */
  function SentOn(s: State, id: int): State
    requires s.hand.Some?
  {
    s.(hand := None, worker := None, sent := s.sent + [s.hand.value], sentTo := s.sentTo + [id])
  }

  /** A request with a key goes to the worker picked for it if the send succeeds. */
  lemma SendRuns(s: State, id: int, result: int)
    requires IsFree(s) && s.hand.Some? && s.worker.None? && result > 0
    requires Admitted(s.hand.value) && Sendable(s.hand.value)
    ensures Run(s, [PickWorker(id)] + [Send(result)]) == Some(SentOn(s, id))
  {
    var s1 := s.(worker := Some(id));
    RunStep(s, PickWorker(id), [Send(result)]);
    RunStep(s1, Send(result), []);
    NothingBefore([Send(result)]);
  }

  /** The dispatcher serves requests from the queue, each to the worker of this place in `ids`. */
  function Serving(ids: seq<int>): seq<Step> {
    if ids == [] then [] else (TAKE + ([PickWorker(ids[0])] + [Send(1)])) + Serving(ids[1..])
  }

  lemma ServesOne(s: State, id: int)
    requires IsFree(s) && s.hand.None? && s.worker.None? && DISPATCHER in s.queue.threads
    requires s.queue.queue != [] && s.queue.notEmpty > 0 && s.queue.notFull < QUEUE_CAPACITY
    requires Admitted(s.queue.queue[0]) && Sendable(s.queue.queue[0])
    ensures Run(s, TAKE + ([PickWorker(id)] + [Send(1)])) == Some(SentOn(Taken(s), id))
  {
    TakeRuns(s);
    SendRuns(Taken(s), id, 1);
    hide Run, Next, Admitted, Sendable;
    RunMore(s, TAKE, Taken(s), [PickWorker(id)] + [Send(1)]);
  }

  lemma {:induction false} ServesAll(s: State, ids: seq<int>)
    requires IsFree(s) && s.hand.None? && s.worker.None? && DISPATCHER in s.queue.threads
    requires |s.queue.queue| == |ids| <= s.queue.notEmpty && s.queue.notFull + |ids| <= QUEUE_CAPACITY
    requires forall r <- s.queue.queue :: Admitted(r) && Sendable(r)
    ensures Run(s, Serving(ids)).Some?
    ensures var s' := Run(s, Serving(ids)).value;
      && s'.sent == s.sent + s.queue.queue && s'.sentTo == s.sentTo + ids
      && s'.queue.queue == [] && s'.hand.None? && s'.dropped == s.dropped && s'.accepted == s.accepted
    decreases |ids|
  {
    var q := s.queue.queue;
    if ids == [] {
      NothingBefore(s.sent);
      NothingBefore(s.sentTo);
      return;
    }
    ServesOne(s, ids[0]);
    var s1 := SentOn(Taken(s), ids[0]);
    var first := TAKE + ([PickWorker(ids[0])] + [Send(1)]);
    hide Next, Admitted, Sendable;
    RunMore(s, first, s1, Serving(ids[1..]));
    ServesAll(s1, ids[1..]);
    assert q == [q[0]] + q[1..] && ids == [ids[0]] + ids[1..];
    Regroup(s.sent, [q[0]], q[1..]);
    Regroup(s.sentTo, [ids[0]], ids[1..]);
  }

  /**
   * From the start, up to 64 requests with keys can be accepted and then all be
   * sent, in the order they came in, to whichever workers are picked.
   */
  lemma RequestsGetThrough(client: nat, rs: seq<Request>, ids: seq<int>)
    requires client != DISPATCHER && |rs| == |ids| <= QUEUE_CAPACITY
    requires forall r <- rs :: Admitted(r) && Sendable(r)
    ensures exists steps :: Run(Initial({client}), steps).Some? &&
              var s := Run(Initial({client}), steps).value;
              s.accepted == rs && s.sent == rs && s.sentTo == ids && s.dropped == [] && s.queue.queue == []
  {
    var s0, fill, serve := Initial({client}), Calls(client, rs), Serving(ids);
    CallsFill(s0, client, rs);
    NothingBefore(rs);
    NothingBefore(ids);
    var s1 := Run(s0, fill).value;
    ServesAll(s1, ids);
    RunMore(s0, fill, s1, serve);
    EveryInterleaving({client}, fill);
    hide Run, Next, Admitted, Sendable;
    assert Run(s0, fill + serve) == Run(s1, serve);
  }

  // ===== From the client's bytes to the worker's fields

  predicate HasClientNumber(r: Request) {
    0 <= r.owner.clientId < 0x1_0000_0000
  }

  /** The fields of the STORE_REQUEST or RETRIEVE_REQUEST that a request is sent on as. */
  function Forwarded(r: Request): seq<Field>
    requires Admitted(r) && HasClientNumber(r)
  {
    [F32(r.owner.clientId)] + Asked(r).value
  }

  function FormatSent(r: Request): seq<Kind> {
    if r.messageType == Protocol.MSG_PUT then STORE_REQUEST else RETRIEVE_REQUEST
  }

  lemma ForwardedFits(r: Request)
    requires Admitted(r) && HasClientNumber(r)
    ensures AllFit(FormatSent(r), Forwarded(r))
    ensures forall f <- Forwarded(r) :: Encodable(f)
  {
    ParseFits(if r.messageType == Protocol.MSG_PUT then PUT else GET, r.payload);
    assert AllFit(FormatSent(r), Forwarded(r));
    ParseEncoded(FormatSent(r), Forwarded(r), []);
  }

  /** The payload sent to the worker. */
  function PayloadSent(r: Request): Bytes
    requires Admitted(r) && HasClientNumber(r)
  {
    ForwardedFits(r);
    Encode(Forwarded(r))
  }

  /** Whatever bytes a client sent, the worker decodes the fields the load balancer read from them. */
  lemma ForwardedArrives(r: Request)
    requires Admitted(r) && HasClientNumber(r)
    ensures Parse(FormatSent(r), PayloadSent(r)) == Some(Forwarded(r))
  {
    ForwardedFits(r);
    ParseEncoded(FormatSent(r), Forwarded(r), []);
    assert Encode(Forwarded(r)) + [] == Encode(Forwarded(r));
  }

  /** A request as a client encodes it is admitted and reaches the worker with the same fields. */
  lemma RequestArrives(r: Request, fields: seq<Field>)
    requires IsKnownType(r) && HasClientNumber(r)
    requires AllFit(if r.messageType == Protocol.MSG_PUT then PUT else GET, fields) && fields[0].s != []
    requires (forall f <- fields :: Encodable(f)) && r.payload == Encode(fields)
    ensures Admitted(r) && Sendable(r)
    ensures Parse(FormatSent(r), PayloadSent(r)) == Some([F32(r.owner.clientId)] + fields)
  {
    ParseEncoded(if r.messageType == Protocol.MSG_PUT then PUT else GET, fields, []);
    assert Encode(fields) + [] == Encode(fields);
    ForwardedArrives(r);
  }
}
