/**
 * The bounded queues under concurrency.  Put, Return and Take each wait for a
 * semaphore, run a region under the lock (module MessageQueue), and release the
 * other semaphore; the three parts are separate steps here, and the steps of
 * any number of threads interleave freely.
 */
module PermitQueue {
  import opened Config
  import opened ThreadCount

  /** Where a thread stands in a call; a thread outside any call is idle. */
  datatype Phase<T> =
    | Idle
    | MayEnqueue(item: T)  // its wait on notFull succeeded
    | Enqueued             // it left the lock and has yet to release notEmpty
    | MayDequeue           // its wait on notEmpty succeeded
    | Dequeued(item: T)    // it left the lock and has yet to release notFull

  datatype Kind = Resting | Producing | Produced | Consuming | Consumed

  function KindOf<T>(p: Phase<T>): Kind {
    match p
    case Idle => Resting
    case MayEnqueue(_) => Producing
    case Enqueued => Produced
    case MayDequeue => Consuming
    case Dequeued(_) => Consumed
  }

  /** `accepted` and `taken` record, in order, what the successful calls put in and took out. */
  datatype State<T> = State(
    queue: seq<T>, notEmpty: nat, notFull: nat, threads: map<nat, Phase<T>>, accepted: seq<T>, taken: seq<T>)

  datatype Step<T> =
    | AwaitRoom(thread: nat, item: T)
    | AwaitItem(thread: nat)
    | TimeOut(thread: nat)
    | Locked(thread: nat)
    | Release(thread: nat)

  /** ReleaseSemaphore: past the maximum it fails, and its result is ignored. */
  function Released(permits: nat): nat {
    if permits + 1 > QUEUE_CAPACITY then permits else permits + 1
  }

  function At<T>(s: State<T>, t: nat, p: Phase<T>): State<T> {
    s.(threads := s.threads[t := p])
  }

  /** The state after a step, or None where the thread cannot take it. */
  function Next<T>(s: State<T>, step: Step<T>): Option<State<T>> {
    if step.thread !in s.threads then None
    else
      var t, phase := step.thread, s.threads[step.thread];
      match step
      case AwaitRoom(_, item) =>
        if phase.Idle? && s.notFull > 0 then Some(At(s, t, MayEnqueue(item)).(notFull := s.notFull - 1)) else None
      case AwaitItem(_) =>
        if phase.Idle? && s.notEmpty > 0 then Some(At(s, t, MayDequeue).(notEmpty := s.notEmpty - 1)) else None
      case TimeOut(_) =>
        if phase.Idle? then Some(s) else None
      case Locked(_) =>
        (match phase
         case MayEnqueue(item) =>
           if |s.queue| >= QUEUE_CAPACITY then Some(At(s, t, Idle))
           else Some(At(s, t, Enqueued).(queue := s.queue + [item], accepted := s.accepted + [item]))
         case MayDequeue =>
           if |s.queue| == 0 then Some(At(s, t, Idle))
           else Some(At(s, t, Dequeued(s.queue[0])).(queue := s.queue[1..], taken := s.taken + [s.queue[0]]))
         case _ => None)
      case Release(_) =>
        (match phase
         case Enqueued => Some(At(s, t, Idle).(notEmpty := Released(s.notEmpty)))
         case Dequeued(_) => Some(At(s, t, Idle).(notFull := Released(s.notFull)))
         case _ => None)
  }

  function Initial<T>(threads: set<nat>): State<T> {
    State([], 0, QUEUE_CAPACITY, map t | t in threads :: Idle, [], [])
  }

  function Run<T>(s: State<T>, steps: seq<Step<T>>): Option<State<T>>
    decreases |steps|
  {
    if steps == [] then Some(s)
    else
      match Next(s, steps[0])
      case None => None
      case Some(s') => Run(s', steps[1..])
  }

  // ===== Permit accounting

  ghost function Threads<T>(s: State<T>, kind: Kind): nat {
    Count(s.threads, KindOf, kind)
  }

  ghost predicate Accounted<T>(s: State<T>) {
    && |s.queue| == s.notEmpty + Threads(s, Produced) + Threads(s, Consuming)
    && QUEUE_CAPACITY - |s.queue| == s.notFull + Threads(s, Producing) + Threads(s, Consumed)
    && s.accepted == s.taken + s.queue
  }

  lemma ThreadMoves<T>(s: State<T>, t: nat, p: Phase<T>)
    requires t in s.threads
    ensures forall kind :: Threads(s, kind) >= if KindOf(s.threads[t]) == kind then 1 else 0
    ensures forall kind :: Threads(At(s, t, p), kind) ==
              Threads(s, kind) - (if KindOf(s.threads[t]) == kind then 1 else 0) + (if KindOf(p) == kind then 1 else 0)
  {
    MovesEvery(s.threads, KindOf, t, p);
  }

  lemma InitiallyAccounted<T>(threads: set<nat>)
    ensures Accounted(Initial<T>(threads))
  {
    var s := Initial<T>(threads);
    forall kind | kind != Resting
      ensures Threads(s, kind) == 0
    {
      NoneThere(s.threads, KindOf, kind);
    }
  }

  /** No thread inside the lock ever meets the "after semaphore signal" branches, and no release is refused. */
  lemma BranchesUnreachable<T>(s: State<T>, t: nat)
    requires Accounted(s) && t in s.threads
    ensures s.threads[t].MayEnqueue? ==> |s.queue| < QUEUE_CAPACITY
    ensures s.threads[t].MayDequeue? ==> s.queue != []
    ensures s.threads[t].Enqueued? ==> Released(s.notEmpty) == s.notEmpty + 1
    ensures s.threads[t].Dequeued? ==> Released(s.notFull) == s.notFull + 1
  {
    ThreadMoves(s, t, Idle);
  }

  lemma StepKeepsAccounts<T>(s: State<T>, step: Step<T>)
    requires Accounted(s) && Next(s, step).Some?
    ensures Accounted(Next(s, step).value)
  {
    hide Count;
    if !step.TimeOut? {
      var s', t := Next(s, step).value, step.thread;
      BranchesUnreachable(s, t);
      ThreadMoves(s, t, s'.threads[t]);
      assert s'.threads == At(s, t, s'.threads[t]).threads;
      assert s.queue != [] ==> s.queue == [s.queue[0]] + s.queue[1..];
    }
  }

  lemma {:induction false} RunKeepsAccounts<T>(s: State<T>, steps: seq<Step<T>>)
    requires Accounted(s) && Run(s, steps).Some?
    ensures Accounted(Run(s, steps).value)
    decreases |steps|
  {
    if steps != [] {
      StepKeepsAccounts(s, steps[0]);
      RunKeepsAccounts(Next(s, steps[0]).value, steps[1..]);
    }
  }

  /** In every interleaving the permits add up, the buffer is never overrun, and the queue is first in, first out. */
  lemma EveryInterleaving<T>(threads: set<nat>, steps: seq<Step<T>>)
    requires Run(Initial<T>(threads), steps).Some?
    ensures var s := Run(Initial<T>(threads), steps).value;
      && Accounted(s)
      && |s.queue| <= QUEUE_CAPACITY && s.notEmpty <= QUEUE_CAPACITY && s.notFull <= QUEUE_CAPACITY
      && s.taken <= s.accepted
  {
    InitiallyAccounted<T>(threads);
    RunKeepsAccounts(Initial<T>(threads), steps);
  }

  // ===== What a call does when its three parts run undisturbed

  lemma WholePut<T>(s: State<T>, t: nat, item: T)
    requires Accounted(s) && t in s.threads && s.threads[t].Idle?
    ensures s.notFull > 0 ==>
              Run(s, [AwaitRoom(t, item), Locked(t), Release(t)]) ==
              Some(s.(queue := s.queue + [item], accepted := s.accepted + [item],
                      notFull := s.notFull - 1, notEmpty := s.notEmpty + 1))
    ensures s.notFull == 0 ==> Next(s, AwaitRoom(t, item)).None? && Next(s, TimeOut(t)) == Some(s)
  {
    if s.notFull > 0 {
      var s1 := Next(s, AwaitRoom(t, item)).value;
      StepKeepsAccounts(s, AwaitRoom(t, item));
      BranchesUnreachable(s1, t);
      var s2 := Next(s1, Locked(t)).value;
      StepKeepsAccounts(s1, Locked(t));
      BranchesUnreachable(s2, t);
      var s3 := Next(s2, Release(t)).value;
      assert s3.threads == s.threads;
      assert Run(s2, [Release(t)]) == Run(s3, []) == Some(s3);
      assert Run(s1, [Locked(t), Release(t)]) == Run(s2, [Release(t)]);
      assert Run(s, [AwaitRoom(t, item), Locked(t), Release(t)]) == Run(s1, [Locked(t), Release(t)]);
    }
  }

  lemma WholeTake<T>(s: State<T>, t: nat)
    requires Accounted(s) && t in s.threads && s.threads[t].Idle?
    ensures s.notEmpty > 0 ==> s.queue != []
    ensures s.notEmpty > 0 ==>
              Run(s, [AwaitItem(t), Locked(t), Release(t)]) ==
              Some(s.(queue := s.queue[1..], taken := s.taken + [s.queue[0]],
                      notEmpty := s.notEmpty - 1, notFull := s.notFull + 1))
    ensures s.notEmpty == 0 ==> Next(s, AwaitItem(t)).None? && Next(s, TimeOut(t)) == Some(s)
  {
    if s.notEmpty > 0 {
      var s1 := Next(s, AwaitItem(t)).value;
      StepKeepsAccounts(s, AwaitItem(t));
      BranchesUnreachable(s1, t);
      var s2 := Next(s1, Locked(t)).value;
      StepKeepsAccounts(s1, Locked(t));
      BranchesUnreachable(s2, t);
      var s3 := Next(s2, Release(t)).value;
      assert s3.threads == s.threads;
      assert Run(s2, [Release(t)]) == Run(s3, []) == Some(s3);
      assert Run(s1, [Locked(t), Release(t)]) == Run(s2, [Release(t)]);
      assert Run(s, [AwaitItem(t), Locked(t), Release(t)]) == Run(s1, [Locked(t), Release(t)]);
    }
  }
}
