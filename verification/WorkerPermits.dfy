/**
 * The semaphores of the worker list under concurrency.  AddWorker and
 * RemoveWorker wait for a permit, run the region of module WorkerList under the
 * lock, and release the other semaphore.  Unlike the queues, the two semaphores
 * do not count the workers: a removal that finds nothing turns a notEmpty
 * permit into a notFull permit, and a failed addition keeps the one it took.
 */
module WorkerPermits {
  import opened Config
  import opened RingSpec
  import opened ThreadCount

  datatype Phase =
    | Idle
    | Adding(worker: Worker)  // its wait on notFull succeeded
    | Added                   // it left the lock and has yet to release notEmpty
    | Removing(id: int)       // its wait on notEmpty succeeded
    | Removed                 // it left the lock and has yet to release notFull

  datatype Kind = Resting | IsAdding | HasAdded | IsRemoving | HasRemoved

  function KindOf(p: Phase): Kind {
    match p
    case Idle => Resting
    case Adding(_) => IsAdding
    case Added => HasAdded
    case Removing(_) => IsRemoving
    case Removed => HasRemoved
  }

  /** `misses` counts removals that found nothing, `lost` the permits kept by failed additions. */
  datatype State = State(
    workers: seq<Worker>, notEmpty: nat, notFull: nat, threads: map<nat, Phase>, misses: nat, lost: nat)

  datatype Step =
    | AwaitRoom(thread: nat, worker: Worker)
    | AwaitWorker(thread: nat, id: int)
    | TimeOut(thread: nat)
    | Locked(thread: nat)
    | Release(thread: nat)

  function Released(permits: nat): nat {
    if permits + 1 > MAX_WORKERS then permits else permits + 1
  }

  function At(s: State, t: nat, p: Phase): State {
    s.(threads := s.threads[t := p])
  }

  function Next(s: State, step: Step): Option<State> {
    if step.thread !in s.threads then None
    else
      var t, phase := step.thread, s.threads[step.thread];
      match step
      case AwaitRoom(_, worker) =>
        if phase.Idle? && s.notFull > 0 then Some(At(s, t, Adding(worker)).(notFull := s.notFull - 1)) else None
      case AwaitWorker(_, id) =>
        // ids that are not positive are refused before the wait
        if phase.Idle? && id > 0 && s.notEmpty > 0
        then Some(At(s, t, Removing(id)).(notEmpty := s.notEmpty - 1)) else None
      case TimeOut(_) =>
        if phase.Idle? then Some(s) else None
      case Locked(_) =>
        (match phase
         case Adding(worker) =>
           if |s.workers| >= MAX_WORKERS then Some(At(s, t, Idle).(lost := s.lost + 1))
           else Some(At(s, t, Added).(workers := s.workers + [worker]))
         case Removing(id) =>
           var k := FirstMatch(s.workers, id);
           if k == |s.workers| then Some(At(s, t, Removed).(misses := s.misses + 1))
           else Some(At(s, t, Removed).(workers := Delete(s.workers, k)))
         case _ => None)
      case Release(_) =>
        (match phase
         case Added => Some(At(s, t, Idle).(notEmpty := Released(s.notEmpty)))
         case Removed => Some(At(s, t, Idle).(notFull := Released(s.notFull)))
         case _ => None)
  }

  function Initial(threads: set<nat>): State {
    State([], 0, MAX_WORKERS, map t | t in threads :: Idle, 0, 0)
  }

  function Run(s: State, steps: seq<Step>): Option<State>
    decreases |steps|
  {
    if steps == [] then Some(s)
    else
      match Next(s, steps[0])
      case None => None
      case Some(s') => Run(s', steps[1..])
  }

  ghost function Threads(s: State, kind: Kind): nat {
    Count(s.threads, KindOf, kind)
  }

  ghost function InFlight(s: State): nat {
    Threads(s, IsAdding) + Threads(s, HasAdded) + Threads(s, IsRemoving) + Threads(s, HasRemoved)
  }

  ghost predicate Accounted(s: State) {
    && |s.workers| == s.notEmpty + Threads(s, HasAdded) + Threads(s, IsRemoving) + s.misses
    && s.notEmpty + s.notFull + InFlight(s) + s.lost == MAX_WORKERS
    && |s.workers| <= MAX_WORKERS
  }

  lemma ThreadMoves(s: State, t: nat, p: Phase)
    requires t in s.threads
    ensures forall kind :: Threads(s, kind) >= if KindOf(s.threads[t]) == kind then 1 else 0
    ensures forall kind :: Threads(At(s, t, p), kind) ==
              Threads(s, kind) - (if KindOf(s.threads[t]) == kind then 1 else 0) + (if KindOf(p) == kind then 1 else 0)
  {
    MovesEvery(s.threads, KindOf, t, p);
  }

  lemma InitiallyAccounted(threads: set<nat>)
    ensures Accounted(Initial(threads))
  {
    var s := Initial(threads);
    forall kind | kind != Resting
      ensures Threads(s, kind) == 0
    {
      NoneThere(s.threads, KindOf, kind);
    }
  }

  /** No release ever exceeds the semaphore's maximum. */
  lemma ReleasesSucceed(s: State, t: nat)
    requires Accounted(s) && t in s.threads
    ensures s.threads[t].Added? ==> Released(s.notEmpty) == s.notEmpty + 1
    ensures s.threads[t].Removed? ==> Released(s.notFull) == s.notFull + 1
  {
    ThreadMoves(s, t, Idle);
  }

  lemma StepKeepsAccounts(s: State, step: Step)
    requires Accounted(s) && Next(s, step).Some?
    ensures Accounted(Next(s, step).value)
  {
    hide Count;
    if !step.TimeOut? {
      var s', t := Next(s, step).value, step.thread;
      ReleasesSucceed(s, t);
      ThreadMoves(s, t, s'.threads[t]);
      assert s'.threads == At(s, t, s'.threads[t]).threads;
    }
  }

  lemma {:induction false} RunKeepsAccounts(s: State, steps: seq<Step>)
    requires Accounted(s) && Run(s, steps).Some?
    ensures Accounted(Run(s, steps).value)
    decreases |steps|
  {
    if steps != [] {
      StepKeepsAccounts(s, steps[0]);
      RunKeepsAccounts(Next(s, steps[0]).value, steps[1..]);
    }
  }

  /**
   * In every interleaving both accounts hold, so the list never outgrows its
   * limit; and an addition inside the lock finds it at capacity exactly when
   * the removals that found nothing make up for every permit that is free,
   * lost, or held by an addition or by a finished removal.
   */
  lemma EveryInterleaving(threads: set<nat>, steps: seq<Step>)
    requires Run(Initial(threads), steps).Some?
    ensures var s := Run(Initial(threads), steps).value;
      && |s.workers| == s.notEmpty + Threads(s, HasAdded) + Threads(s, IsRemoving) + s.misses
      && s.notEmpty + s.notFull + InFlight(s) + s.lost == MAX_WORKERS
      && |s.workers| <= MAX_WORKERS
      && (|s.workers| == MAX_WORKERS <==>
            s.misses == s.notFull + Threads(s, IsAdding) + Threads(s, HasRemoved) + s.lost)
  {
    InitiallyAccounted(threads);
    RunKeepsAccounts(Initial(threads), steps);
  }

  /** While every removal has found its worker, the branch is out of reach. */
  lemma AtCapacityNeedsMiss(s: State, t: nat)
    requires Accounted(s) && t in s.threads && s.threads[t].Adding? && s.misses == 0
    ensures |s.workers| < MAX_WORKERS
  {
    ThreadMoves(s, t, Idle);
  }

  // ===== The branch can be reached once a removal has missed

  lemma {:induction false} RunTwice(s: State, a: seq<Step>, b: seq<Step>)
    requires Run(s, a).Some?
    ensures Run(s, a + b) == Run(Run(s, a).value, b)
    decreases |a|
  {
    if a == [] {
      assert a + b == b;
    } else {
      assert (a + b)[0] == a[0] && (a + b)[1..] == a[1..] + b;
      RunTwice(Next(s, a[0]).value, a[1..], b);
    }
  }

  function Call(await: Step): seq<Step> {
    [await, Locked(await.thread), Release(await.thread)]
  }

  lemma CallRuns(s: State, await: Step)
    requires Next(s, await).Some?
    requires Next(Next(s, await).value, Locked(await.thread)).Some?
    requires Next(Next(Next(s, await).value, Locked(await.thread)).value, Release(await.thread)).Some?
    ensures Run(s, Call(await)) ==
              Next(Next(Next(s, await).value, Locked(await.thread)).value, Release(await.thread))
  {
    var s1, t := Next(s, await).value, await.thread;
    var s2 := Next(s1, Locked(t)).value;
    var s3 := Next(s2, Release(t)).value;
    assert Run(s2, [Release(t)]) == Run(s3, []);
    assert Call(await)[1..] == [Locked(t), Release(t)] && [Locked(t), Release(t)][1..] == [Release(t)];
  }

  /** An addition that gets its permit and finds room puts its worker last. */
  lemma WholeAddition(s: State, t: nat, w: Worker)
    requires t in s.threads && s.threads[t].Idle? && s.notFull > 0
    requires |s.workers| < MAX_WORKERS && s.notEmpty < MAX_WORKERS
    ensures Run(s, Call(AwaitRoom(t, w))) ==
              Some(s.(workers := s.workers + [w], notFull := s.notFull - 1, notEmpty := s.notEmpty + 1))
  {
    CallRuns(s, AwaitRoom(t, w));
    assert Run(s, Call(AwaitRoom(t, w))).value.threads == s.threads;
  }

  /** A removal that gets its permit takes out the first worker with the id, or counts as a miss. */
  lemma WholeRemoval(s: State, t: nat, id: int, k: nat)
    requires t in s.threads && s.threads[t].Idle? && id > 0 && s.notEmpty > 0 && s.notFull < MAX_WORKERS
    requires k <= |s.workers| && (k < |s.workers| ==> s.workers[k].id == id)
    requires forall j :: 0 <= j < k ==> s.workers[j].id != id
    ensures Run(s, Call(AwaitWorker(t, id))) ==
              Some(s.(workers := if k == |s.workers| then s.workers else s.workers[..k] + s.workers[k + 1..],
                      misses := s.misses + if k == |s.workers| then 1 else 0,
                      notEmpty := s.notEmpty - 1, notFull := s.notFull + 1))
  {
    assert k == FirstMatch(s.workers, id);
    hide FirstMatch, Run, Call;
    var rest := if k == |s.workers| then s.workers else s.workers[..k] + s.workers[k + 1..];
    var misses := s.misses + if k == |s.workers| then 1 else 0;
    var s1 := At(s, t, Removing(id)).(notEmpty := s.notEmpty - 1);
    var s2 := At(s1, t, Removed).(workers := rest, misses := misses);
    assert Next(s, AwaitWorker(t, id)) == Some(s1);
    assert Next(s1, Locked(t)) == Some(s2);
    CallRuns(s, AwaitWorker(t, id));
    assert s.threads[t := Removing(id)][t := Removed][t := Idle] == s.threads;
  }

  /** `n` additions by one idle thread. */
  function Additions(t: nat, w: Worker, n: nat): seq<Step> {
    if n == 0 then [] else Call(AwaitRoom(t, w)) + Additions(t, w, n - 1)
  }

  lemma {:induction false} AdditionsFill(s: State, t: nat, w: Worker, n: nat)
    requires t in s.threads && s.threads[t].Idle?
    requires n <= s.notFull && |s.workers| + n <= MAX_WORKERS && s.notEmpty + n <= MAX_WORKERS
    ensures Run(s, Additions(t, w, n)).Some?
    ensures var s' := Run(s, Additions(t, w, n)).value;
      && |s'.workers| == |s.workers| + n && s'.notFull == s.notFull - n && s'.notEmpty == s.notEmpty + n
      && s'.threads == s.threads && s'.misses == s.misses && s'.lost == s.lost
    decreases n
  {
    if n > 0 {
      var await := AwaitRoom(t, w);
      CallRuns(s, await);
      var s' := Run(s, Call(await)).value;
      assert s'.threads == s.threads;
      RunTwice(s, Call(await), Additions(t, w, n - 1));
      AdditionsFill(s', t, w, n - 1);
    }
  }

  lemma FirstJoins(w: Worker)
    ensures Run(Initial({0}), Call(AwaitRoom(0, w))) == Some(State([w], 1, MAX_WORKERS - 1, map[0 := Idle], 0, 0))
  {
    CallRuns(Initial({0}), AwaitRoom(0, w));
    var s := Run(Initial({0}), Call(AwaitRoom(0, w))).value;
    assert s.threads == map[0 := Idle] && s.workers == [w];
  }

  lemma RemovalMisses(w: Worker, id: int)
    requires id > 0 && w.id != id
    ensures Run(State([w], 1, MAX_WORKERS - 1, map[0 := Idle], 0, 0), Call(AwaitWorker(0, id))) ==
              Some(State([w], 0, MAX_WORKERS, map[0 := Idle], 1, 0))
  {
    var s := State([w], 1, MAX_WORKERS - 1, map[0 := Idle], 0, 0);
    CallRuns(s, AwaitWorker(0, id));
    assert Run(s, Call(AwaitWorker(0, id))).value.threads == map[0 := Idle];
  }

  lemma OneMiss(w: Worker, id: int)
    requires id > 0 && w.id != id
    ensures Run(Initial({0}), Call(AwaitRoom(0, w)) + Call(AwaitWorker(0, id))) ==
              Some(State([w], 0, MAX_WORKERS, map[0 := Idle], 1, 0))
  {
    hide Run, Call;
    FirstJoins(w);
    RemovalMisses(w, id);
    RunTwice(Initial({0}), Call(AwaitRoom(0, w)), Call(AwaitWorker(0, id)));
  }

  /** One worker joins, a removal of an unknown id misses, eight more are let in: the last finds the list full. */
  lemma MissLetsNinthIn(w: Worker, id: int)
    requires id > 0 && w.id != id
    ensures exists steps :: Run(Initial({0}), steps).Some? &&
                            var s := Run(Initial({0}), steps).value;
                            0 in s.threads && s.threads[0] == Adding(w) && |s.workers| == MAX_WORKERS
  {
    var s0, s1 := Initial({0}), State([w], 0, MAX_WORKERS, map[0 := Idle], 1, 0);
    var miss, fill := Call(AwaitRoom(0, w)) + Call(AwaitWorker(0, id)), Additions(0, w, 7);
    OneMiss(w, id);
    AdditionsFill(s1, 0, w, 7);
    var s2 := Run(s1, fill).value;
    var s3 := Next(s2, AwaitRoom(0, w)).value;
    assert Run(s2, [AwaitRoom(0, w)]) == Run(s3, []);
    RunTwice(s1, fill, [AwaitRoom(0, w)]);
    RunTwice(s0, miss, fill + [AwaitRoom(0, w)]);
    assert Run(s0, miss + (fill + [AwaitRoom(0, w)])) == Some(s3);
  }
}
