/**
 * The queue of export requests between the receiver thread (Worker/ExportQueue.c)
 * and the export thread (Worker/ExportThread.c).
 */
module ExportQueue {
  import opened Config

  datatype ExportRequest = ExportRequest(targetWorkerId: Uint32, targetAddress: Bytes, targetPort: nat)

  class ExportQueue {
    const requests: array<ExportRequest>
    var requestCount: nat

    ghost predicate Valid()
      reads this
    {
      requests.Length == MAX_WORKERS && requestCount <= MAX_WORKERS
    }

    ghost function Contents(): seq<ExportRequest>
      reads this, requests
      requires Valid()
    {
      requests[..requestCount]
    }

    constructor ()
      ensures Valid() && fresh(requests) && Contents() == []
    {
      requests := new ExportRequest[MAX_WORKERS](_ => ExportRequest(0, [], 0));
      requestCount := 0;
    }

    /** The region of AddExportRequest under the lock; the signal is released after it. */
    method AddExportRequest(targetWorkerId: Uint32, address: Bytes, port: nat) returns (r: int)
      requires Valid() && |address| <= MAX_ADDRESS_SIZE
      modifies this, requests
      ensures Valid() && (r == 0 || r == -1)
      ensures r == 0 <==> |old(Contents())| < MAX_WORKERS
      ensures r == -1 ==> Contents() == old(Contents())
      ensures r == 0 ==> Contents() == old(Contents()) + [ExportRequest(targetWorkerId, address, port)]
    {
      if requestCount >= MAX_WORKERS {
        return -1;
      }
      requests[requestCount] := ExportRequest(targetWorkerId, address, port);
      requestCount := requestCount + 1;
      r := 0;
    }

    /** The region of the export thread under the lock: the requests behind the first move up. */
    method TakeFirst() returns (request: Option<ExportRequest>)
      requires Valid()
      modifies this, requests
      ensures Valid()
      ensures request.None? ==> old(Contents()) == [] == Contents()
      ensures request.Some? ==> old(Contents()) == [request.value] + Contents()
    {
      if requestCount == 0 {
        return None;
      }
      ghost var before := Contents();
      request := Some(requests[0]);
      for i := 0 to requestCount - 1
        invariant requestCount == |before|
        invariant forall k :: 0 <= k < i ==> requests[k] == before[k + 1]
        invariant forall k :: i <= k < requestCount ==> requests[k] == before[k]
      {
        requests[i] := requests[i + 1];
      }
      requestCount := requestCount - 1;
      assert Contents() == before[1..];
    }
  }

  // ===== The signal, as the two threads interleave

  /**
   * `releasing`: the receiver has queued a request and not yet signalled it;
   * `woken`: the export thread's wait succeeded and it has yet to take the lock.
   * `added` and `taken` record what went in and came out.
   */
  datatype State = State(
    requests: seq<ExportRequest>, signal: nat, releasing: bool, woken: bool,
    added: seq<ExportRequest>, taken: seq<ExportRequest>)

  const INITIAL := State([], 0, false, false, [], [])

  datatype Step = Add(request: ExportRequest) | Release | Wake | Take

  function Next(s: State, step: Step): Option<State> {
    match step
    case Add(request) =>
      if s.releasing then None
      else if |s.requests| >= MAX_WORKERS then Some(s)
      else Some(s.(requests := s.requests + [request], added := s.added + [request], releasing := true))
    case Release =>
      if !s.releasing then None
      else Some(s.(releasing := false, signal := if s.signal + 1 > MAX_WORKERS then s.signal else s.signal + 1))
    case Wake =>
      if s.woken || s.signal == 0 then None else Some(s.(woken := true, signal := s.signal - 1))
    case Take =>
      if !s.woken then None
      else if s.requests == [] then Some(s.(woken := false))
      else Some(s.(woken := false, requests := s.requests[1..], taken := s.taken + [s.requests[0]]))
  }

  function Run(s: State, steps: seq<Step>): Option<State>
    decreases |steps|
  {
    if steps == [] then Some(s)
    else
      match Next(s, steps[0])
      case None => None
      case Some(s') => Run(s', steps[1..])
  }

  ghost predicate Accounted(s: State) {
    && |s.requests| <= MAX_WORKERS
    && |s.requests| == s.signal + (if s.releasing then 1 else 0) + (if s.woken then 1 else 0)
    && s.added == s.taken + s.requests
  }

  lemma {:induction false} RunKeepsAccounts(s: State, steps: seq<Step>)
    requires Accounted(s) && Run(s, steps).Some?
    ensures Accounted(Run(s, steps).value)
    decreases |steps|
  {
    if steps != [] {
      assert s.requests != [] ==> s.requests == [s.requests[0]] + s.requests[1..];
      RunKeepsAccounts(Next(s, steps[0]).value, steps[1..]);
    }
  }

  /**
   * However the two threads interleave, requests are taken in the order they
   * were added, a woken export thread finds a request, a signal is never
   * refused, and when neither thread is between two steps every request waits
   * with its own signal.
   */
  lemma EveryInterleaving(steps: seq<Step>)
    requires Run(INITIAL, steps).Some?
    ensures var s := Run(INITIAL, steps).value;
      && s.added == s.taken + s.requests
      && (s.woken ==> s.requests != [])
      && (s.releasing ==> s.signal < MAX_WORKERS)
      && (!s.releasing && !s.woken ==> |s.requests| == s.signal)
  {
    RunKeepsAccounts(INITIAL, steps);
  }

  /** A request that finds room is added and signalled, and wakes the export thread if that rests. */
  lemma RequestWakes(s: State, request: ExportRequest)
    requires Accounted(s) && !s.releasing && !s.woken && |s.requests| < MAX_WORKERS
    ensures var all := s.requests + [request];
      Run(s, [Add(request), Release, Wake, Take]) ==
      Some(s.(requests := all[1..], added := s.added + [request], taken := s.taken + [all[0]]))
  {
    var s1 := Next(s, Add(request)).value;
    var s2 := Next(s1, Release).value;
    var s3 := Next(s2, Wake).value;
    var s4 := Next(s3, Take).value;
    assert Run(s4, []) == Some(s4);
    assert [Take][1..] == [] && [Wake, Take][1..] == [Take];
    assert [Release, Wake, Take][1..] == [Wake, Take];
    assert Run(s2, [Wake, Take]) == Run(s3, [Take]) == Some(s4);
    assert [Add(request), Release, Wake, Take][1..] == [Release, Wake, Take];
  }
}
