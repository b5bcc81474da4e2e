/**
 * Scheduling guarantees of the round-robin pointer, over whole runs of ring
 * operations: no ready worker waits too long however the ring changes under
 * it, and a ring that does not change is shared out evenly.
 */
module RingSchedule {
  import opened Circle
  import opened Config
  import opened RingSpec

  // ===== Bounded waiting under churn

  datatype Event<N> = Addition(node: N, worker: Worker) | Removal(id: int) | Readiness(id: int) | Get

  ghost function Apply<N>(r: Ring<N>, e: Event<N>): Ring<N>
    requires r.Valid()
  {
    match e
    case Addition(node, worker) => Add(r, node, worker)
    case Removal(id) => Remove(r, id)
    case Readiness(id) => SetReady(r, id)
    case Get => r.(cur := Next(r.workers, r.cur))
  }

  /** AddWorker always links a node it has just allocated. */
  ghost predicate Legal<N>(r: Ring<N>, e: Event<N>) {
    e.Addition? ==> e.node !in r.nodes
  }

  /** The run is possible from `r`, and node `v` is in the ring throughout. */
  ghost predicate Stays<N>(r: Ring<N>, events: seq<Event<N>>, v: N)
    decreases |events|
  {
    && r.Valid()
    && v in r.nodes
    && (events != [] ==> Legal(r, events[0]) && Stays(Apply(r, events[0]), events[1..], v))
  }

  /** The nodes handed out by the GetNextWorker calls of a run, in order. */
  ghost function Returned<N>(r: Ring<N>, events: seq<Event<N>>, v: N): seq<N>
    requires Stays(r, events, v)
    decreases |events|
  {
    if events == [] then []
    else
      var rest := Returned(Apply(r, events[0]), events[1..], v);
      if events[0].Get? && Pick(r.workers, r.cur).Some? then [r.nodes[Pick(r.workers, r.cur).value]] + rest
      else rest
  }

  ghost function Gets<N>(events: seq<Event<N>>): nat {
    if events == [] then 0 else (if events[0].Get? then 1 else 0) + Gets(events[1..])
  }

  ghost function Additions<N>(events: seq<Event<N>>): nat {
    if events == [] then 0 else (if events[0].Addition? then 1 else 0) + Additions(events[1..])
  }

  ghost function IndexOf<T>(s: seq<T>, v: T): (k: nat)
    requires v in s
    ensures k < |s| && s[k] == v
  {
    var k :| 0 <= k < |s| && s[k] == v;
    k
  }

  /** Ring distance from `current` to node `v`. */
  ghost function Wait<N>(r: Ring<N>, v: N): nat
    requires r.Valid() && v in r.nodes
  {
    Distance(r.cur, IndexOf(r.nodes, v), |r.nodes|)
  }

  ghost predicate IsEligible<N>(r: Ring<N>, v: N)
    requires r.Valid() && v in r.nodes
  {
    r.workers[IndexOf(r.nodes, v)].Eligible()
  }

  lemma RemoveMovesNode<N>(r: Ring<N>, id: int, v: N)
    requires r.Valid() && v in r.nodes && v in Remove(r, id).nodes
    ensures Remove(r, id).Valid()
    ensures var r' := Remove(r, id);
      IsEligible(r, v) ==> IsEligible(r', v) && Wait(r', v) <= Wait(r, v)
  {
    var k, i := FirstMatch(r.workers, id), IndexOf(r.nodes, v);
    if k < |r.nodes| {
      var r' := Remove(r, id);
      var i' := IndexOf(r'.nodes, v);
      assert r'.nodes[i'] == r.nodes[if i' < k then i' else i' + 1];
      assert r'.workers[i'] == r.workers[if i' < k then i' else i' + 1];
    }
  }

  lemma NextMovesOn<N>(r: Ring<N>, v: N)
    requires r.Valid() && v in r.nodes && IsEligible(r, v)
    ensures Apply(r, Get).Valid() && IsEligible(Apply(r, Get), v)
    ensures Pick(r.workers, r.cur).Some?
    ensures r.nodes[Pick(r.workers, r.cur).value] == v || Wait(Apply(r, Get), v) < Wait(r, v)
  {
    var n, i := |r.nodes|, IndexOf(r.nodes, v);
    assert Ahead(r.workers, r.cur, Distance(r.cur, i, n)) == r.workers[i];
  }

  /** One operation on the ring, seen from a ready node that stays in it. */
  lemma WaitStep<N>(r: Ring<N>, e: Event<N>, v: N)
    requires r.Valid() && Legal(r, e) && v in r.nodes && IsEligible(r, v)
    requires v in Apply(r, e).nodes
    ensures Apply(r, e).Valid() && IsEligible(Apply(r, e), v)
    ensures e.Addition? ==> Wait(Apply(r, e), v) <= Wait(r, v) + 1
    ensures e.Removal? || e.Readiness? ==> Wait(Apply(r, e), v) <= Wait(r, v)
    ensures e.Get? ==> Pick(r.workers, r.cur).Some?
    ensures e.Get? ==> r.nodes[Pick(r.workers, r.cur).value] == v || Wait(Apply(r, e), v) < Wait(r, v)
  {
    match e
    case Addition(node, worker) =>
    case Removal(id) => RemoveMovesNode(r, id, v);
    case Readiness(id) =>
    case Get => NextMovesOn(r, v);
  }

  /**
   * Bounded waiting: a node that stays in the ring and is ready at the start
   * is handed out by one of any (distance + interleaved additions + 1) calls
   * of GetNextWorker, whatever else is added, removed or made ready meanwhile.
   */
  lemma {:induction false} BoundedWaiting<N>(r: Ring<N>, events: seq<Event<N>>, v: N)
    requires Stays(r, events, v) && IsEligible(r, v)
    requires Gets(events) >= Wait(r, v) + Additions(events) + 1
    ensures v in Returned(r, events, v)
    decreases |events|
  {
    if events != [] {
      var e := events[0];
      WaitStep(r, e, v);
      if !(e.Get? && r.nodes[Pick(r.workers, r.cur).value] == v) {
        BoundedWaiting(Apply(r, e), events[1..], v);
      }
    }
  }

  // ===== Fair share of a ring that does not change

  /** How many of the `len` workers starting at place `from` are eligible. */
  function Ready(ws: seq<Worker>, from: nat, len: nat): (c: nat)
    requires from < |ws| && len <= |ws|
    ensures c <= len
    decreases len
  {
    if len == 0 then 0
    else (if ws[from].Eligible() then 1 else 0) + Ready(ws, After(from, |ws|), len - 1)
  }

  lemma {:induction false} ReadySplits(ws: seq<Worker>, from: nat, a: nat, b: nat)
    requires from < |ws| && a + b <= |ws|
    ensures Ready(ws, from, a + b) == Ready(ws, from, a) + Ready(ws, Wrap(from + a, |ws|), b)
    decreases a
  {
    if a > 0 {
      ReadySplits(ws, After(from, |ws|), a - 1, b);
    }
  }

  /** Counting once round the circle gives the same number from every place. */
  lemma ReadyAround(ws: seq<Worker>, from: nat)
    requires from < |ws|
    ensures Ready(ws, from, |ws|) == Ready(ws, 0, |ws|)
  {
    ReadySplits(ws, 0, from, |ws| - from);
    ReadySplits(ws, from, |ws| - from, from);
  }

  lemma {:induction false} NoneSkippedIsReady(ws: seq<Worker>, from: nat, len: nat)
    requires from < |ws| && len <= |ws|
    ensures Ready(ws, from, Skipped(ws, from, len)) == 0
    ensures Skipped(ws, from, len) == len <==> Ready(ws, from, len) == 0
    decreases len
  {
    if len > 0 && !ws[from].Eligible() {
      NoneSkippedIsReady(ws, After(from, |ws|), len - 1);
    }
  }

  function ReadyWorkers(ws: seq<Worker>): nat {
    if ws == [] then 0 else Ready(ws, 0, |ws|)
  }

  /** GetNextWorker answers -1 exactly when no worker is ready. */
  lemma PickFailsIffNoneReady(ws: seq<Worker>, cur: nat)
    requires ws != [] ==> cur < |ws|
    ensures Pick(ws, cur).None? <==> ReadyWorkers(ws) == 0
    ensures Pick(ws, cur).Some? ==> ws[Pick(ws, cur).value].Eligible()
  {
    if ws != [] {
      NoneSkippedIsReady(ws, cur, |ws|);
      ReadyAround(ws, cur);
      assert Pick(ws, cur).Some? ==> Ahead(ws, cur, Skipped(ws, cur, |ws|)) == ws[Pick(ws, cur).value];
    }
  }

  lemma ReadyFromEligible(ws: seq<Worker>, from: nat, len: nat)
    requires from < |ws| && 0 < len <= |ws| && ws[from].Eligible()
    ensures Ready(ws, from, len) == 1 + Ready(ws, After(from, |ws|), len - 1)
  {
  }

  /** The ready workers that come before place `i`, counted from `current`. */
  function Rank(ws: seq<Worker>, cur: nat, i: nat): nat
    requires cur < |ws| && i < |ws|
  {
    Ready(ws, cur, Distance(cur, i, |ws|))
  }

  lemma RankIsBelowTotal(ws: seq<Worker>, cur: nat, i: nat)
    requires cur < |ws| && i < |ws| && ws[i].Eligible()
    ensures Rank(ws, cur, i) < ReadyWorkers(ws)
  {
    var n, e := |ws|, Distance(cur, i, |ws|);
    ReadySplits(ws, cur, e, n - e);
    ReadyFromEligible(ws, i, n - e);
    ReadyAround(ws, cur);
  }

  /** Serving the eligible place `p`, the nearest to `current`, gives it the last rank. */
  lemma ServedGoesLast(ws: seq<Worker>, p: nat)
    requires p < |ws| && ws[p].Eligible()
    ensures Rank(ws, After(p, |ws|), p) == ReadyWorkers(ws) - 1
  {
    ReadyFromEligible(ws, p, |ws|);
    ReadyAround(ws, p);
  }

  /** Every other eligible place moves one rank forward. */
  lemma OthersMoveForward(ws: seq<Worker>, cur: nat, p: nat, i: nat)
    requires cur < |ws| && p < |ws| && ws[p].Eligible() && Rank(ws, cur, p) == 0
    requires i < |ws| && Distance(cur, p, |ws|) < Distance(cur, i, |ws|)
    ensures Rank(ws, cur, i) == Rank(ws, After(p, |ws|), i) + 1
  {
    var d, e := Distance(cur, p, |ws|), Distance(cur, i, |ws|);
    ReadySplits(ws, cur, d, e - d);
    ReadyFromEligible(ws, p, e - d);
  }

  /** The place handed out is the eligible one closest to `current`. */
  lemma PickIsNearest(ws: seq<Worker>, cur: nat, i: nat)
    requires cur < |ws| && i < |ws| && ws[i].Eligible()
    ensures Pick(ws, cur).Some? && ws[Pick(ws, cur).value].Eligible()
    ensures Rank(ws, cur, Pick(ws, cur).value) == 0
    ensures Distance(cur, Pick(ws, cur).value, |ws|) <= Distance(cur, i, |ws|)
  {
    var n, d, e := |ws|, Skipped(ws, cur, |ws|), Distance(cur, i, |ws|);
    assert Ahead(ws, cur, e) == ws[i];
    NoneSkippedIsReady(ws, cur, n);
    assert Ahead(ws, cur, d) == ws[Wrap(cur + d, n)];
    assert Distance(cur, Wrap(cur + d, n), n) == d;
  }

  /** A call serves the worker of rank 0 and sends it to the back of the queue. */
  lemma NextRotatesRanks(ws: seq<Worker>, cur: nat, i: nat)
    requires cur < |ws| && i < |ws| && ws[i].Eligible()
    ensures if Pick(ws, cur) == Some(i)
            then Rank(ws, cur, i) == 0 && Rank(ws, Next(ws, cur), i) == ReadyWorkers(ws) - 1
            else Rank(ws, cur, i) == Rank(ws, Next(ws, cur), i) + 1
  {
    PickIsNearest(ws, cur, i);
    var p := Pick(ws, cur).value;
    if p == i {
      ServedGoesLast(ws, p);
    } else {
      OthersMoveForward(ws, cur, p, i);
    }
  }

  /** How many of `k` consecutive GetNextWorker calls hand out the worker at place `i`. */
  function Times(ws: seq<Worker>, cur: nat, k: nat, i: nat): nat
    requires ws != [] ==> cur < |ws|
    decreases k
  {
    if k == 0 then 0
    else (if Pick(ws, cur) == Some(i) then 1 else 0) + Times(ws, Next(ws, cur), k - 1, i)
  }

  /** Where k calls leave `current`. */
  function CurAfter(ws: seq<Worker>, cur: nat, k: nat): (cur': nat)
    requires cur < |ws|
    ensures cur' < |ws|
    decreases k
  {
    if k == 0 then cur else CurAfter(ws, Next(ws, cur), k - 1)
  }

  lemma {:induction false} OneMoreCall(ws: seq<Worker>, cur: nat, k: nat, i: nat)
    requires cur < |ws|
    ensures CurAfter(ws, cur, k + 1) == Next(ws, CurAfter(ws, cur, k))
    ensures Times(ws, cur, k + 1, i) ==
              Times(ws, cur, k, i) + if Pick(ws, CurAfter(ws, cur, k)) == Some(i) then 1 else 0
    decreases k
  {
    if k > 0 {
      OneMoreCall(ws, Next(ws, cur), k - 1, i);
    }
  }

  /** How often the worker of this rank is served in `k` calls, when `all` workers take turns. */
  function Turns(all: nat, rank: nat, k: nat): nat
    requires rank < all
    decreases k
  {
    if k <= rank then 0 else 1 + Turns(all, all - 1, k - rank - 1)
  }

  lemma {:induction false} ServedInTurn(ws: seq<Worker>, cur: nat, k: nat, i: nat)
    requires cur < |ws| && i < |ws| && ws[i].Eligible()
    ensures Rank(ws, cur, i) < ReadyWorkers(ws)
    ensures Times(ws, cur, k, i) == Turns(ReadyWorkers(ws), Rank(ws, cur, i), k)
    decreases k
  {
    RankIsBelowTotal(ws, cur, i);
    if k > 0 {
      NextRotatesRanks(ws, cur, i);
      ServedInTurn(ws, Next(ws, cur), k - 1, i);
    }
  }

  lemma {:induction false} TurnsBounds(all: nat, rank: nat, k: nat)
    requires rank < all
    ensures all * Turns(all, rank, k) + rank < k + all && k <= all * Turns(all, rank, k) + rank
    decreases k
  {
    if k > rank {
      TurnsBounds(all, all - 1, k - rank - 1);
      MultiplySuccessor(all, Turns(all, all - 1, k - rank - 1));
    }
  }

  lemma MultiplySuccessor(all: nat, c: nat)
    ensures all * (1 + c) == all * c + all
  {
  }

  lemma {:induction false} NeverServedWhenUnready(ws: seq<Worker>, cur: nat, k: nat, i: nat)
    requires cur < |ws| && i < |ws| && !ws[i].Eligible()
    ensures Times(ws, cur, k, i) == 0
    decreases k
  {
    if k > 0 {
      PickFailsIffNoneReady(ws, cur);
      NeverServedWhenUnready(ws, Next(ws, cur), k - 1, i);
    }
  }

  lemma MultipleIsNotLess(all: nat, m: int)
    ensures m >= 1 ==> all * m >= all
  {
  }

  lemma CancelFactor(all: nat, a: nat, b: nat)
    requires all * a < all * b + all
    ensures a <= b
  {
    assert all * (a - b) == all * a - all * b;
    MultipleIsNotLess(all, a - b);
  }

  lemma DivisionBounds(all: nat, k: nat)
    requires all > 0
    ensures all * (k / all) <= k < all * (k / all) + all
  {
  }

  lemma TurnsAreQuotient(all: nat, rank: nat, k: nat)
    requires rank < all
    ensures k / all <= Turns(all, rank, k) <= (k + all - 1) / all
  {
    TurnsBounds(all, rank, k);
    DivisionBounds(all, k);
    CancelFactor(all, k / all, Turns(all, rank, k));
    DivisionBounds(all, k + all - 1);
    CancelFactor(all, Turns(all, rank, k), (k + all - 1) / all);
  }

  /**
   * Fair share: while the ring does not change, any `k` consecutive calls hand
   * out every ready worker k/r times, rounded down or up, and no other worker.
   */
  lemma FairShare(ws: seq<Worker>, cur: nat, k: nat, i: nat)
    requires cur < |ws| && i < |ws|
    ensures ws[i].Eligible() ==> ReadyWorkers(ws) > 0
    ensures ws[i].Eligible() ==>
              k / ReadyWorkers(ws) <= Times(ws, cur, k, i) <= (k + ReadyWorkers(ws) - 1) / ReadyWorkers(ws)
    ensures !ws[i].Eligible() ==> Times(ws, cur, k, i) == 0
  {
    if ws[i].Eligible() {
      ServedInTurn(ws, cur, k, i);
      TurnsAreQuotient(ReadyWorkers(ws), Rank(ws, cur, i), k);
    } else {
      NeverServedWhenUnready(ws, cur, k, i);
    }
  }
}
