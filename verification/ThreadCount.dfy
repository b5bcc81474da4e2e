/** Counting the threads of a concurrent system that stand at a given kind of place. */
module ThreadCount {

  ghost function Those<P, K>(threads: map<nat, P>, kindOf: P -> K, kind: K): set<nat> {
    set t | t in threads && kindOf(threads[t]) == kind
  }

  ghost function Count<P, K>(threads: map<nat, P>, kindOf: P -> K, kind: K): nat {
    |Those(threads, kindOf, kind)|
  }

  lemma CountWithout(s: set<nat>, t: nat)
    ensures |s| == |s - {t}| + (if t in s then 1 else 0)
  {
    assert s == (s - {t}) + (s * {t});
  }

  lemma OthersStay<P, K>(threads: map<nat, P>, kindOf: P -> K, t: nat, p: P, kind: K)
    requires t in threads
    ensures Those(threads[t := p], kindOf, kind) - {t} == Those(threads, kindOf, kind) - {t}
    ensures t in Those(threads, kindOf, kind) <==> kindOf(threads[t]) == kind
    ensures t in Those(threads[t := p], kindOf, kind) <==> kindOf(p) == kind
  {
  }

  /** When one thread moves, it leaves the count of one kind and joins that of another. */
  lemma Moves<P, K>(threads: map<nat, P>, kindOf: P -> K, t: nat, p: P, kind: K)
    requires t in threads
    ensures Count(threads, kindOf, kind) >= if kindOf(threads[t]) == kind then 1 else 0
    ensures Count(threads[t := p], kindOf, kind) ==
              Count(threads, kindOf, kind) - (if kindOf(threads[t]) == kind then 1 else 0)
              + (if kindOf(p) == kind then 1 else 0)
  {
    hide Those;
    OthersStay(threads, kindOf, t, p, kind);
    CountWithout(Those(threads, kindOf, kind), t);
    CountWithout(Those(threads[t := p], kindOf, kind), t);
  }

  lemma MovesEvery<P, K(!new)>(threads: map<nat, P>, kindOf: P -> K, t: nat, p: P)
    requires t in threads
    ensures forall kind :: Count(threads, kindOf, kind) >= if kindOf(threads[t]) == kind then 1 else 0
    ensures forall kind :: Count(threads[t := p], kindOf, kind) ==
              Count(threads, kindOf, kind) - (if kindOf(threads[t]) == kind then 1 else 0)
              + (if kindOf(p) == kind then 1 else 0)
  {
    forall kind
      ensures Count(threads, kindOf, kind) >= if kindOf(threads[t]) == kind then 1 else 0
      ensures Count(threads[t := p], kindOf, kind) ==
                Count(threads, kindOf, kind) - (if kindOf(threads[t]) == kind then 1 else 0)
                + (if kindOf(p) == kind then 1 else 0)
    {
      Moves(threads, kindOf, t, p, kind);
    }
  }

  lemma NoneThere<P, K>(threads: map<nat, P>, kindOf: P -> K, kind: K)
    requires forall t <- threads :: kindOf(threads[t]) != kind
    ensures Count(threads, kindOf, kind) == 0
  {
    assert Those(threads, kindOf, kind) == {};
  }
}
