/**
 * When the value under a key that a worker has can change.  The peer listener
 * looks for the key and sets it in two steps with the bucket unlocked in between
 * (Worker/PeerListenerThread.c:101-102 and 120-121), so it may replace a value
 * that a client's request has stored meanwhile.
 */
module ValueChanges {
  import opened Config
  import opened HashSpec
  import opened Replication

  /** While the listener is about to set a key, the table has what was stored under it since it looked. */
  predicate KnowsOvertaking(w: Worker) {
    w.listener.Checked? ==>
      w.listener.pair.key != [] && Lookup(w.table, w.listener.pair.key) == w.listener.stored
  }

  lemma StoreKeepsKnowing(w: Worker, p: Pair)
    requires KnowsOvertaking(w) && ReceiverStep(w, Store(p)).Some?
    ensures KnowsOvertaking(ReceiverStep(w, Store(p)).value.worker)
  {
    if w.listener.Checked? {
      LookupAfterSet(w.table, p.key, p.value, w.listener.pair.key);
    }
  }

  lemma ActKeepsKnowing(w: Worker, a: Action)
    requires KnowsOvertaking(w) && Act(w, a).Some?
    ensures KnowsOvertaking(Act(w, a).value.worker)
  {
    if a.Store? {
      StoreKeepsKnowing(w, a.pair);
    }
  }

  lemma AcceptKeepsKnowing(w: Worker, m: Message)
    requires KnowsOvertaking(w) && Accept(w, m).Some?
    ensures KnowsOvertaking(Accept(w, m).value)
  {
  }

  ghost predicate AllKnow(s: State) {
    forall id <- s.workers :: KnowsOvertaking(s.workers[id])
  }

  lemma OutcomeKeepsKnowing(s: State, id: int, o: Outcome)
    requires AllKnow(s) && KnowsOvertaking(o.worker)
    ensures AllKnow(Apply(s, id, o))
  {
    hide KnowsOvertaking;
  }

  lemma StepKeepsKnowing(s: State, step: Step)
    requires AllKnow(s) && Next(s, step).Some?
    ensures AllKnow(Next(s, step).value)
  {
    hide Act, Apply, Accept, KnowsOvertaking;
    match step
    case Local(id, action) =>
      var s' := if action.Store? then s.(puts := s.puts + {action.pair}) else s;
      ActKeepsKnowing(s.workers[id], action);
      OutcomeKeepsKnowing(s', id, Act(s.workers[id], action).value);
    case Receive(id, from) => AcceptKeepsKnowing(s.workers[id], Channel(s, from, id)[0]);
    case _ =>
  }

  lemma {:induction false} RunKeepsKnowing(s: State, steps: seq<Step>)
    requires AllKnow(s) && Run(s, steps).Some?
    ensures AllKnow(Run(s, steps).value)
    decreases |steps|
  {
    if steps != [] {
      StepKeepsKnowing(s, steps[0]);
      RunKeepsKnowing(Next(s, steps[0]).value, steps[1..]);
    }
  }

  /**
   * In every run: the listener's insertion meets the key if and only if a client's
   * request stored it after the listener looked, and then it replaces that value.
   */
  lemma InsertOverwritesIffOvertaken(ports: map<int, int>, steps: seq<Step>, n: int)
    requires Run(Initial(ports), steps).Some? && n in Run(Initial(ports), steps).value.workers
    requires InsertStep(Run(Initial(ports), steps).value.workers[n]).Some?
    ensures var w := Run(Initial(ports), steps).value.workers[n];
      var p, w' := w.listener.pair, InsertStep(w).value.worker;
      && Lookup(w.table, p.key) == w.listener.stored
      && Lookup(w'.table, p.key) == Some(p.value)
  {
    RunKeepsKnowing(Initial(ports), steps);
    var w := Run(Initial(ports), steps).value.workers[n];
    LookupAfterSet(w.table, w.listener.pair.key, w.listener.pair.value, w.listener.pair.key);
  }

  /** The step stores another value than `v` for a client, or lets a peer's pair replace what was stored meanwhile. */
  predicate Replaces(w: Worker, a: Action, key: Bytes, v: Bytes) {
    match a
    case Store(p) => p.key == key && p.value != v
    case Insert =>
      var l := w.listener;
      l.Checked? && l.pair.key == key && l.stored == Some(v) && l.pair.value != v
    case _ => false
  }

  lemma ActChangesValue(w: Worker, a: Action, key: Bytes)
    requires KnowsOvertaking(w) && Act(w, a).Some? && Lookup(w.table, key).Some? && key != []
    ensures var v := Lookup(w.table, key).value;
      var after := Lookup(Act(w, a).value.worker.table, key);
      after.Some? && (after != Some(v) <==> Replaces(w, a, key, v))
  {
    match a
    case Store(p) => LookupAfterSet(w.table, p.key, p.value, key);
    case Insert => LookupAfterSet(w.table, w.listener.pair.key, w.listener.pair.value, key);
    case _ =>
  }

  /** In every run, these are exactly the steps that change the value under a key. */
  lemma ValueChangesIffReplaced(ports: map<int, int>, steps: seq<Step>, step: Step, n: int, key: Bytes)
    requires Run(Initial(ports), steps).Some? && Next(Run(Initial(ports), steps).value, step).Some?
    requires n in Run(Initial(ports), steps).value.workers
    requires Lookup(Run(Initial(ports), steps).value.workers[n].table, key).Some? && key != []
    ensures var s := Run(Initial(ports), steps).value;
      var w, s' := s.workers[n], Next(s, step).value;
      var v := Lookup(w.table, key).value;
      && n in s'.workers && Lookup(s'.workers[n].table, key).Some?
      && (Lookup(s'.workers[n].table, key) != Some(v) <==>
            step.Local? && step.at == n && Replaces(w, step.action, key, v))
  {
    RunKeepsKnowing(Initial(ports), steps);
    StepChangesValue(Run(Initial(ports), steps).value, step, n, key);
  }

  lemma StepChangesValue(s: State, step: Step, n: int, key: Bytes)
    requires AllKnow(s) && Next(s, step).Some? && n in s.workers
    requires Lookup(s.workers[n].table, key).Some? && key != []
    ensures var w, s' := s.workers[n], Next(s, step).value;
      var v := Lookup(w.table, key).value;
      && n in s'.workers && Lookup(s'.workers[n].table, key).Some?
      && (Lookup(s'.workers[n].table, key) != Some(v) <==>
            step.Local? && step.at == n && Replaces(w, step.action, key, v))
  {
    hide Act, Apply, Replaces, KnowsOvertaking;
    if step.Local? {
      var s' := if step.action.Store? then s.(puts := s.puts + {step.action.pair}) else s;
      OutcomeChangesWorker(s', step.at, Act(s.workers[step.at], step.action).value);
      if step.at == n {
        ActChangesValue(s.workers[n], step.action, key);
      }
    }
  }

  lemma {:induction false} RunKeepsPresence(s: State, steps: seq<Step>, n: int, key: Bytes)
    requires AllKnow(s) && Run(s, steps).Some? && n in s.workers
    requires Lookup(s.workers[n].table, key).Some? && key != []
    ensures var s' := Run(s, steps).value; n in s'.workers && Lookup(s'.workers[n].table, key).Some?
    ensures s.puts <= Run(s, steps).value.puts
    decreases |steps|
  {
    if steps != [] {
      var s1 := Next(s, steps[0]).value;
      StepKeepsKnowing(s, steps[0]);
      StepChangesValue(s, steps[0], n, key);
      StepKeepsPuts(s, steps[0]);
      RunKeepsPresence(s1, steps[1..], n, key);
    }
  }

  lemma StepKeepsPuts(s: State, step: Step)
    requires Next(s, step).Some?
    ensures s.puts <= Next(s, step).value.puts
  {
  }

  /** When no key is put with two values, no value ever changes. */
  lemma WriteOnceValuesStay(ports: map<int, int>, before: seq<Step>, more: seq<Step>, n: int, key: Bytes)
    requires Run(Initial(ports), before).Some? && Run(Run(Initial(ports), before).value, more).Some?
    requires WriteOnce(Run(Run(Initial(ports), before).value, more).value.puts) && key != []
    requires n in Run(Initial(ports), before).value.workers
    requires Lookup(Run(Initial(ports), before).value.workers[n].table, key).Some?
    ensures var s := Run(Initial(ports), before).value;
      var s' := Run(s, more).value;
      n in s'.workers && Lookup(s'.workers[n].table, key) == Lookup(s.workers[n].table, key)
  {
    var s := Run(Initial(ports), before).value;
    var s' := Run(s, more).value;
    RunKeepsKnowing(Initial(ports), before);
    RunKeepsPresence(s, more, n, key);
    ReplicaSafety(ports, before);
    RunKeepsOnlyPuts(s, more);
    LookupIsInTable(s.workers[n].table, key);
    LookupIsInTable(s'.workers[n].table, key);
    assert Known(s.workers[n]) <= s.puts && Known(s'.workers[n]) <= s'.puts;
  }
}
