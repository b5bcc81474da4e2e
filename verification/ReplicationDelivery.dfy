/**
 * From the actions of one worker to runs of the system: what a worker sends
 * arrives at a peer whose listener attends to it.
 */
module ReplicationDelivery {
  import opened Config
  import opened HashSpec
  import opened PeerSpec
  import opened Replication
  import opened ReplicationRuns

  function Locals(a: int, actions: seq<Action>): seq<Step> {
    if actions == [] then [] else Locals(a, actions[..|actions| - 1]) + [Local(a, actions[|actions| - 1])]
  }

  function MessagesTo(sent: seq<Output>, n: int): seq<Message> {
    if sent == [] then []
    else
      var last := sent[|sent| - 1];
      MessagesTo(sent[..|sent| - 1], n) + (if last.Sent? && last.to == n then [last.message] else [])
  }

  /** None of these outputs breaks or closes the connection to n. */
  predicate Spares(sent: seq<Output>, n: int) {
    forall i :: 0 <= i < |sent| ==> sent[i] != Broke(n) && !(sent[i].Closed? && n in sent[i].peers)
  }

  /** Nothing was lost on a's connection to n, and it was not closed. */
  predicate IsIntact(s: State, a: int, n: int) {
    (a, n) !in s.broken && (a, n) !in s.closed
  }

  /** n's listener reads a's connection, or accepts it next. */
  predicate Attends(s: State, a: int, n: int) {
    && IsIntact(s, a, n)
    && (Serves(s, n, a) || (n !in s.serving && Backlog(s, n) != [] && Backlog(s, n)[0] == a))
  }

  lemma {:induction false} RunMore(s: State, xs: seq<Step>, s1: State, ys: seq<Step>)
    requires Run(s, xs) == Some(s1)
    ensures Run(s, xs + ys) == Run(s1, ys)
    decreases |xs|
  {
    if xs == [] {
      assert xs + ys == ys;
    } else {
      assert (xs + ys)[1..] == xs[1..] + ys;
      RunMore(Next(s, xs[0]).value, xs[1..], s1, ys);
    }
  }

  lemma RunOne(s: State, steps: seq<Step>, s1: State, step: Step)
    requires Run(s, steps) == Some(s1)
    ensures Run(s, steps + [step]) == Next(s1, step)
  {
    RunMore(s, steps, s1, [step]);
    assert [step][1..] == [];
  }

  /** Only worker a has moved, and what it sent to n has joined the channel to n. */
  predicate Moved(s: State, s': State, a: int, w: Worker, n: int, sent: seq<Output>) {
    && s'.workers == s.workers[a := w] && s'.serving == s.serving
    && Channel(s', a, n) == Channel(s, a, n) + MessagesTo(sent, n)
    && Backlog(s, n) <= Backlog(s', n)
    && (IsIntact(s, a, n) && Spares(sent, n) ==> IsIntact(s', a, n))
  }

  lemma MovedAttends(s: State, s': State, a: int, w: Worker, n: int, sent: seq<Output>)
    requires Moved(s, s', a, w, n, sent) && Attends(s, a, n) && Spares(sent, n)
    ensures Attends(s', a, n)
  {
  }

  lemma OutcomeKeepsIntact(s: State, a: int, o: Outcome, n: int)
    requires IsIntact(s, a, n) && Spares(Spoken(o.output), n)
    ensures IsIntact(Apply(s, a, o), a, n)
  {
    assert o.output != Nothing ==> Spoken(o.output)[0] == o.output;
  }

  lemma OutcomeAppends(s: State, a: int, o: Outcome, n: int)
    ensures Channel(Apply(s, a, o), a, n) ==
              Channel(s, a, n) + if o.output.Sent? && o.output.to == n then [o.output.message] else []
    ensures Apply(s, a, o).workers == s.workers[a := o.worker] && Apply(s, a, o).serving == s.serving
    ensures Backlog(s, n) <= Backlog(Apply(s, a, o), n)
  {
  }

  lemma SparesBoth(sent: seq<Output>, more: seq<Output>, n: int)
    ensures Spares(sent + more, n) <==> Spares(sent, n) && Spares(more, n)
  {
    var all := sent + more;
    assert forall i :: 0 <= i < |sent| ==> all[i] == sent[i];
    assert forall i :: 0 <= i < |more| ==> all[|sent| + i] == more[i];
  }

  lemma MessageToOther(sent: seq<Output>, o: Output, n: int)
    requires !(o.Sent? && o.to == n)
    ensures MessagesTo(sent + Spoken(o), n) == MessagesTo(sent, n)
  {
    if o.Nothing? {
      assert sent + Spoken(o) == sent;
    } else {
      Front(sent, o);
      NothingBefore(MessagesTo(sent, n));
    }
  }

  lemma MessageToThis(sent: seq<Output>, n: int, m: Message)
    ensures MessagesTo(sent + [Sent(n, m)], n) == MessagesTo(sent, n) + [m]
  {
    Front(sent, Sent(n, m));
  }

  lemma OutcomeMoves(s: State, s1: State, a: int, w1: Worker, n: int, sent: seq<Output>, o: Outcome)
    requires Moved(s, s1, a, w1, n, sent)
    ensures Moved(s, Apply(s1, a, o), a, o.worker, n, sent + Spoken(o.output))
  {
    hide Apply, IsIntact, Spares, MessagesTo;
    SparesBoth(sent, Spoken(o.output), n);
    OutcomeAppends(s1, a, o, n);
    if o.output.Sent? && o.output.to == n {
      MessageToThis(sent, n, o.output.message);
      Regroup(Channel(s, a, n), MessagesTo(sent, n), [o.output.message]);
    } else {
      MessageToOther(sent, o.output, n);
      NothingBefore(Channel(s1, a, n));
    }
    if IsIntact(s1, a, n) && Spares(Spoken(o.output), n) {
      OutcomeKeepsIntact(s1, a, o, n);
    }
  }

  lemma ActionMoves(s: State, s1: State, a: int, w1: Worker, n: int, sent: seq<Output>, action: Action)
    requires Moved(s, s1, a, w1, n, sent) && AndThen(w1, sent, action).Some? && a in s1.workers
    ensures Next(s1, Local(a, action)).Some?
    ensures var (w', all) := AndThen(w1, sent, action).value;
      Moved(s, Next(s1, Local(a, action)).value, a, w', n, all)
  {
    hide Act, Apply, IsIntact, Spares, MessagesTo;
    var s2 := if action.Store? then s1.(puts := s1.puts + {action.pair}) else s1;
    MovedPuts(s, s1, a, w1, n, sent, s2.puts);
    OutcomeMoves(s, s2, a, w1, n, sent, Act(w1, action).value);
  }

  lemma MovedPuts(s: State, s1: State, a: int, w1: Worker, n: int, sent: seq<Output>, puts: set<Pair>)
    requires Moved(s, s1, a, w1, n, sent)
    ensures Moved(s, s1.(puts := puts), a, w1, n, sent)
  {
  }

  lemma {:induction false} ActionsRun(s: State, a: int, actions: seq<Action>, n: int)
    requires a in s.workers && ActAll(s.workers[a], actions).Some?
    ensures Run(s, Locals(a, actions)).Some?
    ensures var (w', sent) := ActAll(s.workers[a], actions).value;
      Moved(s, Run(s, Locals(a, actions)).value, a, w', n, sent)
  {
    hide AndThen, Next;
    if actions != [] {
      var front, last := actions[..|actions| - 1], actions[|actions| - 1];
      ActionsRun(s, a, front, n);
      var (w1, sent) := ActAll(s.workers[a], front).value;
      var s1 := Run(s, Locals(a, front)).value;
      ActionMoves(s, s1, a, w1, n, sent, last);
      RunOne(s, Locals(a, front), s1, Local(a, last));
    }
  }

  // ===== Draining a connection

  function InMessage(m: Message): seq<Pair> {
    if PairOf(m).Some? then [PairOf(m).value] else []
  }

  function PairsAlong(channel: seq<Message>): seq<Pair> {
    if channel == [] then [] else PairsAlong(channel[..|channel| - 1]) + InMessage(channel[|channel| - 1])
  }

  lemma {:induction false} PairsAlongFirst(channel: seq<Message>)
    requires channel != []
    ensures PairsAlong(channel) == InMessage(channel[0]) + PairsAlong(channel[1..])
  {
    if |channel| > 1 {
      var front, last := channel[..|channel| - 1], channel[|channel| - 1];
      PairsAlongFirst(front);
      assert channel[1..][..|channel| - 2] == front[1..];
      assert PairsAlong(channel) == (InMessage(channel[0]) + PairsAlong(front[1..])) + InMessage(last);
      assert PairsAlong(channel[1..]) == PairsAlong(front[1..]) + InMessage(last);
    } else {
      assert PairsAlong(channel[..0]) == [] && channel[1..] == [];
    }
  }

  lemma {:induction false} MergeBoth(m: map<Bytes, Bytes>, xs: seq<Pair>, ys: seq<Pair>)
    ensures Merge(m, xs + ys) == Merge(Merge(m, xs), ys)
  {
    if ys == [] {
      assert xs + ys == xs;
    } else {
      assert (xs + ys)[..|xs + ys| - 1] == xs + ys[..|ys| - 1];
      MergeBoth(m, xs, ys[..|ys| - 1]);
    }
  }

  /** The listener can work: no other call of this worker stands in its way. */
  predicate IsListening(w: Worker) {
    w.listener.Listening? && !(w.exporter.Scanning? && w.exporter.held.Some?)
  }

  predicate Ignores(w: Worker, m: Message) {
    match PairOf(m)
    case None => true
    case Some(p) => p.key == [] || Has(w.table, p.key)
  }

  /** What taking in one message makes of the worker. */
  function TakenIn(w: Worker, m: Message): Worker {
    if Ignores(w, m) then w else Holding(w, PairOf(m).value)
  }

  lemma TakenInMerges(w: Worker, m: Message)
    requires HashSpec.Valid(w.table) && (PairOf(m).Some? ==> PairOf(m).value.key != [])
    ensures HashSpec.Valid(TakenIn(w, m).table)
    ensures Contents(TakenIn(w, m).table) == Merge(Contents(w.table), InMessage(m))
  {
    match PairOf(m)
    case None =>
    case Some(p) =>
      LookupIsContents(w.table, p.key);
      assert [p][..0] == [];
      if !Has(w.table, p.key) {
        SetKeepsValid(w.table, p.key, p.value);
        SetIsUpdate(w.table, p.key, p.value);
      }
  }

  /** The steps by which n accepts a's connection, if it has yet to. */
  function TurnTo(s: State, n: int): seq<Step> {
    if n in s.serving then [] else [Serve(n)]
  }

  function TakeIn(w: Worker, m: Message, n: int, a: int): seq<Step> {
    if Ignores(w, m) then [Receive(n, a)] else [Receive(n, a), Local(n, Insert)]
  }

  lemma TurnsTo(s: State, a: int, n: int)
    requires Attends(s, a, n)
    ensures Run(s, TurnTo(s, n)).Some?
    ensures var s' := Run(s, TurnTo(s, n)).value;
      s' == s.(serving := s'.serving, backlogs := s'.backlogs) && Attends(s', a, n) && Serves(s', n, a)
  {
    if n !in s.serving {
      var s' := Next(s, Serve(n)).value;
      assert [Serve(n)][1..] == [];
      assert Run(s', []) == Some(s');
    }
  }

  lemma TakesIn(s: State, a: int, n: int)
    requires n in s.workers && IsListening(s.workers[n]) && Channel(s, a, n) != [] && Serves(s, n, a)
    ensures var w, m := s.workers[n], Channel(s, a, n)[0];
      Run(s, TakeIn(w, m, n, a)) ==
      Some(s.(workers := s.workers[n := TakenIn(w, m)], channels := s.channels[(a, n) := Channel(s, a, n)[1..]]))
  {
    var w, channel := s.workers[n], Channel(s, a, n);
    var steps := TakeIn(w, channel[0], n, a);
    var s1 := Next(s, Receive(n, a)).value;
    if |steps| == 1 {
      assert s1.workers == s.workers[n := w];
      assert Run(s1, steps[1..]) == Some(s1);
    } else {
      var s2 := Next(s1, Local(n, Insert)).value;
      assert s2.workers == s.workers[n := TakenIn(w, channel[0])];
      assert Run(s2, steps[1..][1..]) == Some(s2);
      assert steps[1..] == [Local(n, Insert)];
      assert Run(s1, steps[1..]) == Some(s2);
    }
  }

  predicate NoEmptyKeys(channel: seq<Message>) {
    forall i :: 0 <= i < |PairsAlong(channel)| ==> PairsAlong(channel)[i].key != []
  }

  lemma NoEmptyKeyFirst(channel: seq<Message>)
    requires channel != [] && NoEmptyKeys(channel)
    ensures PairOf(channel[0]).Some? ==> PairOf(channel[0]).value.key != []
    ensures NoEmptyKeys(channel[1..])
  {
    PairsAlongFirst(channel);
    var first, rest := InMessage(channel[0]), PairsAlong(channel[1..]);
    assert first != [] ==> (first + rest)[0] == first[0];
    assert forall i :: 0 <= i < |rest| ==> (first + rest)[|first| + i] == rest[i];
  }

  /** The state once n has taken in all that a sent it. */
  ghost predicate IsDrained(s: State, s': State, a: int, n: int)
    requires n in s.workers
  {
    && n in s'.workers && Channel(s', a, n) == [] && Attends(s', a, n)
    && s'.workers == s.workers[n := s'.workers[n]]
    && s'.workers[n] == s.workers[n].(table := s'.workers[n].table, tally := s'.workers[n].tally)
    && HashSpec.Valid(s'.workers[n].table)
    && Contents(s'.workers[n].table) == Merge(Contents(s.workers[n].table), PairsAlong(Channel(s, a, n)))
  }

  lemma MergeInOrder(contents: map<Bytes, Bytes>, channel: seq<Message>)
    requires channel != []
    ensures Merge(contents, PairsAlong(channel)) ==
              Merge(Merge(contents, InMessage(channel[0])), PairsAlong(channel[1..]))
  {
    PairsAlongFirst(channel);
    MergeBoth(contents, InMessage(channel[0]), PairsAlong(channel[1..]));
  }

  lemma DrainOneMore(s: State, s1: State, s': State, a: int, n: int)
    requires n in s.workers && Channel(s, a, n) != [] && HashSpec.Valid(s.workers[n].table)
    requires NoEmptyKeys(Channel(s, a, n))
    requires var w, channel := s.workers[n], Channel(s, a, n);
      s1 == s.(workers := s.workers[n := TakenIn(w, channel[0])], channels := s.channels[(a, n) := channel[1..]])
    requires IsDrained(s1, s', a, n)
    ensures IsDrained(s, s', a, n)
  {
    var w, channel := s.workers[n], Channel(s, a, n);
    NoEmptyKeyFirst(channel);
    TakenInMerges(w, channel[0]);
    MergeInOrder(Contents(w.table), channel);
    assert Channel(s1, a, n) == channel[1..];
    hide Merge, PairsAlong, Contents, NoEmptyKeys, HashSpec.Valid, Attends, InMessage;
  }

  predicate CanBeDrained(s: State, a: int, n: int) {
    && n in s.workers && IsListening(s.workers[n])
    && Attends(s, a, n) && Serves(s, n, a) && NoEmptyKeys(Channel(s, a, n))
  }

  /** The state once n has taken in the first message. */
  lemma TakesOne(s: State, a: int, n: int)
    requires CanBeDrained(s, a, n) && Channel(s, a, n) != [] && HashSpec.Valid(s.workers[n].table)
    ensures var w, channel := s.workers[n], Channel(s, a, n);
      var s1 := s.(workers := s.workers[n := TakenIn(w, channel[0])], channels := s.channels[(a, n) := channel[1..]]);
      && Run(s, TakeIn(w, channel[0], n, a)) == Some(s1)
      && CanBeDrained(s1, a, n) && HashSpec.Valid(s1.workers[n].table) && Channel(s1, a, n) == channel[1..]
  {
    NoEmptyKeyFirst(Channel(s, a, n));
    TakesIn(s, a, n);
    TakenInMerges(s.workers[n], Channel(s, a, n)[0]);
    hide Run, TakeIn, NoEmptyKeys;
  }

  lemma NothingToDrain(s: State, a: int, n: int)
    requires CanBeDrained(s, a, n) && Channel(s, a, n) == [] && HashSpec.Valid(s.workers[n].table)
    ensures Run(s, []) == Some(s) && IsDrained(s, s, a, n)
  {
  }

  lemma {:induction false} ServedCanDrain(s: State, a: int, n: int)
    requires CanBeDrained(s, a, n) && HashSpec.Valid(s.workers[n].table)
    ensures exists steps :: Run(s, steps).Some? && IsDrained(s, Run(s, steps).value, a, n)
    decreases |Channel(s, a, n)|
  {
    assert NoEmptyKeys(Channel(s, a, n)) && n in s.workers;
    hide Run, TakeIn, IsDrained, CanBeDrained, NoEmptyKeys;
    if Channel(s, a, n) == [] {
      NothingToDrain(s, a, n);
      assert Run(s, []).Some? && IsDrained(s, Run(s, []).value, a, n);
    } else {
      TakesOne(s, a, n);
      var first := TakeIn(s.workers[n], Channel(s, a, n)[0], n, a);
      var s1 := Run(s, first).value;
      ServedCanDrain(s1, a, n);
      var rest :| Run(s1, rest).Some? && IsDrained(s1, Run(s1, rest).value, a, n);
      RunMore(s, first, s1, rest);
      DrainOneMore(s, s1, Run(s1, rest).value, a, n);
      assert Run(s, first + rest).Some? && IsDrained(s, Run(s, first + rest).value, a, n);
    }
  }

  lemma TurnedIsDrained(s: State, s1: State, s': State, a: int, n: int)
    requires n in s.workers && s1 == s.(serving := s1.serving, backlogs := s1.backlogs) && IsDrained(s1, s', a, n)
    ensures IsDrained(s, s', a, n)
  {
  }

  /** A connection that the listener attends can be drained, and the outcome is Merge of what it carried. */
  lemma CanDrain(s: State, a: int, n: int)
    requires n in s.workers && IsListening(s.workers[n]) && HashSpec.Valid(s.workers[n].table)
    requires Attends(s, a, n) && NoEmptyKeys(Channel(s, a, n))
    ensures exists steps :: Run(s, steps).Some? && IsDrained(s, Run(s, steps).value, a, n)
  {
    TurnsTo(s, a, n);
    var turn := TurnTo(s, n);
    var s1 := Run(s, turn).value;
    hide Run, Attends, IsDrained, NoEmptyKeys;
    ServedCanDrain(s1, a, n);
    var rest :| Run(s1, rest).Some? && IsDrained(s1, Run(s1, rest).value, a, n);
    RunMore(s, turn, s1, rest);
    TurnedIsDrained(s, s1, Run(s1, rest).value, a, n);
    assert Run(s, turn + rest).Some? && IsDrained(s, Run(s, turn + rest).value, a, n);
  }

  // ===== An export from end to end

  lemma SentOneMore(sent: seq<Output>, n: int, m: Message)
    ensures MessagesTo(sent + [Sent(n, m)], n) == MessagesTo(sent, n) + [m]
    ensures PairsAlong(MessagesTo(sent + [Sent(n, m)], n)) == PairsAlong(MessagesTo(sent, n)) + InMessage(m)
  {
    MessageToThis(sent, n, m);
    Front(MessagesTo(sent, n), m);
  }

  lemma StartArrives(n: int, start: Message)
    requires PairOf(start).None?
    ensures DataTo(n, []) == [] && PairsAlong(MessagesTo([Sent(n, start)], n)) == []
  {
    SentOneMore([], n, start);
    NothingBefore([Sent(n, start)]);
  }

  lemma {:induction false} DataArrives(n: int, start: Message, pairs: seq<Pair>)
    requires PairOf(start).None?
    ensures PairsAlong(MessagesTo([Sent(n, start)] + DataTo(n, pairs), n)) == pairs
  {
    hide DataTo, MessagesTo, PairsAlong;
    var first := [Sent(n, start)];
    if pairs == [] {
      StartArrives(n, start);
      NothingBefore(first);
      return;
    }
    var front, last := pairs[..|pairs| - 1], pairs[|pairs| - 1];
    var m, sent := Export(Data(last)), first + DataTo(n, front);
    DataToLast(n, pairs);
    DataArrives(n, start, front);
    SentOneMore(sent, n, m);
    Regroup(first, DataTo(n, front), [Sent(n, m)]);
    assert InMessage(m) == [last];
    assert front + [last] == pairs;
  }

  lemma ScriptArrives(n: int, t: Table)
    requires HashSpec.Valid(t)
    ensures var channel := MessagesTo(ScriptTo(n, t), n); PairsAlong(channel) == Pairs(t) && NoEmptyKeys(channel)
  {
    var start := Export(Start(|Pairs(t)|));
    forall i | 0 <= i < |Pairs(t)|
      ensures Pairs(t)[i].key != []
    {
      FlatHolds(t, BUCKET_COUNT, Pairs(t)[i]);
      var b := Bucket(Pairs(t)[i].key);
      assert ValidChain(t[b], b);
    }
    DataArrives(n, start, Pairs(t));
    SentOneMore([Sent(n, start)] + DataTo(n, Pairs(t)), n, Export(End));
    assert ScriptTo(n, t) == ([Sent(n, start)] + DataTo(n, Pairs(t))) + [Sent(n, Export(End))];
  }

  lemma ScriptSpares(target: int, t: Table, n: int)
    ensures Spares(ScriptTo(target, t), n)
  {
    ScriptIsExport(target, t);
  }

  /** n has its own pairs, and those of a under other keys. */
  ghost predicate IsCopied(s: State, s': State, a: int, n: int)
    requires a in s.workers && n in s.workers
  {
    && a in s'.workers && n in s'.workers && s'.workers[a].table == s.workers[a].table
    && Channel(s', a, n) == []
    && var own := Contents(s.workers[n].table);
       Contents(s'.workers[n].table) == own + (Contents(s.workers[a].table) - own.Keys)
  }

  lemma ExportIsSent(s: State, a: int, n: int)
    requires a in s.workers && Channel(s, a, n) == [] && Attends(s, a, n)
    requires var w := s.workers[a];
      w.exporter.Idle? && w.requests != [] && w.requests[0] == n && Exports(w, n)
    ensures var t := s.workers[a].table;
      && Run(s, Locals(a, ExportActions(t))).Some?
      && var s1 := Run(s, Locals(a, ExportActions(t))).value;
         && s1.workers == s.workers[a := AfterExport(s.workers[a])]
         && Channel(s1, a, n) == MessagesTo(ScriptTo(n, t), n) && Attends(s1, a, n)
  {
    hide AndThen, ActAll, ScriptTo, Attends, Spares;
    var w := s.workers[a];
    WholeExport(w);
    ActionsRun(s, a, ExportActions(w.table), n);
    ScriptSpares(n, w.table, n);
    MovedAttends(s, Run(s, Locals(a, ExportActions(w.table))).value, a, AfterExport(w), n, ScriptTo(n, w.table));
    assert [] + MessagesTo(ScriptTo(n, w.table), n) == MessagesTo(ScriptTo(n, w.table), n);
  }

  lemma DrainedIsCopied(s: State, s1: State, s': State, a: int, n: int)
    requires a in s.workers && n in s.workers && a != n && HashSpec.Valid(s.workers[a].table)
    requires a in s1.workers && s1.workers[a].table == s.workers[a].table
    requires s1.workers == s.workers[a := s1.workers[a]]
    requires PairsAlong(Channel(s1, a, n)) == Pairs(s.workers[a].table) && IsDrained(s1, s', a, n)
    ensures IsCopied(s, s', a, n)
    ensures Contents(s.workers[n].table) == map[] ==>
              Contents(s'.workers[n].table) == Contents(s'.workers[a].table)
  {
    ExportThenMerge(s.workers[a].table, Contents(s.workers[n].table));
  }

  /**
   * A queued export to a connected peer whose listener attends to it can run to
   * its end, whatever both tables hold; a peer that had nothing becomes a copy.
   */
  lemma ExportArrives(s: State, a: int, n: int)
    requires a in s.workers && n in s.workers && a != n && Channel(s, a, n) == [] && Attends(s, a, n)
    requires HashSpec.Valid(s.workers[a].table) && HashSpec.Valid(s.workers[n].table)
    requires var w := s.workers[a];
      w.exporter.Idle? && w.requests != [] && w.requests[0] == n && Exports(w, n)
    requires IsListening(s.workers[n])
    ensures exists steps :: Run(s, steps).Some? && IsCopied(s, Run(s, steps).value, a, n)
              && (Contents(s.workers[n].table) == map[] ==>
                    Contents(Run(s, steps).value.workers[n].table) == Contents(s.workers[a].table))
  {
    hide Run, Next, Locals, ExportActions, MessagesTo, PairsAlong, ScriptTo, IsDrained, Attends;
    var t := s.workers[a].table;
    ExportIsSent(s, a, n);
    ScriptArrives(n, t);
    var exported := Locals(a, ExportActions(t));
    var s1 := Run(s, exported).value;
    CanDrain(s1, a, n);
    var drained :| Run(s1, drained).Some? && IsDrained(s1, Run(s1, drained).value, a, n);
    var s' := Run(s1, drained).value;
    RunMore(s, exported, s1, drained);
    DrainedIsCopied(s, s1, s', a, n);
    assert Run(s, exported + drained) == Some(s');
  }

  // ===== A store from end to end

  /** The place of n among the peers, and that its notice succeeds. */
  predicate IsTold(peers: seq<Peer>, send: nat -> int, n: int, k: nat) {
    k < |peers| && peers[k].workerId == n && IsReached(peers[k]) && send(k) > 0
  }

  lemma NoticesAt(peers: seq<Peer>, send: nat -> int, p: Pair, m: nat)
    requires m <= |peers|
    ensures m == 0 ==> Notices(peers, send, p, m) == []
    ensures m > 0 ==>
              Notices(peers, send, p, m) ==
              Notices(peers, send, p, m - 1) + Spoken(Notice(peers[m - 1], p, send(m - 1) > 0))
  {
  }

  /** What went to n is this, and its connection was left alone. */
  predicate Reached(sent: seq<Output>, n: int, messages: seq<Message>) {
    MessagesTo(sent, n) == messages && Spares(sent, n)
  }

  /** A notice to another peer changes nothing for n. */
  lemma NoticeToOther(sent: seq<Output>, peer: Peer, p: Pair, ok: bool, n: int, messages: seq<Message>)
    requires peer.workerId != n && Reached(sent, n, messages)
    ensures Reached(sent + Spoken(Notice(peer, p, ok)), n, messages)
  {
    MessageToOther(sent, Notice(peer, p, ok), n);
    SparesBoth(sent, Spoken(Notice(peer, p, ok)), n);
  }

  lemma NoticeToThis(sent: seq<Output>, peer: Peer, p: Pair, n: int)
    requires IsReached(peer) && peer.workerId == n && Reached(sent, n, [])
    ensures Reached(sent + Spoken(Notice(peer, p, true)), n, [Notify(p)])
  {
    MessageToThis(sent, n, Notify(p));
    NothingBefore([Notify(p)]);
    SparesBoth(sent, [Sent(n, Notify(p))], n);
  }

  lemma NothingReached(n: int)
    ensures Reached([], n, [])
  {
  }

  lemma {:induction false} NoticesToOthers(peers: seq<Peer>, send: nat -> int, p: Pair, n: int, m: nat)
    requires m <= |peers| && forall i :: 0 <= i < m ==> peers[i].workerId != n
    ensures Reached(Notices(peers, send, p, m), n, [])
  {
    hide Reached, Notices, Notice, Spoken;
    NoticesAt(peers, send, p, m);
    if m == 0 {
      NothingReached(n);
      return;
    }
    NoticesToOthers(peers, send, p, n, m - 1);
    NoticeToOther(Notices(peers, send, p, m - 1), peers[m - 1], p, send(m - 1) > 0, n, []);
  }

  lemma {:induction false} NoticesReach(peers: seq<Peer>, send: nat -> int, p: Pair, n: int, k: nat, m: nat)
    requires ValidPeers(peers) && IsTold(peers, send, n, k) && k < m <= |peers|
    ensures Reached(Notices(peers, send, p, m), n, [Notify(p)])
  {
    hide Reached, Notices, Notice, Spoken;
    NoticesAt(peers, send, p, m);
    if m - 1 == k {
      NoticesToOthers(peers, send, p, n, k);
      NoticeToThis(Notices(peers, send, p, k), peers[k], p, n);
    } else {
      NoticesReach(peers, send, p, n, k, m - 1);
      NoticeToOther(Notices(peers, send, p, m - 1), peers[m - 1], p, send(m - 1) > 0, n, [Notify(p)]);
    }
  }

  lemma ToldHasNotFailed(peers: seq<Peer>, send: nat -> int, n: int, k: nat)
    requires ValidPeers(peers) && IsTold(peers, send, n, k)
    ensures n !in Failed(peers, send, |peers|)
  {
    if n in Failed(peers, send, |peers|) {
      FailedIsKnown(peers, send, |peers|, n);
    }
  }

  lemma StoreReaches(peers: seq<Peer>, send: nat -> int, p: Pair, n: int, k: nat)
    requires ValidPeers(peers) && IsTold(peers, send, n, k)
    ensures MessagesTo(StoreOutputs(peers, send, p), n) == [Notify(p)] && Spares(StoreOutputs(peers, send, p), n)
  {
    hide Notices, MessagesTo, Failed, ValidPeers;
    var failed, notices := Failed(peers, send, |peers|), Notices(peers, send, p, |peers|);
    NoticesReach(peers, send, p, n, k, |peers|);
    ToldHasNotFailed(peers, send, n, k);
    MessageToOther(notices, Closed(failed), n);
    SparesBoth(notices, [Closed(failed)], n);
  }

  lemma StoreIsSent(s: State, a: int, n: int, send: nat -> int, k: nat, p: Pair)
    requires a in s.workers && Channel(s, a, n) == [] && Attends(s, a, n)
    requires var w := s.workers[a];
      w.receiver.Ready? && Unlocked(w, p.key) && p.key != [] && ValidPeers(w.peers) && IsTold(w.peers, send, n, k)
    ensures var w := s.workers[a];
      var steps := Locals(a, StoreActions(w.peers, send, p));
      && Run(s, steps).Some?
      && var s1 := Run(s, steps).value;
         && s1.workers == s.workers[a := Stored(w, p).(peers := Survivors(w.peers, send))]
         && Channel(s1, a, n) == [Notify(p)] && Attends(s1, a, n) && s1.serving == s.serving
  {
    hide AndThen, ActAll, Attends, Spares, MessagesTo, StoreOutputs;
    var w := s.workers[a];
    WholeStore(w, send, p);
    ActionsRun(s, a, StoreActions(w.peers, send, p), n);
    StoreReaches(w.peers, send, p, n, k);
    NothingBefore([Notify(p)]);
    MovedAttends(s, Run(s, Locals(a, StoreActions(w.peers, send, p))).value, a,
                 Stored(w, p).(peers := Survivors(w.peers, send)), n, StoreOutputs(w.peers, send, p));
  }

  /** The steps of a store, of its notices, and of one peer's taking in of its notice. */
  function StoreSteps(s: State, a: int, n: int, send: nat -> int, p: Pair): seq<Step>
    requires a in s.workers && n in s.workers
  {
    (Locals(a, StoreActions(s.workers[a].peers, send, p)) + TurnTo(s, n)) + TakeIn(s.workers[n], Notify(p), n, a)
  }

  /** The state after these steps, as far as the two workers go. */
  predicate IsReplicated(s: State, s': State, a: int, n: int, send: nat -> int, p: Pair)
    requires a in s.workers && n in s.workers
  {
    var w, wn := s.workers[a], s.workers[n];
    && s'.workers == s.workers[a := Stored(w, p).(peers := Survivors(w.peers, send))][n := TakenIn(wn, Notify(p))]
    && Channel(s', a, n) == [] && Attends(s', a, n)
  }

  lemma StoreIsTakenIn(s: State, a: int, n: int, send: nat -> int, k: nat, p: Pair)
    requires a in s.workers && n in s.workers && a != n && Channel(s, a, n) == [] && Attends(s, a, n)
    requires var w := s.workers[a];
      w.receiver.Ready? && Unlocked(w, p.key) && p.key != [] && ValidPeers(w.peers) && IsTold(w.peers, send, n, k)
    requires IsListening(s.workers[n])
    ensures Run(s, StoreSteps(s, a, n, send, p)).Some?
    ensures IsReplicated(s, Run(s, StoreSteps(s, a, n, send, p)).value, a, n, send, p)
  {
    hide Set, Lookup, Holding, Survivors, Connected, StoreActions, FindPeer;
    var w, wn := s.workers[a], s.workers[n];
    var store, turn, take := Locals(a, StoreActions(w.peers, send, p)), TurnTo(s, n), TakeIn(wn, Notify(p), n, a);
    StoreIsSent(s, a, n, send, k, p);
    var s1 := Run(s, store).value;
    assert TurnTo(s1, n) == turn;
    TurnsTo(s1, a, n);
    var s2 := Run(s1, turn).value;
    assert Channel(s2, a, n) == [Notify(p)];
    TakesIn(s2, a, n);
    hide Run, Next, Stored, TakenIn, TakeIn;
    RunMore(s, store, s1, turn);
    RunMore(s, store + turn, s2, take);
  }

  /**
   * A store request with its notices, of which the one to n succeeds: afterwards
   * both workers answer alike for the key if and only if n did not have it, or
   * had it with the same value.  The notices to other peers may fail.
   */
  lemma StoreIsReplicatedIffNew(s: State, a: int, n: int, send: nat -> int, k: nat, p: Pair)
    requires a in s.workers && n in s.workers && a != n && Channel(s, a, n) == [] && Attends(s, a, n)
    requires var w := s.workers[a];
      w.receiver.Ready? && Unlocked(w, p.key) && p.key != [] && ValidPeers(w.peers) && IsTold(w.peers, send, n, k)
    requires IsListening(s.workers[n])
    ensures Run(s, StoreSteps(s, a, n, send, p)).Some?
    ensures var t, s' := s.workers[n].table, Run(s, StoreSteps(s, a, n, send, p)).value;
      && a in s'.workers && n in s'.workers
      && Lookup(s'.workers[a].table, p.key) == Some(p.value)
      && (Lookup(s'.workers[a].table, p.key) == Lookup(s'.workers[n].table, p.key) <==>
            !Has(t, p.key) || Lookup(t, p.key) == Some(p.value))
  {
    StoreIsTakenIn(s, a, n, send, k, p);
    LookupAfterSet(s.workers[a].table, p.key, p.value, p.key);
    LookupAfterSet(s.workers[n].table, p.key, p.value, p.key);
  }
}
