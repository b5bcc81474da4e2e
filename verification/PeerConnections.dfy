/**
 * One connection at a time: while a peer listener serves the connection of one
 * worker (Worker/PeerListenerThread.c:69-149), what the others send it stays
 * unread, in every run.
 */
module PeerConnections {
  import opened Config
  import opened Replication

  lemma OutcomeOpensNothingClosed(s: State, id: int, o: Outcome)
    ensures s.closed <= Apply(s, id, o).closed && Apply(s, id, o).serving == s.serving
  {
  }

  lemma OutcomeAppends(s: State, id: int, o: Outcome, a: int, n: int)
    ensures Channel(s, a, n) <= Channel(Apply(s, id, o), a, n)
  {
  }

  /** Only the closing of b's connection makes n turn to another; only its own loss takes from a's. */
  lemma StepKeepsWaiting(s: State, step: Step, a: int, b: int, n: int)
    requires Next(s, step).Some? && Serves(s, n, b) && a != b
    ensures var s' := Next(s, step).value;
      && s.closed <= s'.closed
      && ((b, n) !in s'.closed ==> Serves(s', n, b))
      && ((a, n) !in s'.closed ==> Channel(s, a, n) <= Channel(s', a, n))
  {
    hide Act, Apply;
    if step.Local? {
      var action := step.action;
      var s1 := if action.Store? then s.(puts := s.puts + {action.pair}) else s;
      var o := Act(s.workers[step.at], action).value;
      OutcomeOpensNothingClosed(s1, step.at, o);
      OutcomeAppends(s1, step.at, o, a, n);
    }
  }

  /** While n serves b and b's connection is open, whatever is in a's connection to n stays there. */
  lemma {:induction false} OthersWait(s: State, steps: seq<Step>, a: int, b: int, n: int)
    requires Run(s, steps).Some? && Serves(s, n, b) && a != b
    ensures var s' := Run(s, steps).value;
      && s.closed <= s'.closed
      && ((b, n) !in s'.closed ==> Serves(s', n, b))
      && ((b, n) !in s'.closed && (a, n) !in s'.closed ==> Channel(s, a, n) <= Channel(s', a, n))
    decreases |steps|
  {
    if steps != [] {
      var s1 := Next(s, steps[0]).value;
      StepKeepsWaiting(s, steps[0], a, b, n);
      if (b, n) in s1.closed {
        ClosedStays(s1, steps[1..]);
      } else {
        OthersWait(s1, steps[1..], a, b, n);
      }
    }
  }

  lemma StepKeepsClosed(s: State, step: Step)
    requires Next(s, step).Some?
    ensures s.closed <= Next(s, step).value.closed
  {
    hide Act, Apply;
    if step.Local? {
      var action := step.action;
      var s1 := if action.Store? then s.(puts := s.puts + {action.pair}) else s;
      OutcomeOpensNothingClosed(s1, step.at, Act(s.workers[step.at], action).value);
    }
  }

  lemma {:induction false} ClosedStays(s: State, steps: seq<Step>)
    requires Run(s, steps).Some?
    ensures s.closed <= Run(s, steps).value.closed
    decreases |steps|
  {
    if steps != [] {
      StepKeepsClosed(s, steps[0]);
      ClosedStays(Next(s, steps[0]).value, steps[1..]);
    }
  }

  /** A listener between messages leaves a closed connection, and accepts the one that has waited longest. */
  lemma ListenerTurns(s: State, n: int)
    requires n in s.workers && s.workers[n].listener.Listening?
    requires n in s.serving && (s.serving[n], n) in s.closed && Backlog(s, n) != []
    ensures Run(s, [Drop(n), Serve(n)]) ==
              Some(s.(serving := s.serving[n := Backlog(s, n)[0]], backlogs := s.backlogs[n := Backlog(s, n)[1..]]))
  {
    var s1 := Next(s, Drop(n)).value;
    var s2 := Next(s1, Serve(n)).value;
    assert s2.serving == s.serving[n := Backlog(s, n)[0]];
    assert Run(s2, []) == Some(s2);
    assert [Drop(n), Serve(n)][1..] == [Serve(n)] && [Serve(n)][1..] == [];
  }

  lemma ClosesFailed(a: int, failed: seq<int>, x: int, y: int)
    ensures (x, y) in (set n | n in failed :: (a, n)) <==> x == a && y in failed
  {
    if y in failed {
      var i :| 0 <= i < |failed| && failed[i] == y;
      assert failed[i] in failed;
    }
  }

  /** The end of a broadcast closes exactly the connections on which a notice failed. */
  lemma BroadcastClosesFailed(s: State, a: int, c: (int, int))
    requires a in s.workers && Next(s, Local(a, EndBroadcast)).Some?
    ensures s.workers[a].receiver.Broadcasting?
    ensures c in Next(s, Local(a, EndBroadcast)).value.closed <==>
              c in s.closed || (c.0 == a && c.1 in s.workers[a].receiver.failed)
  {
    var failed := s.workers[a].receiver.failed;
    ClosesFailed(a, failed, c.0, c.1);
    assert c == (c.0, c.1);
  }
}
