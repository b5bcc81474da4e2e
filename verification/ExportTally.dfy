/**
 * The total that an export announces, against the entries it sends.  The table
 * is counted for the start message and scanned bucket by bucket later, while
 * stores and merges go on, so the two numbers need not agree.
 */
module ExportTally {
  import opened Config
  import opened HashSpec
  import opened Replication

  /** What is announced or counted, what is sent or still to be sent, and the keys that came late. */
  predicate Tallied(w: Worker) {
    var t, tally := w.table, w.tally;
    match w.exporter
    case Announcing(_, bucket, total) =>
      bucket <= BUCKET_COUNT && tally.exported == 0 && |Flat(t, bucket)| == total + tally.late
    case Scanning(_, bucket, None) =>
      bucket <= BUCKET_COUNT
      && tally.exported + |Pairs(t)| == tally.announced + tally.late + |Flat(t, bucket)|
    case Scanning(_, bucket, Some(rest)) =>
      bucket < BUCKET_COUNT
      && tally.exported + |rest| + |Pairs(t)| == tally.announced + tally.late + |Flat(t, bucket + 1)|
    case _ => true
  }

  lemma {:induction false} SetGrowsFlat(t: Table, p: Pair, n: nat)
    requires n <= BUCKET_COUNT
    ensures |Flat(Set(t, p.key, p.value), n)| ==
              |Flat(t, n)| + if !Has(t, p.key) && Bucket(p.key) < n then 1 else 0
  {
    if n > 0 {
      SetGrowsFlat(t, p, n - 1);
    }
  }

  lemma HoldingKeepsTally(w: Worker, p: Pair)
    requires Tallied(w) && Unlocked(w, p.key)
    ensures Tallied(Holding(w, p))
  {
    SetGrowsFlat(w.table, p, BUCKET_COUNT);
    match w.exporter
    case Announcing(_, bucket, _) => SetGrowsFlat(w.table, p, bucket);
    case Scanning(_, bucket, None) => SetGrowsFlat(w.table, p, bucket);
    case Scanning(_, bucket, Some(_)) => SetGrowsFlat(w.table, p, bucket + 1);
    case _ =>
  }

  lemma FlatAt(t: Table, n: nat)
    requires n < BUCKET_COUNT
    ensures |Flat(t, n + 1)| == |Flat(t, n)| + |t[n]|
  {
  }

  lemma ExportKeepsTally(w: Worker, a: Action)
    requires IsExportAction(a) && ExportStep(w, a).Some? && Tallied(w)
    ensures Tallied(ExportStep(w, a).value.worker)
  {
    if (w.exporter.Announcing? || w.exporter.Scanning?) && w.exporter.bucket < BUCKET_COUNT {
      FlatAt(w.table, w.exporter.bucket);
    }
  }

  lemma StoreKeepsTally(w: Worker, p: Pair)
    requires ReceiverStep(w, Store(p)).Some? && Tallied(w)
    ensures Tallied(ReceiverStep(w, Store(p)).value.worker)
  {
    HoldingKeepsTally(w, p);
  }

  lemma InsertKeepsTally(w: Worker)
    requires InsertStep(w).Some? && Tallied(w)
    ensures Tallied(InsertStep(w).value.worker)
  {
    HoldingKeepsTally(w, w.listener.pair);
  }

  lemma ActKeepsTally(w: Worker, a: Action)
    requires Act(w, a).Some? && Tallied(w)
    ensures Tallied(Act(w, a).value.worker)
  {
    hide Flat;
    if IsExportAction(a) {
      ExportKeepsTally(w, a);
    } else if a.Store? {
      StoreKeepsTally(w, a.pair);
    } else if a.Insert? {
      InsertKeepsTally(w);
    }
  }

  ghost predicate AllTallied(s: State) {
    forall id <- s.workers :: Tallied(s.workers[id])
  }

  lemma OutcomeKeepsTallies(s: State, id: int, o: Outcome)
    requires AllTallied(s) && Tallied(o.worker)
    ensures AllTallied(Apply(s, id, o))
  {
    hide Tallied;
  }

  lemma AcceptKeepsTally(w: Worker, m: Message)
    requires Accept(w, m).Some? && Tallied(w)
    ensures Tallied(Accept(w, m).value)
  {
  }

  lemma StepKeepsTallies(s: State, step: Step)
    requires Next(s, step).Some? && AllTallied(s)
    ensures AllTallied(Next(s, step).value)
  {
    hide Act, Apply, Accept, Tallied;
    match step
    case Local(id, action) =>
      var s' := if action.Store? then s.(puts := s.puts + {action.pair}) else s;
      ActKeepsTally(s.workers[id], action);
      OutcomeKeepsTallies(s', id, Act(s.workers[id], action).value);
    case Receive(id, from) => AcceptKeepsTally(s.workers[id], Channel(s, from, id)[0]);
    case _ =>
  }

  lemma {:induction false} RunKeepsTallies(s: State, steps: seq<Step>)
    requires Run(s, steps).Some? && AllTallied(s)
    ensures AllTallied(Run(s, steps).value)
    decreases |steps|
  {
    if steps != [] {
      StepKeepsTallies(s, steps[0]);
      RunKeepsTallies(Next(s, steps[0]).value, steps[1..]);
    }
  }

  /**
   * In every run, an export whose sends have all succeeded up to its end message
   * has sent as many entries as it announced, and one more for every key that was
   * new in a bucket between the count for the start message and the scan: never
   * fewer, and exactly as many if and only if there was no such key.
   */
  lemma SentIsAnnouncedPlusLate(ports: map<int, int>, steps: seq<Step>, a: int)
    requires Run(Initial(ports), steps).Some? && a in Run(Initial(ports), steps).value.workers
    ensures var w := Run(Initial(ports), steps).value.workers[a];
      w.exporter.Scanning? && w.exporter.bucket == BUCKET_COUNT ==>
        && w.tally.exported == w.tally.announced + w.tally.late
        && (w.tally.exported == w.tally.announced <==> w.tally.late == 0)
  {
    RunKeepsTallies(Initial(ports), steps);
  }
}
