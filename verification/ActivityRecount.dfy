/** How often a stored event is counted over any run, within the retention time or past it: the exact
    condition under which the clean-up of the ledger lets an event be counted again. */
module ActivityRecount {
  import opened Common
  import opened ActivityProjection
  import opened ActivityAggregation

  // ---------- one job ----------

  lemma {:induction false} ProjectRowsCount(c: Counters, table: map<Sequence, Event>, lastSequence: Sequence,
                                            everIds: set<EventId>,
                                            cutoff: nat, rows: seq<Sequence>, q: Sequence)
    requires TableOk(table, lastSequence, everIds) && CountersOk(c, table, lastSequence, everIds, cutoff)
    requires q in table && Qualifies(table[q]) && forall p | p in rows :: p in table
    ensures var id, d := table[q].id, ProjectRows(c, table, rows);
            && CountOf(d.log, id) == CountOf(c.log, id) + (if q in rows && id !in c.ledger then 1 else 0)
            && (id in d.ledger <==> id in c.ledger || q in rows)
    decreases |rows|
  {
    if rows != [] {
      var n := |rows| - 1;
      var before, e := ProjectRows(c, table, rows[..n]), table[rows[n]];
      ProjectRowsCount(c, table, lastSequence, everIds, cutoff, rows[..n], q);
      ProjectRowsKeepsCounters(c, table, lastSequence, everIds, cutoff, rows[..n]);
      LedgeredById(before, table, lastSequence, everIds, rows[n]);
      CountOfExtends(before.log, e, table[q].id);
      assert q in rows <==> q in rows[..n] || q == rows[n] by { assert rows == rows[..n] + [rows[n]]; }
    }
  }

  lemma DropBucketsCount(c: Counters, table: map<Sequence, Event>, everIds: set<EventId>, buckets: set<nat>,
                         q: Sequence)
    requires LogOk(c, table, everIds) && q in table
    ensures CountOf(KeptLog(c.log, buckets), table[q].id)
         == if Bucket(table[q].occurredAt) in buckets then 0 else CountOf(c.log, table[q].id)
  {
    if Bucket(table[q].occurredAt) in buckets {
      forall e | e in KeptLog(c.log, buckets) ensures e.id != table[q].id { KeptIn(c.log, buckets, e); }
      NoneCounted(KeptLog(c.log, buckets), table[q].id);
    } else {
      KeptCount(c.log, buckets, table[q].id);
    }
  }

  predicate InBatch(s: State, q: Sequence) { q in Batch(s.table, s.cursor, BATCH_LIMIT) }

  lemma InBatchIff(s: State, q: Sequence)
    requires q in s.table
    ensures InBatch(s, q) <==> s.cursor < q <= LastOr(Batch(s.table, s.cursor, BATCH_LIMIT), s.cursor)
  {
    BatchIsOrdered(s.table, s.cursor, BATCH_LIMIT);
  }

  /** What one job does to the count of any stored qualifying event, recent or not: it counts the event
      exactly when its batch holds it and the ledger does not, and forgets the count with its bucket. */
  lemma JobCounts(s: State, now: nat, cleared: Cleared, q: Sequence)
    requires Inv(s) && now >= s.clock && ClearsOldest(s, now, cleared) && q in s.table && Qualifies(s.table[q])
    ensures var e, c, d := s.table[q], s.counters, Job(s, now, cleared).counters;
            && CountOf(d.log, e.id) == (if Bucket(e.occurredAt) in cleared.buckets then 0
                                        else CountOf(c.log, e.id) + if InBatch(s, q) && e.id !in c.ledger then 1 else 0)
            && (e.id in d.ledger <==> (e.id in c.ledger || InBatch(s, q)) && e.id !in cleared.ids)
            && (e.id in cleared.ids ==> e.id in c.ledger || InBatch(s, q))
  {
    var rows, cutoff := Batch(s.table, s.cursor, BATCH_LIMIT), Cutoff(s.clock);
    BatchIsOrdered(s.table, s.cursor, BATCH_LIMIT);
    ProjectRowsCount(s.counters, s.table, s.lastSequence, s.everIds, cutoff, rows, q);
    ProjectRowsKeepsCounters(s.counters, s.table, s.lastSequence, s.everIds, cutoff, rows);
    DropBucketsCount(Projected(s), s.table, s.everIds, cleared.buckets, q);
  }

  // ---------- every run ----------

  // The job clears the event's ledger entry while its cursor stays before the event.
  predicate Forgets(s: State, step: Step, q: Sequence) {
    && step.RunJob? && Enabled(s, step) && !LeaseActive(s, step.now)
    && q in s.table && s.table[q].id in step.cleared.ids && LastOr(Batch(s.table, s.cursor, BATCH_LIMIT), s.cursor) < q
  }

  // The job clears the event's bucket.
  predicate Discards(s: State, step: Step, q: Sequence) {
    && step.RunJob? && Enabled(s, step) && !LeaseActive(s, step.now)
    && q in s.table && Bucket(s.table[q].occurredAt) in step.cleared.buckets
  }

  // Some job of the run forgets the event.
  predicate Forgotten(s: State, steps: seq<Step>, q: Sequence)
    decreases |steps|
  {
    steps != [] && var init := steps[..|steps| - 1];
    Forgotten(s, init, q) || Forgets(Run(s, init), steps[|steps| - 1], q)
  }

  // Some job of the run discards its bucket.
  predicate Discarded(s: State, steps: seq<Step>, q: Sequence)
    decreases |steps|
  {
    steps != [] && var init := steps[..|steps| - 1];
    Discarded(s, init, q) || Discards(Run(s, init), steps[|steps| - 1], q)
  }

  // How often an event is counted as long as its bucket stays. `early` events were stored before the
  // run and not projected when they were stored.
  function Times(passed: bool, early: bool, forgotten: bool): nat {
    if !passed then (if early then 0 else 1) else if forgotten then 2 else 1
  }

  predicate Tracks(s: State, q: Sequence, early: bool, forgotten: bool, discarded: bool) {
    && (early || forgotten || discarded ==> q <= s.lastSequence)
    && (q in s.table && Qualifies(s.table[q]) ==>
          var id, passed := s.table[q].id, q <= s.cursor;
          if discarded then CountOf(s.counters.log, id) <= if passed then 1 else 0
          else && CountOf(s.counters.log, id) == Times(passed, early, forgotten)
               && (early ==> !forgotten)
               && (!passed ==> (id in s.counters.ledger <==> !early && !forgotten)))
  }

  lemma JobTracks(s: State, step: Step, q: Sequence, early: bool, forgotten: bool, discarded: bool)
    requires Inv(s) && Tracks(s, q, early, forgotten, discarded) && step.RunJob? && Enabled(s, step)
    ensures Tracks(Apply(s, step), q, early, forgotten || Forgets(s, step, q), discarded || Discards(s, step, q))
  {
    if q in s.table {
      assert TableOk(s.table, s.lastSequence, s.everIds);
      BatchIsOrdered(s.table, s.cursor, BATCH_LIMIT);
      InBatchIff(s, q);
      if Qualifies(s.table[q]) { JobCounts(s, step.now, step.cleared, q); }
    }
  }

  lemma AppendTracks(s: State, e: Event, q: Sequence, early: bool, forgotten: bool, discarded: bool)
    requires Inv(s) && Tracks(s, q, early, forgotten, discarded) && e.sequence > s.lastSequence && e.id !in s.everIds
    ensures Tracks(AppendEvent(s, e), q, early, forgotten, discarded)
  {
    var t := AppendEvent(s, e);
    if q in t.table && Qualifies(t.table[q]) {
      AppendKeepsInv(s, e);
      AppendedToTable(s, e);
      LedgeredById(s.counters, t.table, e.sequence, t.everIds, e.sequence);
      CountOfExtends(s.counters.log, e, t.table[q].id);
      if q == e.sequence {
        NoneCounted(s.counters.log, e.id);
      } else {
        assert t.table[q].id in s.everIds;
      }
    }
  }

  lemma StepTracks(s: State, step: Step, q: Sequence, early: bool, forgotten: bool, discarded: bool)
    requires Inv(s) && Tracks(s, q, early, forgotten, discarded)
    ensures Tracks(Apply(s, step), q, early, forgotten || Forgets(s, step, q), discarded || Discards(s, step, q))
  {
    if Enabled(s, step) {
      match step
      case Append(e) => AppendTracks(s, e, q, early, forgotten, discarded);
      case Retire(_) =>
      case RunJob(_, _) => JobTracks(s, step, q, early, forgotten, discarded);
    }
  }

  lemma {:induction false} RunTracks(s: State, steps: seq<Step>, q: Sequence)
    requires Inv(s) && Tracks(s, q, q in s.table, false, false)
    ensures Tracks(Run(s, steps), q, q in s.table, Forgotten(s, steps, q), Discarded(s, steps, q))
    decreases |steps|
  {
    if steps != [] {
      var init := steps[..|steps| - 1];
      RunTracks(s, init, q);
      EveryRunKeepsInv(s, init);
      StepTracks(Run(s, init), steps[|steps| - 1], q, q in s.table, Forgotten(s, init, q), Discarded(s, init, q));
    }
  }

  function StartOf(table: map<Sequence, Event>, lastSequence: Sequence, everIds: set<EventId>): State {
    State(table, EMPTY, 0, None, 0, lastSequence, everIds)
  }

  /** From any table of stored events, over any run: a stored qualifying event of any age is never
      counted more than twice, and it is counted twice exactly when its ledger entry was cleared before
      the cursor reached it, the cursor has reached it since, and its bucket was never cleared. With its
      bucket kept and no such clearing it is counted exactly once when the cursor has passed it. */
  lemma CountedTwiceIff(table: map<Sequence, Event>, lastSequence: Sequence, everIds: set<EventId>, steps: seq<Step>,
                        q: Sequence)
    requires TableOk(table, lastSequence, everIds)
    ensures var start := StartOf(table, lastSequence, everIds);
            var s := Run(start, steps);
            q in s.table && Qualifies(s.table[q]) ==>
              var n, forgotten, discarded := CountOf(s.counters.log, s.table[q].id), Forgotten(start, steps, q),
                Discarded(start, steps, q);
              && n <= 2 && (n == 2 <==> q <= s.cursor && forgotten && !discarded)
              && (q <= s.cursor && !discarded ==> n == if forgotten then 2 else 1)
  {
    var start := StartOf(table, lastSequence, everIds);
    assert Inv(start) by {
      assert CaughtUp(EMPTY, table, 0, Cutoff(0));
    }
    RunTracks(start, steps, q);
  }

  /** Only an event past the retention time is ever forgotten, by a job that fills its batch before it. */
  lemma OnlyOldIsForgotten(s: State, step: Step, q: Sequence)
    requires Inv(s) && Forgets(s, step, q)
    ensures s.table[q].occurredAt < Cutoff(step.now) && |Batch(s.table, s.cursor, BATCH_LIMIT)| == BATCH_LIMIT
  {
    var t, id := s.(counters := Projected(s)), s.table[q].id;
    assert ExpiredEntry(t, step.now, id) by { assert id in ExpiredEntries(t, step.now); }
    BatchIsOrdered(s.table, s.cursor, BATCH_LIMIT);
    ProjectRowsKeepsCounters(s.counters, s.table, s.lastSequence, s.everIds, Cutoff(s.clock),
                             Batch(s.table, s.cursor, BATCH_LIMIT));
    assert t.counters.ledger[id] == q;
    ShortBatchIsLast(s.table, s.cursor, BATCH_LIMIT);
  }

  lemma {:induction false} ShortBatchIsLast(table: map<Sequence, Event>, cursor: Sequence, limit: nat)
    ensures var rows := Batch(table, cursor, limit);
            |rows| <= limit && (|rows| < limit ==> forall q | q in table :: q <= LastOr(rows, cursor))
    decreases limit
  {
    if limit > 0 {
      if After(table, cursor) == {} {
        forall q | q in table ensures q <= cursor { assert q !in After(table, cursor); }
      } else {
        var next := Least(After(table, cursor));
        ShortBatchIsLast(table, next, limit - 1);
        assert Batch(table, cursor, limit) == [next] + Batch(table, next, limit - 1);
        assert LastOr(Batch(table, cursor, limit), cursor) == LastOr(Batch(table, next, limit - 1), next);
      }
    }
  }
}
