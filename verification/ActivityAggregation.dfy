/** The hourly job: it projects events in batches behind a cursor and clears what has expired. Appending
    an event projects it at once; the job catches up with events stored before. */
module ActivityAggregation {
  import opened Common
  import opened ActivityProjection

  const DAY_MS: nat := 86400000
  const RETENTION_MS: nat := 400 * DAY_MS
  const BATCH_LIMIT: nat := 1000
  const LEASE_MS: nat := 30000

  // `table` holds the stored events; sequences and ids are never given twice. `clock` is the time of
  // the last run.
  datatype State = State(
    table: map<Sequence, Event>, counters: Counters, cursor: Sequence, lease: Option<nat>,
    clock: nat, lastSequence: Sequence, everIds: set<EventId>)

  // What a run clears: expired buckets and ledger entries, the oldest first.
  datatype Cleared = Cleared(buckets: set<nat>, ids: set<EventId>)

  datatype Step =
    | Append(event: Event)
    | Retire(sequences: set<Sequence>)
    | RunJob(now: nat, cleared: Cleared)

  function Cutoff(now: nat): nat { if now >= RETENTION_MS then now - RETENTION_MS else 0 }

  function StoredBuckets(c: Counters): set<nat> { set k | k in c.hourly :: k.bucket }

  function ExpiredBuckets(c: Counters, now: nat): set<nat> { set b | b in StoredBuckets(c) && b < Bucket(Cutoff(now)) }

  predicate ExpiredEntry(s: State, now: nat, id: EventId)
    requires id in s.counters.ledger
  {
    var q := s.counters.ledger[id];
    q !in s.table || s.table[q].occurredAt < Cutoff(now)
  }

  function ExpiredEntries(s: State, now: nat): set<EventId> {
    set id | id in s.counters.ledger && ExpiredEntry(s, now, id)
  }

  // At most a batch is taken, all if it fits, and never a later one before an earlier one.
  predicate OldestBuckets(expired: set<nat>, taken: set<nat>) {
    && taken <= expired && |taken| <= BATCH_LIMIT && (taken == expired || |taken| == BATCH_LIMIT)
    && forall b, c | b in taken && c in expired - taken :: b < c
  }

  predicate OldestEntries(ledger: map<EventId, Sequence>, expired: set<EventId>, taken: set<EventId>)
    requires expired <= ledger.Keys
  {
    && taken <= expired && |taken| <= BATCH_LIMIT && (taken == expired || |taken| == BATCH_LIMIT)
    && forall a, b | a in taken && b in expired - taken :: ledger[a] <= ledger[b]
  }

  // ---------- one batch ----------

  function After(table: map<Sequence, Event>, cursor: Sequence): set<Sequence> { set q | q in table && q > cursor }

  predicate IsLeast(s: set<nat>, m: nat) { m in s && forall x | x in s :: m <= x }

  function Least(s: set<nat>): (m: nat)
    requires s != {}
    ensures IsLeast(s, m)
  {
    LeastExists(s);
    var m :| IsLeast(s, m);
    m
  }

  lemma {:induction false} LeastExists(s: set<nat>)
    requires s != {}
    ensures exists m :: IsLeast(s, m)
    decreases |s|
  {
    var x :| x in s;
    var rest := s - {x};
    assert s == rest + {x};
    if rest == {} {
      assert IsLeast(s, x);
    } else {
      LeastExists(rest);
      var m :| IsLeast(rest, m);
      assert IsLeast(s, if m <= x then m else x);
    }
  }

  // The first events past the cursor, in order of sequence.
  function Batch(table: map<Sequence, Event>, cursor: Sequence, limit: nat): seq<Sequence>
    decreases limit
  {
    if limit == 0 || After(table, cursor) == {} then []
    else
      var next := Least(After(table, cursor));
      [next] + Batch(table, next, limit - 1)
  }

  function ProjectRows(c: Counters, table: map<Sequence, Event>, rows: seq<Sequence>): Counters
    requires forall q | q in rows :: q in table
    decreases |rows|
  {
    if rows == [] then c
    else var n := |rows| - 1; Project(ProjectRows(c, table, rows[..n]), table[rows[n]])
  }

  function LastOr(rows: seq<Sequence>, cursor: Sequence): Sequence { if rows == [] then cursor else rows[|rows| - 1] }

  lemma {:induction false} BatchIsOrdered(table: map<Sequence, Event>, cursor: Sequence, limit: nat)
    ensures var rows := Batch(table, cursor, limit);
            && (forall i | 0 <= i < |rows| :: rows[i] in table && cursor < rows[i] <= LastOr(rows, cursor))
            && (forall q | q in table && cursor < q <= LastOr(rows, cursor) :: q in rows)
            && LastOr(rows, cursor) >= cursor
    decreases limit
  {
    if limit > 0 && After(table, cursor) != {} {
      var next := Least(After(table, cursor));
      BatchIsOrdered(table, next, limit - 1);
      var rows, rest := Batch(table, cursor, limit), Batch(table, next, limit - 1);
      assert rows == [next] + rest;
      assert LastOr(rows, cursor) == LastOr(rest, next);
      forall q | q in table && cursor < q <= LastOr(rows, cursor) ensures q in rows {
        assert q in After(table, cursor);
        if q != next { assert q in rest; }
      }
    }
  }

  // ---------- clearing ----------

  function KeptLog(log: seq<Event>, buckets: set<nat>): seq<Event> {
    if log == [] then []
    else
      var n := |log| - 1;
      if Bucket(log[n].occurredAt) in buckets then KeptLog(log[..n], buckets) else KeptLog(log[..n], buckets) + [log[n]]
  }

  function DropBuckets(c: Counters, buckets: set<nat>): Counters {
    Counters(c.ledger, (map k | k in c.hourly && k.bucket !in buckets :: c.hourly[k]),
             (set x | x in c.subjects && x.0 !in buckets), KeptLog(c.log, buckets))
  }

  function DropEntries(c: Counters, ids: set<EventId>): Counters { c.(ledger := c.ledger - ids) }

  // ---------- steps ----------

  function Projected(s: State): Counters {
    BatchIsOrdered(s.table, s.cursor, BATCH_LIMIT);
    ProjectRows(s.counters, s.table, Batch(s.table, s.cursor, BATCH_LIMIT))
  }

  function Cleaned(s: State, cleared: Cleared): Counters {
    DropEntries(DropBuckets(Projected(s), cleared.buckets), cleared.ids)
  }

  predicate LeaseActive(s: State, now: nat) { s.lease.Some? && s.lease.value > now }

  // One transaction: the lease it takes is released before it ends.
  function Job(s: State, now: nat, cleared: Cleared): State {
    if LeaseActive(s, now) then s.(clock := now)
    else
      s.(counters := Cleaned(s, cleared), cursor := LastOr(Batch(s.table, s.cursor, BATCH_LIMIT), s.cursor),
         lease := None, clock := now)
  }

  function AppendEvent(s: State, e: Event): State {
    s.(table := s.table[e.sequence := e], counters := Project(s.counters, e), lastSequence := e.sequence,
       everIds := s.everIds + {e.id})
  }

  predicate ClearsOldest(s: State, now: nat, cleared: Cleared) {
    var t := s.(counters := Projected(s));
    && OldestBuckets(ExpiredBuckets(t.counters, now), cleared.buckets)
    && OldestEntries(t.counters.ledger, ExpiredEntries(t, now), cleared.ids)
  }

  predicate Enabled(s: State, step: Step) {
    match step
    case Append(e) => e.sequence > s.lastSequence && e.id !in s.everIds
    case Retire(_) => true
    case RunJob(now, cleared) => now >= s.clock && (LeaseActive(s, now) || ClearsOldest(s, now, cleared))
  }

  function Apply(s: State, step: Step): State {
    if !Enabled(s, step) then s else
    match step
    case Append(e) => AppendEvent(s, e)
    case Retire(sequences) => s.(table := s.table - sequences)
    case RunJob(now, cleared) => Job(s, now, cleared)
  }

  function Run(s: State, steps: seq<Step>): State
    decreases |steps|
  {
    if steps == [] then s else Apply(Run(s, steps[..|steps| - 1]), steps[|steps| - 1])
  }

  // ---------- invariant ----------

  function CountOf(log: seq<Event>, id: EventId): nat {
    if log == [] then 0 else var n := |log| - 1; CountOf(log[..n], id) + if log[n].id == id then 1 else 0
  }

  predicate Recent(e: Event, cutoff: nat) { Qualifies(e) && e.occurredAt >= cutoff }

  predicate TableOk(table: map<Sequence, Event>, lastSequence: Sequence, everIds: set<EventId>) {
    && (forall q | q in table :: table[q].sequence == q && 1 <= q <= lastSequence && table[q].id in everIds)
    && (forall p, q | p in table && q in table && table[p].id == table[q].id :: p == q)
  }

  // A stored event is in the ledger under its own sequence, and its sequence under its own id.
  predicate LedgerOk(c: Counters, table: map<Sequence, Event>, lastSequence: Sequence, everIds: set<EventId>) {
    && (forall id | id in c.ledger :: c.ledger[id] <= lastSequence && id in everIds)
    && (forall id, q | id in c.ledger && q in table :: table[q].id == id <==> c.ledger[id] == q)
  }

  // What was counted under a stored event's id is that event.
  predicate LogOk(c: Counters, table: map<Sequence, Event>, everIds: set<EventId>) {
    && (forall e | e in c.log :: e.id in everIds)
    && (forall e, q | e in c.log && q in table && table[q].id == e.id :: e == table[q])
  }

  // Each recent event has been counted once if it is in the ledger, and not at all otherwise.
  predicate CountedByLedger(c: Counters, table: map<Sequence, Event>, cutoff: nat) {
    forall q | q in table
      && Recent(table[q], cutoff) :: CountOf(c.log, table[q].id) == if table[q].id in c.ledger then 1 else 0
  }

  predicate CaughtUp(c: Counters, table: map<Sequence, Event>, cursor: Sequence, cutoff: nat) {
    forall q | q in table && q <= cursor && Recent(table[q], cutoff) :: table[q].id in c.ledger
  }

  ghost predicate CountersOk(c: Counters, table: map<Sequence, Event>, lastSequence: Sequence, everIds: set<EventId>,
                             cutoff: nat)
  {
    && LedgerOk(c, table, lastSequence, everIds) && LogOk(c, table, everIds)
    && CountedByLedger(c, table, cutoff) && Faithful(c)
  }

  ghost predicate Inv(s: State) {
    && TableOk(s.table, s.lastSequence, s.everIds)
    && CountersOk(s.counters, s.table, s.lastSequence, s.everIds, Cutoff(s.clock))
    && CaughtUp(s.counters, s.table, s.cursor, Cutoff(s.clock))
    && s.cursor <= s.lastSequence && s.lease.None?
  }

  lemma {:induction false} CountOfExtends(log: seq<Event>, e: Event, id: EventId)
    ensures CountOf(log + [e], id) == CountOf(log, id) + if e.id == id then 1 else 0
  {
    assert (log + [e])[..|log|] == log;
  }

  lemma {:induction false} NoneCounted(log: seq<Event>, id: EventId)
    requires forall e | e in log :: e.id != id
    ensures CountOf(log, id) == 0
  {
    if log != [] {
      assert log[|log| - 1] in log;
      NoneCounted(log[..|log| - 1], id);
    }
  }

  // ---------- projecting stored events ----------

  lemma LedgeredById(c: Counters, table: map<Sequence, Event>, lastSequence: Sequence, everIds: set<EventId>,
                     q: Sequence)
    requires TableOk(table, lastSequence, everIds) && LedgerOk(c, table, lastSequence, everIds) && q in table
    ensures Ledgered(c, table[q]) <==> table[q].id in c.ledger
  {
  }

  lemma ProjectKeepsCounters(c: Counters, table: map<Sequence, Event>, lastSequence: Sequence, everIds: set<EventId>,
                             cutoff: nat, q: Sequence)
    requires TableOk(table, lastSequence, everIds) && CountersOk(c, table, lastSequence, everIds, cutoff) && q in table
    ensures CountersOk(Project(c, table[q]), table, lastSequence, everIds, cutoff)
    ensures c.ledger.Keys <= Project(c, table[q]).ledger.Keys
    ensures Qualifies(table[q]) ==> table[q].id in Project(c, table[q]).ledger
  {
    var e := table[q];
    ProjectIsFaithful(c, e);
    LedgeredById(c, table, lastSequence, everIds, q);
    forall p | p in table && Counts(c, e)
      ensures CountOf(c.log + [e], table[p].id) == CountOf(c.log, table[p].id) + if p == q then 1 else 0
    {
      CountOfExtends(c.log, e, table[p].id);
    }
  }

  lemma {:induction false} ProjectRowsKeepsCounters(c: Counters, table: map<Sequence, Event>, lastSequence: Sequence,
                                                    everIds: set<EventId>,
                                                    cutoff: nat, rows: seq<Sequence>)
    requires TableOk(table, lastSequence, everIds) && CountersOk(c, table, lastSequence, everIds, cutoff)
    requires forall q | q in rows :: q in table
    ensures CountersOk(ProjectRows(c, table, rows), table, lastSequence, everIds, cutoff)
    ensures c.ledger.Keys <= ProjectRows(c, table, rows).ledger.Keys
    ensures forall q | q in rows && Qualifies(table[q]) :: table[q].id in ProjectRows(c, table, rows).ledger
    decreases |rows|
  {
    if rows != [] {
      var n := |rows| - 1;
      ProjectRowsKeepsCounters(c, table, lastSequence, everIds, cutoff, rows[..n]);
      ProjectKeepsCounters(ProjectRows(c, table, rows[..n]), table, lastSequence, everIds, cutoff, rows[n]);
      assert forall q :: q in rows <==> q in rows[..n] || q == rows[n] by { assert rows == rows[..n] + [rows[n]]; }
    }
  }

  // ---------- clearing ----------

  lemma {:induction false} KeptIn(log: seq<Event>, buckets: set<nat>, e: Event)
    ensures e in KeptLog(log, buckets) <==> e in log && Bucket(e.occurredAt) !in buckets
  {
    if log != [] {
      var n := |log| - 1;
      KeptIn(log[..n], buckets, e);
      assert e in log <==> e in log[..n] || e == log[n] by { assert log == log[..n] + [log[n]]; }
    }
  }

  lemma {:induction false} KeptFold(log: seq<Event>, buckets: set<nat>, k: Key)
    ensures Fold(KeptLog(log, buckets), k) == if k.bucket in buckets then None else Fold(log, k)
  {
    if log != [] {
      var n := |log| - 1;
      KeptFold(log[..n], buckets, k);
      if Bucket(log[n].occurredAt) !in buckets {
        assert (KeptLog(log[..n], buckets) + [log[n]])[..|KeptLog(log[..n], buckets)|] == KeptLog(log[..n], buckets);
      }
    }
  }

  lemma {:induction false} KeptCount(log: seq<Event>, buckets: set<nat>, id: EventId)
    requires forall e | e in log && e.id == id :: Bucket(e.occurredAt) !in buckets
    ensures CountOf(KeptLog(log, buckets), id) == CountOf(log, id)
  {
    if log != [] {
      var n := |log| - 1;
      assert log[n] in log;
      KeptCount(log[..n], buckets, id);
      CountOfExtends(KeptLog(log[..n], buckets), log[n], id);
    }
  }

  lemma KeptSubjects(log: seq<Event>, buckets: set<nat>, x: (nat, ServiceId, SubjectId))
    ensures InSubjects(KeptLog(log, buckets), x) <==> InSubjects(log, x) && x.0 !in buckets
  {
    var kept := KeptLog(log, buckets);
    if InSubjects(kept, x) {
      var i :| 0 <= i < |kept| && Qualifies(kept[i]) && x in SubjectRows(kept[i]);
      KeptIn(log, buckets, kept[i]);
      assert kept[i] in log;
    }
    if InSubjects(log, x) && x.0 !in buckets {
      var i :| 0 <= i < |log| && Qualifies(log[i]) && x in SubjectRows(log[i]);
      KeptIn(log, buckets, log[i]);
      assert log[i] in kept;
    }
  }

  lemma DropBucketsIsFaithful(c: Counters, buckets: set<nat>)
    requires Faithful(c)
    ensures Faithful(DropBuckets(c, buckets))
  {
    var d := DropBuckets(c, buckets);
    forall k ensures Lookup(d.hourly, k) == Fold(d.log, k) {
      assert Lookup(c.hourly, k) == Fold(c.log, k);
      KeptFold(c.log, buckets, k);
    }
    forall x ensures x in d.subjects <==> InSubjects(d.log, x) { KeptSubjects(c.log, buckets, x); }
  }

  lemma BucketGrows(a: nat, b: nat)
    requires a <= b
    ensures Bucket(a) <= Bucket(b)
  {
    assert a / HOUR_MS <= b / HOUR_MS;
  }

  lemma DropBucketsKeepsCounters(c: Counters, table: map<Sequence, Event>, lastSequence: Sequence,
                                 everIds: set<EventId>,
                                 cutoff: nat, buckets: set<nat>)
    requires CountersOk(c, table, lastSequence, everIds, cutoff) && forall b | b in buckets :: b < Bucket(cutoff)
    ensures CountersOk(DropBuckets(c, buckets), table, lastSequence, everIds, cutoff)
  {
    var d := DropBuckets(c, buckets);
    DropBucketsIsFaithful(c, buckets);
    forall e | e in d.log ensures e in c.log { KeptIn(c.log, buckets, e); }
    forall q | q in table && Recent(table[q], cutoff)
      ensures CountOf(d.log, table[q].id) == CountOf(c.log, table[q].id)
    {
      BucketGrows(cutoff, table[q].occurredAt);
      KeptCount(c.log, buckets, table[q].id);
    }
  }

  // ---------- every run ----------

  lemma CutoffGrows(a: nat, b: nat)
    requires a <= b
    ensures Cutoff(a) <= Cutoff(b)
  {
  }

  lemma CleanedKeepsCounters(s: State, now: nat, cleared: Cleared)
    requires Inv(s) && now >= s.clock && ClearsOldest(s, now, cleared)
    ensures CountersOk(Cleaned(s, cleared), s.table, s.lastSequence, s.everIds, Cutoff(now))
    ensures CaughtUp(Cleaned(s, cleared), s.table, LastOr(Batch(s.table, s.cursor, BATCH_LIMIT), s.cursor), Cutoff(now))
  {
    var rows, cutoff := Batch(s.table, s.cursor, BATCH_LIMIT), Cutoff(now);
    CutoffGrows(s.clock, now);
    BatchIsOrdered(s.table, s.cursor, BATCH_LIMIT);
    ProjectRowsKeepsCounters(s.counters, s.table, s.lastSequence, s.everIds, cutoff, rows);
    var projected := Projected(s);
    assert CaughtUp(projected, s.table, LastOr(rows, s.cursor), cutoff);
    DropBucketsKeepsCounters(projected, s.table, s.lastSequence, s.everIds, cutoff, cleared.buckets);
    RecentIsNotCleared(s.(counters := projected), now, cleared.ids);
    DropEntriesKeepsCounters(DropBuckets(projected, cleared.buckets), s.table, s.lastSequence, s.everIds, cutoff,
                             cleared.ids);
  }

  lemma RecentIsNotCleared(t: State, now: nat, ids: set<EventId>)
    requires LedgerOk(t.counters, t.table, t.lastSequence, t.everIds) && ids <= ExpiredEntries(t, now)
    ensures forall q | q in t.table && Recent(t.table[q], Cutoff(now)) :: t.table[q].id !in ids
  {
    forall q | q in t.table && Recent(t.table[q], Cutoff(now)) ensures t.table[q].id !in ids {
      if t.table[q].id in t.counters.ledger { assert !ExpiredEntry(t, now, t.table[q].id); }
    }
  }

  lemma DropEntriesKeepsCounters(c: Counters, table: map<Sequence, Event>, lastSequence: Sequence,
                                 everIds: set<EventId>,
                                 cutoff: nat, ids: set<EventId>)
    requires CountersOk(c, table, lastSequence, everIds, cutoff)
    requires forall q | q in table && Recent(table[q], cutoff) :: table[q].id !in ids
    ensures CountersOk(DropEntries(c, ids), table, lastSequence, everIds, cutoff)
  {
  }

  lemma JobKeepsInv(s: State, now: nat, cleared: Cleared)
    requires Inv(s) && now >= s.clock && ClearsOldest(s, now, cleared)
    ensures Inv(Job(s, now, cleared))
  {
    CleanedKeepsCounters(s, now, cleared);
    var rows := Batch(s.table, s.cursor, BATCH_LIMIT);
    BatchIsOrdered(s.table, s.cursor, BATCH_LIMIT);
    if rows != [] { assert rows[|rows| - 1] in s.table; }
  }

  lemma AppendKeepsInv(s: State, e: Event)
    requires Inv(s) && e.sequence > s.lastSequence && e.id !in s.everIds
    ensures Inv(AppendEvent(s, e)) && (Qualifies(e) ==> e.id in AppendEvent(s, e).counters.ledger)
  {
    var t := AppendEvent(s, e);
    AppendedToTable(s, e);
    ProjectKeepsCounters(s.counters, t.table, e.sequence, t.everIds, Cutoff(s.clock), e.sequence);
  }

  // Storing a new event leaves what was counted as it is.
  lemma AppendedToTable(s: State, e: Event)
    requires Inv(s) && e.sequence > s.lastSequence && e.id !in s.everIds
    ensures var t := AppendEvent(s, e);
            TableOk(t.table, e.sequence, t.everIds)
              && CountersOk(s.counters, t.table, e.sequence, t.everIds, Cutoff(s.clock))
  {
    NoneCounted(s.counters.log, e.id);
  }

  lemma RetireKeepsInv(s: State, sequences: set<Sequence>)
    requires Inv(s)
    ensures Inv(s.(table := s.table - sequences))
  {
  }

  lemma StepKeepsInv(s: State, step: Step)
    requires Inv(s)
    ensures Inv(Apply(s, step))
  {
    if Enabled(s, step) {
      match step
      case Append(e) => AppendKeepsInv(s, e);
      case Retire(sequences) => RetireKeepsInv(s, sequences);
      case RunJob(now, cleared) => JobKeepsInv(s, now, cleared);
    }
  }

  lemma {:induction false} EveryRunKeepsInv(s: State, steps: seq<Step>)
    requires Inv(s)
    ensures Inv(Run(s, steps))
    decreases |steps|
  {
    if steps != [] {
      EveryRunKeepsInv(s, steps[..|steps| - 1]);
      StepKeepsInv(Run(s, steps[..|steps| - 1]), steps[|steps| - 1]);
    }
  }

  /** From any table of stored events, over any run of appends, retirements and jobs: a stored qualifying
      event within the retention time has been counted exactly once when the cursor has passed it, and
      never more than once; and the hourly rows and subjects are those of the events counted. */
  lemma ExactlyOnce(table: map<Sequence, Event>, lastSequence: Sequence, everIds: set<EventId>, steps: seq<Step>,
                    q: Sequence)
    requires TableOk(table, lastSequence, everIds)
    ensures var s := Run(State(table, EMPTY, 0, None, 0, lastSequence, everIds), steps);
            && Faithful(s.counters)
            && (q in s.table && Recent(s.table[q], Cutoff(s.clock)) ==>
                  CountOf(s.counters.log, s.table[q].id) <= 1
                    && (q <= s.cursor ==> CountOf(s.counters.log, s.table[q].id) == 1))
  {
    var start := State(table, EMPTY, 0, None, 0, lastSequence, everIds);
    assert Inv(start) by {
      assert CaughtUp(EMPTY, table, 0, Cutoff(0));
    }
    EveryRunKeepsInv(start, steps);
  }

  // ---------- events past retention ----------

  lemma {:induction false} ContiguousBatch(table: map<Sequence, Event>, cursor: Sequence, n: nat)
    requires forall q | cursor < q <= cursor + n :: q in table
    ensures LastOr(Batch(table, cursor, n), cursor) == cursor + n
    decreases n
  {
    if n > 0 {
      assert cursor + 1 in After(table, cursor);
      assert Least(After(table, cursor)) == cursor + 1;
      ContiguousBatch(table, cursor + 1, n - 1);
      assert Batch(table, cursor, n) == [cursor + 1] + Batch(table, cursor + 1, n - 1);
    }
  }

  lemma {:induction false} NothingProjected(c: Counters, table: map<Sequence, Event>, rows: seq<Sequence>)
    requires forall q | q in rows :: q in table && !Qualifies(table[q])
    ensures ProjectRows(c, table, rows) == c
    decreases |rows|
  {
    if rows != [] { NothingProjected(c, table, rows[..|rows| - 1]); }
  }

  function Noise(q: Sequence): Event {
    Event(q, q, 0, false, OtherOutcome, None, None, None, None, None, None, None, 0, 0, None)
  }

  // A full batch of stored events that do not qualify.
  function Backlog(): State {
    State(map q: nat | 1 <= q <= BATCH_LIMIT :: Noise(q), EMPTY, 0, None, 0, BATCH_LIMIT,
          set q: nat | 0 < q <= BATCH_LIMIT :: Noise(q).id)
  }

  const CLEARED: Cleared := Cleared({}, {0})

  // The backlog keeps the cursor before the event while its ledger entry expires.
  lemma EntryExpiresFirst(e: Event, now: nat)
    requires Qualifies(e) && e.id == 0 && e.sequence == BATCH_LIMIT + 1
    requires e.occurredAt < Cutoff(now) && Bucket(e.occurredAt) == Bucket(Cutoff(now))
    ensures var s := AppendEvent(Backlog(), e);
            && ClearsOldest(s, now, CLEARED) && Projected(s) == s.counters
            && LastOr(Batch(s.table, s.cursor, BATCH_LIMIT), s.cursor) == BATCH_LIMIT
  {
    var s := AppendEvent(Backlog(), e);
    ContiguousBatch(s.table, 0, BATCH_LIMIT);
    BatchIsOrdered(s.table, 0, BATCH_LIMIT);
    NothingProjected(s.counters, s.table, Batch(s.table, 0, BATCH_LIMIT));
    assert s.counters.ledger == map[0 := e.sequence];
    assert StoredBuckets(s.counters) == {Bucket(e.occurredAt)};
    assert ExpiredEntries(s, now) == {0};
  }

  /** An event older than the retention time can be counted twice: behind a full batch of other rows its
      ledger entry is cleared before the cursor reaches it, while its bucket is still kept. */
  lemma OldEventIsCountedTwice(e: Event, now: nat)
    requires Qualifies(e) && e.id == 0 && e.sequence == BATCH_LIMIT + 1
    requires e.occurredAt < Cutoff(now) && Bucket(e.occurredAt) == Bucket(Cutoff(now))
    ensures var s := Run(Backlog(), [Append(e), RunJob(now, CLEARED), RunJob(now, CLEARED)]);
            && CountOf(s.counters.log, e.id) == 2
            && KeyOf(e) in s.counters.hourly && s.counters.hourly[KeyOf(e)].requests == 2
  {
    var s1 := AppendEvent(Backlog(), e);
    EntryExpiresFirst(e, now);
    FirstJob(e, now);
    SecondJob(e, now, Job(s1, now, CLEARED));
    RunsTheSteps(e, now, s1, Job(s1, now, CLEARED));
  }

  lemma FirstJob(e: Event, now: nat)
    requires Qualifies(e) && e.id == 0 && e.sequence == BATCH_LIMIT + 1
    requires e.occurredAt < Cutoff(now) && Bucket(e.occurredAt) == Bucket(Cutoff(now))
    ensures var s := Job(AppendEvent(Backlog(), e), now, CLEARED);
            && s.counters.ledger == map[] && s.counters.log == [e] && s.counters.hourly == map[KeyOf(e) := RowOf(e)]
            && s.cursor == BATCH_LIMIT && e.sequence in s.table && s.table[e.sequence] == e && s.lease.None?
            && After(s.table, s.cursor) == {e.sequence}
  {
    var s := AppendEvent(Backlog(), e);
    EntryExpiresFirst(e, now);
    var c := s.counters;
    assert c == Counters(map[0 := e.sequence], map[KeyOf(e) := RowOf(e)], SubjectRows(e), [e]);
    assert KeptLog([e], {}) == [e] by { assert KeptLog([], {}) + [e] == [e] && [e][..0] == []; }
    assert DropBuckets(c, {}).hourly == c.hourly;
    assert DropEntries(DropBuckets(c, {}), {0}).ledger == map[];
  }

  lemma SecondJob(e: Event, now: nat, s: State)
    requires Qualifies(e) && e.id == 0 && e.sequence == BATCH_LIMIT + 1
    requires e.occurredAt < Cutoff(now) && Bucket(e.occurredAt) == Bucket(Cutoff(now))
    requires s.counters.ledger == map[] && s.counters.log == [e] && s.counters.hourly == map[KeyOf(e) := RowOf(e)]
    requires s.cursor == BATCH_LIMIT && e.sequence in s.table && s.table[e.sequence] == e && s.lease.None?
    requires After(s.table, s.cursor) == {e.sequence}
    ensures ClearsOldest(s, now, CLEARED)
    ensures var t := Job(s, now, CLEARED);
            CountOf(t.counters.log, e.id) == 2 && KeyOf(e) in t.counters.hourly
              && t.counters.hourly[KeyOf(e)].requests == 2
  {
    assert Least({e.sequence}) == e.sequence;
    assert After(s.table, e.sequence) == {} by {
      assert forall q | q in s.table && q > e.sequence :: q in After(s.table, s.cursor);
    }
    assert Batch(s.table, e.sequence, BATCH_LIMIT - 1) == [];
    assert Batch(s.table, s.cursor, BATCH_LIMIT) == [e.sequence];
    assert ProjectRows(s.counters, s.table, [e.sequence][..0]) == s.counters;
    var c := Project(s.counters, e);
    assert Projected(s) == c;
    assert c.log == [e, e] && c.hourly == map[KeyOf(e) := Combine(Some(RowOf(e)), e)]
      && c.ledger == map[0 := e.sequence];
    var t := s.(counters := c);
    assert StoredBuckets(c) == {Bucket(e.occurredAt)};
    assert ExpiredEntries(t, now) == {0};
    KeptCount(c.log, {}, e.id);
    CountOfExtends([e], e, e.id);
    CountOfExtends([], e, e.id);
    assert [] + [e] == [e] && [e] + [e] == [e, e];
  }

  lemma RunsTheSteps(e: Event, now: nat, s1: State, s2: State)
    requires e.id == 0 && e.sequence == BATCH_LIMIT + 1 && s1 == AppendEvent(Backlog(), e)
             && s2 == Job(s1, now, CLEARED)
    requires ClearsOldest(s1, now, CLEARED) && ClearsOldest(s2, now, CLEARED)
    ensures Run(Backlog(), [Append(e), RunJob(now, CLEARED), RunJob(now, CLEARED)]) == Job(s2, now, CLEARED)
  {
    var steps := [Append(e), RunJob(now, CLEARED), RunJob(now, CLEARED)];
    assert steps[..2] == [Append(e), RunJob(now, CLEARED)];
    assert steps[..2][..1] == [Append(e)];
    assert steps[..2][..1][..0] == [];
    assert Run(Backlog(), [Append(e)]) == s1 by { assert [Append(e)][..0] == []; }
    assert Run(Backlog(), steps[..2]) == s2;
  }
}
