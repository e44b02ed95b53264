/** The tables of the activity projection as the source changes them, statement by statement. */
module ActivityJob {
  import opened Common
  import opened ActivityProjection
  import opened ActivityAggregation

  class ActivityTables {
    var table: map<Sequence, Event>
    var ledger: map<EventId, Sequence>
    var hourly: map<Key, Row>
    var subjects: set<(nat, ServiceId, SubjectId)>
    var cursor: Sequence
    var lease: Option<nat>
    ghost var log: seq<Event>
    ghost var clock: nat
    ghost var lastSequence: Sequence
    ghost var everIds: set<EventId>

    ghost function Content(): Counters
      reads this
    {
      Counters(ledger, hourly, subjects, log)
    }

    ghost function Model(): State
      reads this
    {
      State(table, Content(), cursor, lease, clock, lastSequence, everIds)
    }

    constructor (table: map<Sequence, Event>, ghost lastSequence: Sequence, ghost everIds: set<EventId>)
      ensures Model() == State(table, EMPTY, 0, None, 0, lastSequence, everIds)
    {
      this.table, ledger, hourly, subjects, cursor, lease := table, map[], map[], {}, 0, None;
      log, clock, this.lastSequence, this.everIds := [], 0, lastSequence, everIds;
    }

    // Ledger insert, upsert of the hourly row, insert of the subject; nothing when the ledger refuses.
    method ProjectHourlyActivity(e: Event) returns (projected: bool)
      modifies `ledger, `hourly, `subjects, `log
      ensures Content() == Project(old(Content()), e) && projected == Counts(old(Content()), e)
    {
      if !e.serviceRequest || e.service.None? || e.label_.None? || e.destination.None? || e.method_.None? {
        return false;
      }
      if e.id in ledger || exists id | id in ledger :: ledger[id] == e.sequence { return false; }
      ledger := ledger[e.id := e.sequence];
      var k := KeyOf(e);
      if k in hourly {
        var r := hourly[k];
        r := r.(requests := r.requests + 1);
        r := r.(credentialUses := r.credentialUses + e.credentialUses,
                tokenizations := r.tokenizations + e.tokenizations);
        if e.durationMs.Some? {
          r := r.(durationSum := r.durationSum + e.durationMs.value, durations := r.durations + 1);
        }
        if e.occurredAt < r.first { r := r.(first := e.occurredAt); }
        if e.occurredAt > r.last { r := r.(last := e.occurredAt); }
        hourly := hourly[k := r];
      } else {
        hourly := hourly[k := RowOf(e)];
      }
      if e.subject.Some? { subjects := subjects + {(k.bucket, e.service.value, e.subject.value)}; }
      log := log + [e];
      projected := true;
    }

    method AppendRuntimeAudit(e: Event)
      modifies this
      ensures Model() == AppendEvent(old(Model()), e)
    {
      table := table[e.sequence := e];
      var _ := ProjectHourlyActivity(e);
      lastSequence, everIds := e.sequence, everIds + {e.id};
    }

    method DeleteExpiredBuckets(now: nat) returns (buckets: set<nat>)
      modifies `hourly, `subjects, `log
      ensures OldestBuckets(ExpiredBuckets(old(Content()), now), buckets)
      ensures Content() == DropBuckets(old(Content()), buckets)
    {
      var expired := set k | k in hourly && k.bucket < Bucket(Cutoff(now)) :: k.bucket;
      assert expired == ExpiredBuckets(Content(), now);
      buckets := TakeOldest(expired);
      subjects := set x | x in subjects && x.0 !in buckets;
      hourly := map k | k in hourly && k.bucket !in buckets :: hourly[k];
      log := KeptLog(log, buckets);
    }

    method DeleteExpiredLedger(now: nat) returns (ids: set<EventId>)
      modifies `ledger
      ensures OldestEntries(old(Content()).ledger, ExpiredEntries(old(Model()), now), ids)
      ensures Content() == DropEntries(old(Content()), ids)
    {
      var expired := set id | id in ledger && (ledger[id] !in table || table[ledger[id]].occurredAt < Cutoff(now));
      assert expired == ExpiredEntries(Model(), now);
      ids := TakeOldestEntries(ledger, expired);
      ledger := ledger - ids;
    }

    // One run of the job.
    method Run(now: nat) returns (ghost cleared: Cleared, partial: bool)
      modifies this
      ensures LeaseActive(old(Model()), now) || ClearsOldest(old(Model()), now, cleared)
      ensures Model() == Job(old(Model()), now, cleared)
    {
      cleared, partial := Cleared({}, {}), false;
      if lease.Some? && lease.value > now {
        clock := now;
        return;
      }
      lease := Some(now + LEASE_MS);
      var rows := ProjectNext();
      ExpiredByTables(old(Model()).(counters := Projected(old(Model()))), Model(), now);
      var full;
      cleared, full := ClearExpired(now);
      partial := |rows| == BATCH_LIMIT || full;
      lease, clock := None, now;
    }

    // The batch behind the cursor.
    method ProjectNext() returns (rows: seq<Sequence>)
      modifies `ledger, `hourly, `subjects, `log, `cursor
      ensures rows == Batch(table, old(cursor), BATCH_LIMIT) && cursor == LastOr(rows, old(cursor))
      ensures Content() == Projected(old(Model()))
    {
      rows := ListBatch(table, cursor, BATCH_LIMIT);
      BatchIsOrdered(table, cursor, BATCH_LIMIT);
      ProjectBatch(rows);
      cursor := if rows == [] then cursor else rows[|rows| - 1];
    }

    method ClearExpired(now: nat) returns (ghost cleared: Cleared, full: bool)
      modifies `hourly, `subjects, `log, `ledger
      ensures OldestBuckets(ExpiredBuckets(old(Content()), now), cleared.buckets)
      ensures OldestEntries(old(Content()).ledger, ExpiredEntries(old(Model()), now), cleared.ids)
      ensures Content() == DropEntries(DropBuckets(old(Content()), cleared.buckets), cleared.ids)
    {
      var buckets := DeleteExpiredBuckets(now);
      SameExpired(old(Model()), Model(), buckets, now);
      var ids := DeleteExpiredLedger(now);
      cleared := Cleared(buckets, ids);
      full := |buckets| == BATCH_LIMIT || |ids| == BATCH_LIMIT;
    }

    method ProjectBatch(rows: seq<Sequence>)
      requires forall q | q in rows :: q in table
      modifies `ledger, `hourly, `subjects, `log
      ensures Content() == ProjectRows(old(Content()), table, rows)
    {
      for n := 0 to |rows|
        invariant Content() == ProjectRows(old(Content()), table, rows[..n])
      {
        assert rows[..n + 1][..n] == rows[..n];
        var _ := ProjectHourlyActivity(table[rows[n]]);
      }
      assert rows[..|rows|] == rows;
    }
  }

  // Clearing buckets first leaves the same ledger entries expired.
  lemma SameExpired(s: State, t: State, buckets: set<nat>, now: nat)
    requires t.table == s.table && t.counters == DropBuckets(s.counters, buckets)
    ensures ExpiredEntries(t, now) == ExpiredEntries(s, now)
  {
    forall id | id in s.counters.ledger ensures ExpiredEntry(t, now, id) == ExpiredEntry(s, now, id) { }
  }

  // Whether an entry is expired depends on the table and the ledger only.
  lemma ExpiredByTables(s: State, t: State, now: nat)
    requires t.table == s.table && t.counters == s.counters
    ensures ExpiredEntries(t, now) == ExpiredEntries(s, now)
  {
    forall id | id in s.counters.ledger ensures ExpiredEntry(t, now, id) == ExpiredEntry(s, now, id) { }
  }

  method ListBatch(table: map<Sequence, Event>, cursor: Sequence, limit: nat) returns (rows: seq<Sequence>)
    ensures rows == Batch(table, cursor, limit)
  {
    rows := [];
    var last: nat, left: nat := cursor, limit;
    while left > 0 && (set q | q in table && q > last) != {}
      invariant left <= limit && Batch(table, cursor, limit) == rows + Batch(table, last, left)
      decreases left
    {
      var next := TakeLeast(set q | q in table && q > last);
      assert After(table, last) == set q | q in table && q > last;
      assert Batch(table, last, left) == [next] + Batch(table, next, left - 1);
      rows := rows + [next];
      last, left := next, left - 1;
    }
    assert After(table, last) == set q | q in table && q > last;
    assert Batch(table, last, left) == [];
  }

  method TakeLeast(s: set<nat>) returns (m: nat)
    requires s != {}
    ensures IsLeast(s, m) && m == Least(s)
  {
    m :| m in s;
    var todo := s - {m};
    while todo != {}
      invariant m in s && todo <= s && forall y | y in s && y !in todo :: m <= y
      decreases |todo|
    {
      var x :| x in todo;
      todo := todo - {x};
      if x < m { m := x; }
    }
  }

  method TakeOldest(expired: set<nat>) returns (taken: set<nat>)
    ensures OldestBuckets(expired, taken)
  {
    taken := {};
    while |taken| < BATCH_LIMIT && taken < expired
      invariant taken <= expired && |taken| <= BATCH_LIMIT
      invariant forall b, c | b in taken && c in expired - taken :: b < c
      decreases |expired - taken|
    {
      var b := TakeLeast(expired - taken);
      assert expired - (taken + {b}) == (expired - taken) - {b};
      taken := taken + {b};
    }
  }

  method TakeOldestEntries(ledger: map<EventId, Sequence>, expired: set<EventId>) returns (taken: set<EventId>)
    requires expired <= ledger.Keys
    ensures OldestEntries(ledger, expired, taken)
  {
    taken := {};
    while |taken| < BATCH_LIMIT && taken < expired
      invariant taken <= expired && |taken| <= BATCH_LIMIT
      invariant forall a, b | a in taken && b in expired - taken :: ledger[a] <= ledger[b]
      decreases |expired - taken|
    {
      var id := OldestEntry(ledger, expired - taken);
      assert expired - (taken + {id}) == (expired - taken) - {id};
      taken := taken + {id};
    }
  }

  method OldestEntry(ledger: map<EventId, Sequence>, ids: set<EventId>) returns (oldest: EventId)
    requires ids <= ledger.Keys && ids != {}
    ensures oldest in ids && forall id | id in ids :: ledger[oldest] <= ledger[id]
  {
    oldest :| oldest in ids;
    var todo := ids - {oldest};
    while todo != {}
      invariant oldest in ids && todo <= ids && forall id | id in ids - todo :: ledger[oldest] <= ledger[id]
      decreases |todo|
    {
      var id :| id in todo;
      todo := todo - {id};
      if ledger[id] < ledger[oldest] { oldest := id; }
    }
  }
}
