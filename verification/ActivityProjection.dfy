/** Hourly counters of service requests. `log` is the history of what was counted and is still kept. */
module ActivityProjection {
  import opened Common

  type EventId = nat
  type Sequence = nat
  type ServiceId = nat
  type SubjectId = nat

  const HOUR_MS: nat := 3600000

  datatype Outcome = AllowOutcome | DenyOutcome | OtherOutcome

  datatype Event = Event(
    id: EventId, sequence: Sequence, occurredAt: nat, serviceRequest: bool, outcome: Outcome,
    service: Option<ServiceId>, label_: Option<string>, destination: Option<string>, method_: Option<string>,
    subject: Option<SubjectId>, downstreamStatus: Option<nat>, policyRule: Option<string>,
    credentialUses: nat, tokenizations: nat, durationMs: Option<nat>)

  datatype Category = PolicyRule(name: string) | BoundaryDefault(deny: bool)

  datatype Key = Key(
    bucket: nat, service: ServiceId, destination: string, method_: string, category: Category,
    decision: Outcome, statusClass: Option<nat>)

  datatype Row = Row(
    requests: nat, credentialUses: nat, tokenizations: nat, durationSum: nat, durations: nat, first: nat, last: nat)

  datatype Counters = Counters(
    ledger: map<EventId, Sequence>, hourly: map<Key, Row>, subjects: set<(nat, ServiceId, SubjectId)>, log: seq<Event>)

  function Bucket(time: nat): nat { time / HOUR_MS * HOUR_MS }

  predicate Qualifies(e: Event) {
    e.serviceRequest && e.service.Some? && e.label_.Some? && e.destination.Some? && e.method_.Some?
  }

  function KeyOf(e: Event): Key
    requires Qualifies(e)
  {
    Key(Bucket(e.occurredAt), e.service.value, e.destination.value, e.method_.value,
        if e.policyRule.None? then BoundaryDefault(e.outcome.DenyOutcome?) else PolicyRule(e.policyRule.value),
        e.outcome,
        if e.downstreamStatus.None? then None else Some(e.downstreamStatus.value / 100))
  }

  function RowOf(e: Event): Row {
    Row(1, e.credentialUses, e.tokenizations, if e.durationMs.Some? then e.durationMs.value else 0,
        if e.durationMs.Some? then 1 else 0, e.occurredAt, e.occurredAt)
  }

  // The upsert: counters add up, the interval widens.
  function Combine(row: Option<Row>, e: Event): Row {
    var new_ := RowOf(e);
    if row.None? then new_
    else
      var r := row.value;
      Row(r.requests + 1, r.credentialUses + new_.credentialUses, r.tokenizations + new_.tokenizations,
          r.durationSum + new_.durationSum, r.durations + new_.durations, Min(r.first, new_.first),
            Max(r.last, new_.last))
  }

  function Lookup(hourly: map<Key, Row>, k: Key): Option<Row> { if k in hourly then Some(hourly[k]) else None }

  function SubjectRows(e: Event): set<(nat, ServiceId, SubjectId)>
    requires Qualifies(e)
  {
    if e.subject.Some? then {(Bucket(e.occurredAt), e.service.value, e.subject.value)} else {}
  }

  // The ledger refuses an event or a sequence it already holds.
  predicate Ledgered(c: Counters, e: Event) {
    e.id in c.ledger || exists id | id in c.ledger :: c.ledger[id] == e.sequence
  }

  predicate Counts(c: Counters, e: Event) { Qualifies(e) && !Ledgered(c, e) }

  function Project(c: Counters, e: Event): Counters {
    if !Counts(c, e) then c
    else
      Counters(c.ledger[e.id := e.sequence], c.hourly[KeyOf(e) := Combine(Lookup(c.hourly, KeyOf(e)), e)],
               c.subjects + SubjectRows(e), c.log + [e])
  }

  function ProjectAll(c: Counters, events: seq<Event>): Counters
    decreases |events|
  {
    if events == [] then c else Project(ProjectAll(c, events[..|events| - 1]), events[|events| - 1])
  }

  const EMPTY := Counters(map[], map[], {}, [])

  // ---------- the counters are a fold of what was counted ----------

  predicate HasKey(e: Event, k: Key) { Qualifies(e) && KeyOf(e) == k }

  function Fold(log: seq<Event>, k: Key): Option<Row>
    decreases |log|
  {
    if log == [] then None
    else
      var n := |log| - 1;
      if HasKey(log[n], k) then Some(Combine(Fold(log[..n], k), log[n])) else Fold(log[..n], k)
  }

  predicate InSubjects(log: seq<Event>, x: (nat, ServiceId, SubjectId)) {
    exists i | 0 <= i < |log| :: Qualifies(log[i]) && x in SubjectRows(log[i])
  }

  ghost predicate Faithful(c: Counters) {
    && (forall k :: Lookup(c.hourly, k) == Fold(c.log, k))
    && (forall x :: x in c.subjects <==> InSubjects(c.log, x))
  }

  lemma InSubjectsExtends(log: seq<Event>, e: Event, x: (nat, ServiceId, SubjectId))
    ensures InSubjects(log + [e], x) <==> InSubjects(log, x) || (Qualifies(e) && x in SubjectRows(e))
  {
    var longer := log + [e];
    if InSubjects(log, x) {
      var i :| 0 <= i < |log| && Qualifies(log[i]) && x in SubjectRows(log[i]);
      assert longer[i] == log[i];
    }
    if Qualifies(e) && x in SubjectRows(e) { assert longer[|log|] == e; }
  }

  lemma ProjectIsFaithful(c: Counters, e: Event)
    requires Faithful(c)
    ensures Faithful(Project(c, e))
  {
    if Counts(c, e) {
      assert (c.log + [e])[..|c.log|] == c.log;
      forall x ensures x in Project(c, e).subjects <==> InSubjects(c.log + [e], x) { InSubjectsExtends(c.log, e, x); }
    }
  }

  // ---------- order plays no part ----------

  lemma CombineSwaps(row: Option<Row>, a: Event, b: Event)
    ensures Combine(Some(Combine(row, a)), b) == Combine(Some(Combine(row, b)), a)
  {
  }

  // Taking an event out of the middle and counting it last gives the same row.
  lemma {:induction false} FoldMoves(front: seq<Event>, e: Event, back: seq<Event>, k: Key)
    ensures Fold(front + [e] + back, k) == if HasKey(e, k) then
            Some(Combine(Fold(front + back, k), e)) else Fold(front + back, k)
    decreases |back|
  {
    if back == [] {
      assert front + [e] + back == front + [e];
      assert (front + [e])[..|front|] == front;
      assert front + back == front;
    } else {
      var n := |back| - 1;
      var last := back[n];
      assert (front + [e] + back)[..|front| + 1 + n] == front + [e] + back[..n];
      assert (front + back)[..|front| + n] == front + back[..n];
      FoldMoves(front, e, back[..n], k);
      CombineSwaps(Fold(front + back[..n], k), e, last);
    }
  }

  predicate DistinctIds(log: seq<Event>) { forall i, j | 0 <= i < j < |log| :: log[i].id != log[j].id }

  predicate SameEvents(a: seq<Event>, b: seq<Event>) { (forall e | e in a :: e in b) && (forall e | e in b :: e in a) }

  lemma SameEventsEmpty(a: seq<Event>, b: seq<Event>)
    requires SameEvents(a, b)
    ensures a == [] <==> b == []
  {
    if a != [] { assert a[0] in b; }
    if b != [] { assert b[0] in a; }
  }

  lemma WithoutOne(a: seq<Event>, b: seq<Event>, k: nat)
    requires DistinctIds(a) && DistinctIds(b) && SameEvents(a, b) && a != [] && k < |b| && b[k] == a[|a| - 1]
    ensures SameEvents(a[..|a| - 1], b[..k] + b[k + 1..]) && DistinctIds(b[..k] + b[k + 1..])
  {
    var n, rest := |a| - 1, b[..k] + b[k + 1..];
    forall e | e in a[..n] ensures e in rest {
      assert e in b;
      var j :| 0 <= j < |b| && b[j] == e;
      assert j != k;
      if j < k { assert rest[j] == e; } else { assert rest[j - 1] == e; }
    }
    forall e | e in rest ensures e in a[..n] {
      var j :| 0 <= j < |rest| && rest[j] == e;
      assert e == b[if j < k then j else j + 1];
      assert e in a && e.id != b[k].id;
    }
  }

  lemma {:induction false} FoldForgetsOrder(a: seq<Event>, b: seq<Event>, k: Key)
    requires DistinctIds(a) && DistinctIds(b) && SameEvents(a, b)
    ensures Fold(a, k) == Fold(b, k)
    decreases |a|
  {
    SameEventsEmpty(a, b);
    if a != [] {
      var n := |a| - 1;
      assert a[n] in b;
      var j :| 0 <= j < |b| && b[j] == a[n];
      WithoutOne(a, b, j);
      FoldForgetsOrder(a[..n], b[..j] + b[j + 1..], k);
      FoldMoves(b[..j], b[j], b[j + 1..], k);
      assert b == b[..j] + [b[j]] + b[j + 1..];
    }
  }

  // Events as stored: an id or a sequence belongs to one event.
  predicate Consistent(events: seq<Event>) {
    forall i, j | 0 <= i < |events| && 0 <= j < |events|
      && (events[i].id == events[j].id || events[i].sequence == events[j].sequence) ::
      events[i] == events[j]
  }

  // The ledger holds what was counted, under its sequence.
  predicate LedgerIsLog(c: Counters) {
    && (forall e | e in c.log :: e.id in c.ledger && c.ledger[e.id] == e.sequence)
    && (forall id | id in c.ledger :: exists e :: e in c.log && e.id == id)
  }

  lemma LedgeredIsCounted(c: Counters, events: seq<Event>, e: Event)
    requires Consistent(events) && e in events && Ledgered(c, e) && LedgerIsLog(c)
    requires forall x | x in c.log :: x in events
    ensures e in c.log
  {
    var id :| id in c.ledger && (id == e.id || c.ledger[id] == e.sequence);
    var x :| x in c.log && x.id == id;
    var i :| 0 <= i < |events| && events[i] == e;
    var j :| 0 <= j < |events| && events[j] == x;
    assert events[i] == events[j];
  }

  lemma ProjectKeepsLedger(c: Counters, e: Event)
    requires LedgerIsLog(c) && DistinctIds(c.log)
    ensures LedgerIsLog(Project(c, e)) && DistinctIds(Project(c, e).log)
  {
    if Counts(c, e) {
      var d := Project(c, e);
      forall id | id in d.ledger ensures exists x :: x in d.log && x.id == id {
        if id == e.id {
          assert e in d.log;
        } else {
          var x :| x in c.log && x.id == id;
          assert x in d.log;
        }
      }
      forall i | 0 <= i < |c.log| ensures c.log[i].id != e.id { assert c.log[i] in c.log; }
    }
  }

  /** After any sequence of projections, in any order and with repeats, what has been counted is each
      distinct qualifying event once. */
  lemma {:induction false} CountedOnceEach(events: seq<Event>)
    requires Consistent(events)
    ensures var c := ProjectAll(EMPTY, events);
            Faithful(c) && DistinctIds(c.log) && LedgerIsLog(c) && forall e :: e in c.log <==>
                e in events && Qualifies(e)
    decreases |events|
  {
    if events != [] {
      var n := |events| - 1;
      var before, e := ProjectAll(EMPTY, events[..n]), events[n];
      CountedOnceEach(events[..n]);
      ProjectIsFaithful(before, e);
      ProjectKeepsLedger(before, e);
      assert forall x :: x in events <==> x in events[..n] || x == e by { assert events == events[..n] + [e]; }
      if Ledgered(before, e) { LedgeredIsCounted(before, events, e); }
    }
  }

  /** However the same events are ordered, repeated or split over several projections, the hourly
      counters and the subjects come out the same. */
  lemma ProjectionForgetsOrder(a: seq<Event>, b: seq<Event>)
    requires Consistent(a) && Consistent(b) && SameEvents(a, b)
    ensures ProjectAll(EMPTY, a).hourly == ProjectAll(EMPTY, b).hourly
            && ProjectAll(EMPTY, a).subjects == ProjectAll(EMPTY, b).subjects
  {
    CountedOnceEach(a);
    CountedOnceEach(b);
    var c, d := ProjectAll(EMPTY, a), ProjectAll(EMPTY, b);
    assert SameEvents(c.log, d.log);
    forall k: Key ensures Lookup(c.hourly, k) == Lookup(d.hourly, k) { FoldForgetsOrder(c.log, d.log, k); }
    SameLookups(c.hourly, d.hourly);
    forall x ensures x in c.subjects <==> x in d.subjects { SameSubjects(c.log, d.log, x); }
  }

  lemma SameLookups(a: map<Key, Row>, b: map<Key, Row>)
    requires forall k :: Lookup(a, k) == Lookup(b, k)
    ensures a == b
  {
    forall k ensures (k in a <==> k in b) && (k in a ==> a[k] == b[k]) { assert Lookup(a, k) == Lookup(b, k); }
  }

  lemma SameSubjects(a: seq<Event>, b: seq<Event>, x: (nat, ServiceId, SubjectId))
    requires SameEvents(a, b)
    ensures InSubjects(a, x) <==> InSubjects(b, x)
  {
    if InSubjects(a, x) {
      var i :| 0 <= i < |a| && Qualifies(a[i]) && x in SubjectRows(a[i]);
      assert a[i] in b;
    }
    if InSubjects(b, x) {
      var i :| 0 <= i < |b| && Qualifies(b[i]) && x in SubjectRows(b[i]);
      assert b[i] in a;
    }
  }

  // ---------- what a row means ----------

  function KeyCount(log: seq<Event>, k: Key): nat {
    if log == [] then 0 else var n := |log| - 1; KeyCount(log[..n], k) + if HasKey(log[n], k) then 1 else 0
  }

  /** A row counts the events of its key, and its interval is exactly from the earliest to the latest. */
  lemma {:induction false} RowMeans(log: seq<Event>, k: Key)
    ensures Fold(log, k).Some? <==> KeyCount(log, k) > 0
    ensures forall i | 0 <= i < |log| && HasKey(log[i], k) :: KeyCount(log, k) > 0
    ensures Fold(log, k).Some? ==>
      var r := Fold(log, k).value;
      && r.requests == KeyCount(log, k)
      && (forall i | 0 <= i < |log| && HasKey(log[i], k) :: r.first <= log[i].occurredAt <= r.last)
      && (exists i | 0 <= i < |log| :: HasKey(log[i], k) && log[i].occurredAt == r.first)
      && (exists i | 0 <= i < |log| :: HasKey(log[i], k) && log[i].occurredAt == r.last)
    decreases |log|
  {
    if log != [] {
      var n := |log| - 1;
      RowMeans(log[..n], k);
      if Fold(log[..n], k).Some? {
        var r := Fold(log[..n], k).value;
        var i :| 0 <= i < n && HasKey(log[..n][i], k) && log[..n][i].occurredAt == r.first;
        var j :| 0 <= j < n && HasKey(log[..n][j], k) && log[..n][j].occurredAt == r.last;
        assert log[i] == log[..n][i] && log[j] == log[..n][j];
      }
      assert forall i | 0 <= i < n :: log[..n][i] == log[i];
    }
  }

  function Total(log: seq<Event>, k: Key, of: Event -> nat): nat {
    if log == [] then 0 else var n := |log| - 1; Total(log[..n], k, of) + if HasKey(log[n], k) then of(log[n]) else 0
  }

  function Duration(e: Event): nat { if e.durationMs.Some? then e.durationMs.value else 0 }

  function Timed(e: Event): nat { if e.durationMs.Some? then 1 else 0 }

  /** And its sums are the sums over those events; only events with a duration count as timed. */
  lemma {:induction false} RowSums(log: seq<Event>, k: Key)
    ensures Fold(log, k).Some? ==>
      var r := Fold(log, k).value;
      && r.credentialUses == Total(log, k, (e: Event) => e.credentialUses)
      && r.tokenizations == Total(log, k, (e: Event) => e.tokenizations)
      && r.durationSum == Total(log, k, Duration) && r.durations == Total(log, k, Timed)
    ensures Fold(log, k).None? ==> forall of: Event -> nat :: Total(log, k, of) == 0
    decreases |log|
  {
    if log != [] {
      var n := |log| - 1;
      RowSums(log[..n], k);
      assert forall of: Event -> nat ::
        Total(log, k, of) == Total(log[..n], k, of) + if HasKey(log[n], k) then of(log[n]) else 0;
    }
  }
}
