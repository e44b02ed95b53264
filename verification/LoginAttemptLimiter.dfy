/** Failure counters per source, per account and over all, with lockouts that double. Keys are opaque.
    Where several counters are equally old any of them may be the one evicted. */
module LoginAttemptLimiter {
  import opened Common

  type Key = nat

  datatype Limits = Limits(
    windowMs: nat, perSource: nat, perAccount: nat, total: nat, initialLockoutMs: nat, maxLockoutMs: nat,
      maxEntries: nat)

  datatype Counter = Counter(count: nat, windowStartedAt: int, lockoutUntil: int, lockoutLevel: nat, lastSeenAt: int)

  type Store = map<Key, Counter>

  // `clock` is the last reading of the clock.
  datatype State = State(sources: Store, accounts: Store, total: Counter, clock: int)

  datatype Answer = Allowed | Refused(retryAfterMs: int)

  // What the configuration is checked for.
  predicate ValidLimits(l: Limits) {
    && l.windowMs > 0 && l.perSource > 0 && l.perAccount > 0 && l.total > 0 && l.maxEntries > 0
    && 0 < l.initialLockoutMs <= l.maxLockoutMs
  }

  function Duration(l: Limits, level: nat): nat {
    if l.initialLockoutMs * Pow2(level) <= l.maxLockoutMs then l.initialLockoutMs * Pow2(level) else l.maxLockoutMs
  }

  function NewCounter(now: int): Counter { Counter(0, now, 0, 0, now) }

  function Counted(l: Limits, c: Counter, now: int): Counter {
    var w := if now - c.windowStartedAt >= l.windowMs then c.(count := 0, windowStartedAt := now) else c;
    w.(count := w.count + 1, lastSeenAt := now)
  }

  function Incremented(l: Limits, c: Counter, threshold: nat, now: int): Counter {
    var w := Counted(l, c, now);
    if w.count < threshold then w
    else Counter(0, now + Duration(l, w.lockoutLevel), now + Duration(l, w.lockoutLevel), w.lockoutLevel + 1, now)
  }

  predicate Oldest(store: Store, key: Key) {
    key in store && forall k | k in store :: store[key].lastSeenAt <= store[k].lastSeenAt
  }

  // What a failure of this key evicts: the oldest counter, when the key is new and the store is full.
  predicate Evicts(l: Limits, store: Store, key: Key, evicted: Option<Key>) {
    if key !in store && |store| >= l.maxEntries && |store| > 0 then evicted.Some? && Oldest(store, evicted.value)
    else evicted.None?
  }

  function Admit(store: Store, key: Key, evicted: Option<Key>, now: int): (r: Store)
    ensures key in r
  {
    if key in store then store
    else (if evicted.Some? then store - {evicted.value} else store)[key := NewCounter(now)]
  }

  function Fail(l: Limits, store: Store, key: Key, evicted: Option<Key>, threshold: nat, now: int): Store {
    var admitted := Admit(store, key, evicted, now);
    admitted[key := Incremented(l, admitted[key], threshold, now)]
  }

  predicate Stale(l: Limits, c: Counter, now: int) {
    c.lastSeenAt < now - l.windowMs - l.maxLockoutMs && c.lockoutUntil <= now
  }

  function Swept(l: Limits, store: Store, now: int): Store {
    map k | k in store && !Stale(l, store[k], now) :: store[k]
  }

  function SweptTotal(l: Limits, c: Counter, now: int): Counter {
    if c.lockoutUntil <= now && now - c.windowStartedAt >= l.windowMs then c.(count := 0, windowStartedAt := now) else c
  }

  function LockoutOf(store: Store, key: Key): int { if key in store then store[key].lockoutUntil else 0 }

  function BlockedUntil(s: State, source: Key, account: Key): int {
    Max(Max(LockoutOf(s.sources, source), LockoutOf(s.accounts, account)), s.total.lockoutUntil)
  }

  function Sweep(l: Limits, s: State, now: int): State {
    State(Swept(l, s.sources, now), Swept(l, s.accounts, now), SweptTotal(l, s.total, now), now)
  }

  function FailureAt(l: Limits, s: State, source: Key, account: Key, fromSources: Option<Key>,
                     fromAccounts: Option<Key>, now: int): State
  {
    State(Fail(l, s.sources, source, fromSources, l.perSource, now),
          Fail(l, s.accounts, account, fromAccounts, l.perAccount, now),
          Incremented(l, s.total, l.total, now), now)
  }

  // ---------- the limiter as it runs ----------

  class LoginAttemptLimiter {
    const limits: Limits
    var sources: Store
    var accounts: Store
    var globalCounter: Counter
    ghost var clock: int

    ghost function Model(): State
      reads this
    {
      State(sources, accounts, globalCounter, clock)
    }

    constructor (limits: Limits, now: int)
      ensures this.limits == limits && Model() == State(map[], map[], NewCounter(now), now)
    {
      this.limits := limits;
      sources, accounts, globalCounter, clock := map[], map[], NewCounter(now), now;
    }

    method Check(source: Key, account: Key, now: int) returns (answer: Answer)
      modifies this
      ensures Model() == Sweep(limits, old(Model()), now)
      ensures var until := BlockedUntil(Model(), source, account);
              answer == if until > now then Refused(until - now) else Allowed
    {
      sources := SweepStore(limits, sources, now);
      accounts := SweepStore(limits, accounts, now);
      if globalCounter.lockoutUntil <= now && now - globalCounter.windowStartedAt >= limits.windowMs {
        globalCounter := globalCounter.(count := 0, windowStartedAt := now);
      }
      clock := now;
      var until := if source in sources then sources[source].lockoutUntil else 0;
      var ofAccount := if account in accounts then accounts[account].lockoutUntil else 0;
      if ofAccount > until { until := ofAccount; }
      if globalCounter.lockoutUntil > until { until := globalCounter.lockoutUntil; }
      answer := if until > now then Refused(until - now) else Allowed;
    }

    method RecordFailure(source: Key, account: Key, now: int)
      returns (ghost fromSources: Option<Key>, ghost fromAccounts: Option<Key>)
      modifies this
      ensures Evicts(limits, old(sources), source, fromSources) && Evicts(limits, old(accounts), account, fromAccounts)
      ensures Model() == FailureAt(limits, old(Model()), source, account, fromSources, fromAccounts, now)
    {
      ghost var key;
      sources, key := GetCounter(limits, sources, source, now);
      fromSources := key;
      var counter := Increment(limits, sources[source], limits.perSource, now);
      sources := sources[source := counter];
      accounts, key := GetCounter(limits, accounts, account, now);
      fromAccounts := key;
      counter := Increment(limits, accounts[account], limits.perAccount, now);
      accounts := accounts[account := counter];
      globalCounter := Increment(limits, globalCounter, limits.total, now);
      clock := now;
    }

    method RecordSuccess(source: Key, account: Key)
      modifies this
      ensures Model() == old(Model()).(sources := old(sources) - {source}, accounts := old(accounts) - {account})
    {
      sources := sources - {source};
      accounts := accounts - {account};
    }
  }

  method Increment(l: Limits, c: Counter, threshold: nat, now: int) returns (r: Counter)
    ensures r == Incremented(l, c, threshold, now)
  {
    r := c;
    if now - r.windowStartedAt >= l.windowMs { r := r.(count := 0, windowStartedAt := now); }
    r := r.(count := r.count + 1);
    r := r.(lastSeenAt := now);
    if r.count < threshold { return; }
    r := r.(lockoutUntil := now + Duration(l, r.lockoutLevel));
    r := r.(lockoutLevel := r.lockoutLevel + 1);
    r := r.(count := 0);
    r := r.(windowStartedAt := r.lockoutUntil);
  }

  method GetCounter(l: Limits, store: Store, key: Key, now: int) returns (r: Store, ghost evicted: Option<Key>)
    ensures Evicts(l, store, key, evicted) && r == Admit(store, key, evicted, now)
  {
    evicted := None;
    if key in store { return store, None; }
    r := store;
    if |store| >= l.maxEntries && |store| > 0 {
      var oldest := FindOldest(store);
      evicted := Some(oldest);
      r := r - {oldest};
    }
    r := r[key := NewCounter(now)];
  }

  method FindOldest(store: Store) returns (oldest: Key)
    requires |store| > 0
    ensures Oldest(store, oldest)
  {
    assert store.Keys != {};
    oldest :| oldest in store.Keys;
    var todo := store.Keys - {oldest};
    while todo != {}
      invariant oldest in store && todo <= store.Keys
      invariant forall k | k in store.Keys - todo :: store[oldest].lastSeenAt <= store[k].lastSeenAt
      decreases |todo|
    {
      var k :| k in todo;
      todo := todo - {k};
      if store[k].lastSeenAt < store[oldest].lastSeenAt { oldest := k; }
    }
  }

  method SweepStore(l: Limits, store: Store, now: int) returns (r: Store)
    ensures r == Swept(l, store, now)
  {
    r := store;
    var staleBefore := now - l.windowMs - l.maxLockoutMs;
    var todo := store.Keys;
    while todo != {}
      invariant todo <= r.Keys <= store.Keys
      invariant forall k | k in r :: r[k] == store[k] && (k in todo || !Stale(l, store[k], now))
      invariant forall k | k in store && k !in r :: Stale(l, store[k], now)
      decreases |todo|
    {
      var k :| k in todo;
      todo := todo - {k};
      if r[k].lastSeenAt < staleBefore && r[k].lockoutUntil <= now { r := r - {k}; }
    }
  }
}

/** What the limiter guarantees over every run with a clock that never goes back. */
module LoginLockouts {
  import opened Common
  import opened Lists
  import opened LoginAttemptLimiter

  datatype Step =
    | CheckStep(source: Key, account: Key, now: int)
    | FailureStep(source: Key, account: Key, fromSources: Option<Key>, fromAccounts: Option<Key>, now: int)
    | SuccessStep(source: Key, account: Key)

  datatype Side = BySource | ByAccount

  predicate Enabled(l: Limits, s: State, step: Step) {
    match step
    case CheckStep(_, _, now) => now >= s.clock
    case FailureStep(source, account, fromSources, fromAccounts, now) =>
      now >= s.clock && Evicts(l, s.sources, source, fromSources) && Evicts(l, s.accounts, account, fromAccounts)
    case SuccessStep(_, _) => true
  }

  function Apply(l: Limits, s: State, step: Step): State {
    if !Enabled(l, s, step) then s else
    match step
    case CheckStep(_, _, now) => Sweep(l, s, now)
    case FailureStep(source, account, fromSources, fromAccounts, now) =>
      FailureAt(l, s, source, account, fromSources, fromAccounts, now)
    case SuccessStep(source, account) => s.(sources := s.sources - {source}, accounts := s.accounts - {account})
  }

  function Run(l: Limits, s: State, steps: seq<Step>): State
    decreases |steps|
  {
    if steps == [] then s else Apply(l, Run(l, s, steps[..|steps| - 1]), steps[|steps| - 1])
  }

  function StoreOf(s: State, side: Side): Store { if side.BySource? then s.sources else s.accounts }

  function KeyOf(step: Step, side: Side): Key { if side.BySource? then step.source else step.account }

  function EvictedBy(step: Step, side: Side): Option<Key>
    requires step.FailureStep?
  {
    if side.BySource? then step.fromSources else step.fromAccounts
  }

  // ---------- what every run keeps ----------

  // Below its threshold, and locked for no longer than its last lockout lasts from when it was last seen.
  predicate CounterOk(l: Limits, c: Counter, threshold: nat, clock: int) {
    && c.count < threshold && c.lastSeenAt <= clock
    && (if c.lockoutLevel == 0 then c.lockoutUntil == 0
        else c.lockoutUntil <= c.lastSeenAt + Duration(l, c.lockoutLevel - 1))
  }

  predicate StoreOk(l: Limits, store: Store, threshold: nat, clock: int) {
    |store| <= l.maxEntries && forall k | k in store :: CounterOk(l, store[k], threshold, clock)
  }

  predicate Inv(l: Limits, s: State) {
    && s.clock >= 0
    && StoreOk(l, s.sources, l.perSource, s.clock) && StoreOk(l, s.accounts, l.perAccount, s.clock)
    && CounterOk(l, s.total, l.total, s.clock)
  }

  lemma Pow2Grows(level: nat)
    ensures Pow2(level) <= Pow2(level + 1)
  {
  }

  lemma DurationGrows(l: Limits, level: nat)
    ensures Duration(l, level) <= Duration(l, level + 1) <= l.maxLockoutMs
  {
    Pow2Grows(level);
    assert l.initialLockoutMs * Pow2(level) <= l.initialLockoutMs * Pow2(level + 1);
  }

  lemma IncrementKeepsCounter(l: Limits, c: Counter, threshold: nat, clock: int, now: int)
    requires ValidLimits(l) && threshold > 0 && CounterOk(l, c, threshold, clock) && 0 <= clock <= now
    ensures CounterOk(l, Incremented(l, c, threshold, now), threshold, now)
    ensures Incremented(l, c, threshold, now).lockoutUntil >= c.lockoutUntil
  {
    if c.lockoutLevel > 0 { DurationGrows(l, c.lockoutLevel - 1); }
  }

  // A lockout lasts the initial time doubled for each lockout before it, up to the maximum.
  lemma LockoutLength(l: Limits, c: Counter, threshold: nat, now: int)
    requires ValidLimits(l) && threshold > 0
    ensures var r := Incremented(l, c, threshold, now);
            r.lockoutLevel == c.lockoutLevel ||
            (&& r.lockoutLevel == c.lockoutLevel + 1
             && r.lockoutUntil - now == Duration(l, c.lockoutLevel)
             && 0 < l.initialLockoutMs <= r.lockoutUntil - now <= l.maxLockoutMs
             && (Duration(l, c.lockoutLevel + 1) == l.maxLockoutMs
                 || Duration(l, c.lockoutLevel + 1) == 2 * (r.lockoutUntil - now)))
  {
    assert l.initialLockoutMs * Pow2(c.lockoutLevel) >= l.initialLockoutMs;
    assert l.initialLockoutMs * Pow2(c.lockoutLevel + 1) == 2 * (l.initialLockoutMs * Pow2(c.lockoutLevel));
  }

  lemma AdmitFits(l: Limits, store: Store, key: Key, evicted: Option<Key>, now: int)
    requires |store| <= l.maxEntries && l.maxEntries > 0 && Evicts(l, store, key, evicted)
    ensures |Admit(store, key, evicted, now)| <= l.maxEntries
  {
    if key !in store {
      var rest := if evicted.Some? then store - {evicted.value} else store;
      assert evicted.Some? ==> rest.Keys == store.Keys - {evicted.value};
      assert Admit(store, key, evicted, now).Keys == rest.Keys + {key};
    }
  }

  lemma FailKeepsStore(l: Limits, store: Store, key: Key, evicted: Option<Key>, threshold: nat, clock: int, now: int)
    requires ValidLimits(l) && threshold > 0 && StoreOk(l, store, threshold, clock) && 0 <= clock <= now
    requires Evicts(l, store, key, evicted)
    ensures StoreOk(l, Fail(l, store, key, evicted, threshold, now), threshold, now)
  {
    var admitted, after := Admit(store, key, evicted, now), Fail(l, store, key, evicted, threshold, now);
    AdmitFits(l, store, key, evicted, now);
    assert after.Keys == admitted.Keys;
    forall k | k in after ensures CounterOk(l, after[k], threshold, now) {
      if k == key {
        IncrementKeepsCounter(l, admitted[key], threshold, if key in store then clock else now, now);
      } else {
        assert k in store && after[k] == store[k];
      }
    }
  }

  lemma SweptKeepsStore(l: Limits, store: Store, threshold: nat, clock: int, now: int)
    requires StoreOk(l, store, threshold, clock) && clock <= now
    ensures StoreOk(l, Swept(l, store, now), threshold, now)
  {
    SubsetIsSmaller(Swept(l, store, now).Keys, store.Keys);
  }

  lemma RemovalKeepsStore(l: Limits, store: Store, key: Key, threshold: nat, clock: int)
    requires StoreOk(l, store, threshold, clock)
    ensures StoreOk(l, store - {key}, threshold, clock)
  {
    SubsetIsSmaller((store - {key}).Keys, store.Keys);
  }

  lemma SubsetIsSmaller(a: set<Key>, b: set<Key>)
    requires a <= b
    ensures |a| <= |b|
  {
    assert b == a + (b - a);
  }

  lemma StepKeepsInv(l: Limits, s: State, step: Step)
    requires ValidLimits(l) && Inv(l, s)
    ensures Inv(l, Apply(l, s, step))
  {
    if Enabled(l, s, step) {
      match step
      case CheckStep(_, _, now) =>
        SweptKeepsStore(l, s.sources, l.perSource, s.clock, now);
        SweptKeepsStore(l, s.accounts, l.perAccount, s.clock, now);
      case FailureStep(source, account, fromSources, fromAccounts, now) =>
        FailKeepsStore(l, s.sources, source, fromSources, l.perSource, s.clock, now);
        FailKeepsStore(l, s.accounts, account, fromAccounts, l.perAccount, s.clock, now);
        IncrementKeepsCounter(l, s.total, l.total, s.clock, now);
      case SuccessStep(source, account) =>
        RemovalKeepsStore(l, s.sources, source, l.perSource, s.clock);
        RemovalKeepsStore(l, s.accounts, account, l.perAccount, s.clock);
    }
  }

  /** Counts stay below their thresholds, stores within their size, and no lockout outlasts its length. */
  lemma {:induction false} EveryRunKeepsInv(l: Limits, s: State, steps: seq<Step>)
    requires ValidLimits(l) && Inv(l, s)
    ensures Inv(l, Run(l, s, steps))
    decreases |steps|
  {
    if steps != [] {
      EveryRunKeepsInv(l, s, steps[..|steps| - 1]);
      StepKeepsInv(l, Run(l, s, steps[..|steps| - 1]), steps[|steps| - 1]);
    }
  }

  // ---------- lockouts hold ----------

  function ThresholdOf(l: Limits, side: Side): nat { if side.BySource? then l.perSource else l.perAccount }

  // No step moves the lockout of a counter it keeps, or that of the overall counter, earlier.
  lemma LockoutNeverMovesEarlier(l: Limits, s: State, step: Step)
    requires ValidLimits(l) && Inv(l, s)
    ensures Apply(l, s, step).total.lockoutUntil >= s.total.lockoutUntil
    ensures forall side: Side, key | key in StoreOf(s, side) && key in StoreOf(Apply(l, s, step), side) ::
              StoreOf(Apply(l, s, step), side)[key].lockoutUntil >= StoreOf(s, side)[key].lockoutUntil
  {
    if Enabled(l, s, step) && step.FailureStep? {
      IncrementKeepsCounter(l, s.total, l.total, s.clock, step.now);
      forall side: Side, key | key in StoreOf(s, side) && key in StoreOf(Apply(l, s, step), side)
        ensures StoreOf(Apply(l, s, step), side)[key].lockoutUntil >= StoreOf(s, side)[key].lockoutUntil
      {
        if KeyOf(step, side) == key {
          IncrementKeepsCounter(l, StoreOf(s, side)[key], ThresholdOf(l, side), s.clock, step.now);
        }
      }
    }
  }

  // A failure of a new key finds the store full and this counter among the oldest.
  predicate MayEvict(l: Limits, store: Store, newKey: Key, key: Key) {
    newKey !in store && |store| >= l.maxEntries && Oldest(store, key)
  }

  // The only ways to lose a counter: a success, eviction for a new key, or a sweep when it is stale.
  predicate MayDrop(l: Limits, s: State, step: Step, side: Side, key: Key)
    requires key in StoreOf(s, side)
  {
    match step
    case CheckStep(_, _, now) => Stale(l, StoreOf(s, side)[key], now)
    case FailureStep(_, _, _, _, _) => MayEvict(l, StoreOf(s, side), KeyOf(step, side), key)
    case SuccessStep(_, _) => KeyOf(step, side) == key
  }

  // The same call at the same time, whichever of equally old counters it evicts.
  predicate SameCall(a: Step, b: Step) {
    match a
    case FailureStep(source, account, _, _, now) => b.FailureStep? && b.source == source && b.account == account
      && b.now == now
    case _ => a == b
  }

  // Of all counters strictly the one seen longest ago.
  predicate OnlyOldest(store: Store, key: Key) {
    key in store && forall k | k in store && k != key :: store[key].lastSeenAt < store[k].lastSeenAt
  }

  lemma OldestExists(store: Store, todo: set<Key>) returns (key: Key)
    requires todo != {} && todo <= store.Keys
    ensures key in todo && forall k | k in todo :: store[key].lastSeenAt <= store[k].lastSeenAt
    decreases |todo|
  {
    key :| key in todo;
    if todo != {key} {
      var other := OldestExists(store, todo - {key});
      if store[other].lastSeenAt < store[key].lastSeenAt { key := other; }
    }
  }

  // What a failure of this key may evict, with `key` for it if it may.
  lemma SomeEviction(l: Limits, store: Store, newKey: Key, key: Key) returns (evicted: Option<Key>)
    ensures Evicts(l, store, newKey, evicted)
    ensures MayEvict(l, store, newKey, key) ==> evicted == Some(key)
  {
    if MayEvict(l, store, newKey, key) {
      assert key in store.Keys;
      evicted := Some(key);
    } else if newKey !in store && |store| >= l.maxEntries && |store| > 0 {
      assert store.Keys != {};
      var k := OldestExists(store, store.Keys);
      evicted := Some(k);
    } else {
      evicted := None;
    }
  }

  lemma LostByStep(l: Limits, s: State, step: Step, side: Side, key: Key)
    requires l.maxEntries > 0 && key in StoreOf(s, side) && Enabled(l, s, step)
    ensures key !in StoreOf(Apply(l, s, step), side) <==>
              if step.FailureStep? then EvictedBy(step, side) == Some(key) else MayDrop(l, s, step, side, key)
    ensures key !in StoreOf(Apply(l, s, step), side) ==> MayDrop(l, s, step, side, key)
    ensures step.FailureStep? && MayDrop(l, s, step, side, key) && OnlyOldest(StoreOf(s, side), key) ==>
              key !in StoreOf(Apply(l, s, step), side)
  {
    if step.FailureStep? {
      var store := StoreOf(s, side);
      assert Evicts(l, store, KeyOf(step, side), EvictedBy(step, side));
      if MayEvict(l, store, KeyOf(step, side), key) {
        assert store.Keys != {};
        assert |store.Keys| == |store|;
      }
    }
  }

  /** A call can lose a counter exactly when it is a success naming it, a sweep that finds it stale, or a
      failure of a key that is new to a full store in which no counter is older; a counter strictly
      older than the rest is then always the one lost, and a sweep never loses a locked one. */
  lemma LostIffDropped(l: Limits, s: State, step: Step, side: Side, key: Key)
    requires l.maxEntries > 0 && key in StoreOf(s, side) && Enabled(l, s, step)
    ensures (exists call :: SameCall(step, call) && Enabled(l, s, call) && key !in StoreOf(Apply(l, s, call), side))
            <==> MayDrop(l, s, step, side, key)
    ensures MayDrop(l, s, step, side, key) && OnlyOldest(StoreOf(s, side), key) ==>
              key !in StoreOf(Apply(l, s, step), side)
    ensures step.CheckStep? && StoreOf(s, side)[key].lockoutUntil > step.now ==> key in StoreOf(Apply(l, s, step), side)
  {
    forall call | SameCall(step, call) && Enabled(l, s, call) && key !in StoreOf(Apply(l, s, call), side)
      ensures MayDrop(l, s, step, side, key)
    {
      LostByStep(l, s, call, side, key);
    }
    LostByStep(l, s, step, side, key);
    if MayDrop(l, s, step, side, key) {
      var call := step;
      if step.FailureStep? {
        var ofSources := SomeEviction(l, s.sources, step.source, key);
        var ofAccounts := SomeEviction(l, s.accounts, step.account, key);
        call := FailureStep(step.source, step.account, if side.BySource? then ofSources else step.fromSources,
                            if side.BySource? then step.fromAccounts else ofAccounts, step.now);
      }
      LostByStep(l, s, call, side, key);
      assert SameCall(step, call) && Enabled(l, s, call);
    }
  }

  // The steps of a run before a time, none of which is a success for the key or evicts its counter.
  predicate Keeps(step: Step, side: Side, key: Key, until: int) {
    match step
    case CheckStep(_, _, now) => now < until
    case FailureStep(_, _, _, _, now) => now < until && EvictedBy(step, side) != Some(key)
    case SuccessStep(_, _) => KeyOf(step, side) != key
  }

  lemma {:induction false} LockHolds(l: Limits, s: State, steps: seq<Step>, side: Side, key: Key, until: int)
    requires ValidLimits(l) && Inv(l, s) && key in StoreOf(s, side)
             && StoreOf(s, side)[key].lockoutUntil >= until > s.clock
    requires forall i | 0 <= i < |steps| :: Keeps(steps[i], side, key, until)
    ensures var t := Run(l, s, steps);
            Inv(l, t) && key in StoreOf(t, side) && StoreOf(t, side)[key].lockoutUntil >= until > t.clock
    decreases |steps|
  {
    if steps != [] {
      var before, step := Run(l, s, steps[..|steps| - 1]), steps[|steps| - 1];
      LockHolds(l, s, steps[..|steps| - 1], side, key, until);
      StepKeepsInv(l, before, step);
      if Enabled(l, before, step) { LostByStep(l, before, step, side, key); }
      LockoutNeverMovesEarlier(l, before, step);
    }
  }

  /** A source or account locked until a time is refused at every moment before it, whatever happens
      meanwhile short of a success for it or its eviction. */
  lemma LockedIsRefused(l: Limits, s: State, steps: seq<Step>, side: Side, source: Key, account: Key, until: int,
                        now: int)
    requires var key := if side.BySource? then source else account;
             && ValidLimits(l) && Inv(l, s) && key in StoreOf(s, side)
                && StoreOf(s, side)[key].lockoutUntil >= until > s.clock
             && forall i | 0 <= i < |steps| :: Keeps(steps[i], side, key, until)
    requires Run(l, s, steps).clock <= now < until
    ensures BlockedUntil(Sweep(l, Run(l, s, steps), now), source, account) >= until
  {
    var key := if side.BySource? then source else account;
    LockHolds(l, s, steps, side, key, until);
    assert key in StoreOf(Sweep(l, Run(l, s, steps), now), side);
  }

  lemma {:induction false} OverallLockHolds(l: Limits, s: State, steps: seq<Step>)
    requires ValidLimits(l) && Inv(l, s)
    ensures Inv(l, Run(l, s, steps)) && Run(l, s, steps).total.lockoutUntil >= s.total.lockoutUntil
    decreases |steps|
  {
    if steps != [] {
      OverallLockHolds(l, s, steps[..|steps| - 1]);
      StepKeepsInv(l, Run(l, s, steps[..|steps| - 1]), steps[|steps| - 1]);
      LockoutNeverMovesEarlier(l, Run(l, s, steps[..|steps| - 1]), steps[|steps| - 1]);
    }
  }

  /** While the overall counter is locked every source and account is refused, whatever happens. */
  lemma OverallLockRefusesAll(l: Limits, s: State, steps: seq<Step>, source: Key, account: Key, now: int)
    requires ValidLimits(l) && Inv(l, s) && Run(l, s, steps).clock <= now < s.total.lockoutUntil
    ensures BlockedUntil(Sweep(l, Run(l, s, steps), now), source, account) >= s.total.lockoutUntil
  {
    OverallLockHolds(l, s, steps);
  }

  // ---------- a lock that is lost ----------

  // Two counters at most; the second failure of a source locks it for a minute.
  const SMALL: Limits := Limits(1000, 2, 100, 100, 60000, 60000, 2)

  // Source 0 fails twice and is locked, source 1 fails once, and then source 2 fails.
  const EVICTING: seq<Step> :=
    [FailureStep(0, 9, None, None, 1), FailureStep(0, 9, None, None, 2), FailureStep(1, 9, None, None, 3),
     FailureStep(2, 9, Some(0), None, 4)]

  const LOCKED: Counter := Counter(0, 60002, 60002, 1, 2)

  const TWO_SOURCES: Store := map[0 := LOCKED, 1 := Counter(1, 3, 0, 0, 3)]

  lemma RunLast(l: Limits, s: State, steps: seq<Step>, last: Step)
    ensures Run(l, s, steps + [last]) == Apply(l, Run(l, s, steps), last)
  {
    assert (steps + [last])[..|steps|] == steps;
  }

  lemma SourceZeroIsLocked()
    ensures var s := Run(SMALL, State(map[], map[], NewCounter(0), 0), EVICTING[..2]);
            s.sources == map[0 := LOCKED] && 9 in s.accounts && s.clock == 2
  {
    var start := State(map[], map[], NewCounter(0), 0);
    assert EVICTING[..2] == ([] + [EVICTING[0]]) + [EVICTING[1]];
    RunLast(SMALL, start, [], EVICTING[0]);
    RunLast(SMALL, start, [] + [EVICTING[0]], EVICTING[1]);
    var s1 := Apply(SMALL, start, EVICTING[0]);
    assert s1.sources == map[0 := Counter(1, 0 + 1, 0, 0, 1)];
    assert Pow2(0) == 1;
  }

  lemma TwoSourcesAreHeld()
    ensures var s := Run(SMALL, State(map[], map[], NewCounter(0), 0), EVICTING[..3]);
            s.sources == TWO_SOURCES && 9 in s.accounts && s.clock == 3
  {
    SourceZeroIsLocked();
    assert EVICTING[..3] == EVICTING[..2] + [EVICTING[2]];
    RunLast(SMALL, State(map[], map[], NewCounter(0), 0), EVICTING[..2], EVICTING[2]);
    assert |map[0 := LOCKED]| == 1;
  }

  /** Eviction may drop a lock: from an empty limiter, a full store loses its one locked source to the
      failure of a new one, although an unlocked source is there too; it is answered to again at once. */
  lemma FullStoreDropsALock()
    ensures var before := Run(SMALL, State(map[], map[], NewCounter(0), 0), EVICTING[..3]);
            var after := Apply(SMALL, before, EVICTING[3]);
            && before.sources == TWO_SOURCES && TWO_SOURCES[0].lockoutUntil == 60002 && TWO_SOURCES[1].lockoutUntil == 0
            && Enabled(SMALL, before, EVICTING[3]) && BlockedUntil(before, 0, 8) > 4
            && 0 !in after.sources && 1 in after.sources && BlockedUntil(after, 0, 8) == 0
  {
    TwoSourcesAreHeld();
    var start := State(map[], map[], NewCounter(0), 0);
    var before := Run(SMALL, start, EVICTING[..3]);
    assert TWO_SOURCES.Keys == {0, 1};
    assert Oldest(before.sources, 0);
    EveryRunKeepsInv(SMALL, start, EVICTING[..3]);
    TotalIsFree();
  }

  lemma TotalIsFree()
    ensures var s := Run(SMALL, State(map[], map[], NewCounter(0), 0), EVICTING[..3]); s.total == Counter(3, 0, 0, 0, 3)
    ensures 8 !in Run(SMALL, State(map[], map[], NewCounter(0), 0), EVICTING[..3]).accounts
  {
    var start := State(map[], map[], NewCounter(0), 0);
    assert EVICTING[..3] == (([] + [EVICTING[0]]) + [EVICTING[1]]) + [EVICTING[2]];
    RunLast(SMALL, start, [], EVICTING[0]);
    RunLast(SMALL, start, [] + [EVICTING[0]], EVICTING[1]);
    RunLast(SMALL, start, ([] + [EVICTING[0]]) + [EVICTING[1]], EVICTING[2]);
    SourceZeroIsLocked();
    assert EVICTING[..2] == ([] + [EVICTING[0]]) + [EVICTING[1]];
    assert |map[0 := LOCKED]| == 1;
  }

  // ---------- guessing is slow ----------

  // Failures at these times, each admitted and each before its window runs out.
  predicate Sustained(l: Limits, c: Counter, threshold: nat, times: seq<int>)
    decreases |times|
  {
    times == [] ||
    (&& c.lockoutUntil <= times[0] && times[0] - c.windowStartedAt < l.windowMs
     && Sustained(l, Incremented(l, c, threshold, times[0]), threshold, times[1..]))
  }

  function After(l: Limits, c: Counter, threshold: nat, times: seq<int>): Counter
    decreases |times|
  {
    if times == [] then c else After(l, Incremented(l, c, threshold, times[0]), threshold, times[1..])
  }

  // The lengths of the lockouts of levels `low` to `high - 1`.
  function TotalLockout(l: Limits, low: nat, high: nat): nat
    decreases high - low
  {
    if low >= high then 0 else Duration(l, low) + TotalLockout(l, low + 1, high)
  }

  // Every failure is counted: towards the next lockout or in one already imposed.
  lemma {:induction false} FailuresAreCounted(l: Limits, c: Counter, threshold: nat, times: seq<int>)
    requires threshold > 0 && c.count < threshold && Sustained(l, c, threshold, times)
    ensures var r := After(l, c, threshold, times);
            r.lockoutLevel * threshold + r.count == c.lockoutLevel * threshold + c.count + |times|
              && r.count < threshold
    decreases |times|
  {
    if times != [] {
      var next := Incremented(l, c, threshold, times[0]);
      assert (c.lockoutLevel + 1) * threshold == c.lockoutLevel * threshold + threshold;
      FailuresAreCounted(l, next, threshold, times[1..]);
    }
  }

  /** Sustained guessing: the next attempt comes no earlier than all the lockouts so far added up. */
  lemma {:induction false} SustainedFailuresAreSlow(l: Limits, c: Counter, threshold: nat, times: seq<int>, start: int)
    requires NonDecreasing(times) && Sustained(l, c, threshold, times)
    requires forall i | 0 <= i < |times| :: times[i] >= start
    ensures var r := After(l, c, threshold, times);
            && r.lockoutLevel >= c.lockoutLevel
            && (r.lockoutLevel == c.lockoutLevel ==> r.lockoutUntil == c.lockoutUntil)
            && (r.lockoutLevel > c.lockoutLevel ==>
                  r.lockoutUntil >= start + TotalLockout(l, c.lockoutLevel, r.lockoutLevel))
    decreases |times|
  {
    if times != [] {
      var next := Incremented(l, c, threshold, times[0]);
      if next.lockoutLevel == c.lockoutLevel {
        SustainedFailuresAreSlow(l, next, threshold, times[1..], start);
      } else {
        forall i | 0 <= i < |times[1..]| ensures times[1..][i] >= next.lockoutUntil {
          assert times[1..][i] >= times[1..][0] >= next.lockoutUntil;
        }
        SustainedFailuresAreSlow(l, next, threshold, times[1..], next.lockoutUntil);
        assert next.lockoutUntil == times[0] + Duration(l, c.lockoutLevel);
      }
    }
  }

  // ---------- guessing at the limiter as it runs ----------

  // When the run records a failure of the key.
  function FailureTimes(l: Limits, s: State, steps: seq<Step>, side: Side, key: Key): seq<int>
    decreases |steps|
  {
    if steps == [] then [] else
    var init, step := steps[..|steps| - 1], steps[|steps| - 1];
    FailureTimes(l, s, init, side, key)
    + if step.FailureStep? && Enabled(l, Run(l, s, init), step) && KeyOf(step, side) == key then [step.now] else []
  }

  // The counter is there at every moment of the run.
  predicate Kept(l: Limits, s: State, steps: seq<Step>, side: Side, key: Key)
    decreases |steps|
  {
    key in StoreOf(Run(l, s, steps), side) && (steps != [] ==> Kept(l, s, steps[..|steps| - 1], side, key))
  }

  lemma {:induction false} AfterOneMore(l: Limits, c: Counter, threshold: nat, times: seq<int>, last: int)
    ensures After(l, c, threshold, times + [last]) == Incremented(l, After(l, c, threshold, times), threshold, last)
    decreases |times|
  {
    if times == [] {
      assert [last][1..] == [] && [] + [last] == [last];
    } else {
      assert (times + [last])[1..] == times[1..] + [last];
      AfterOneMore(l, Incremented(l, c, threshold, times[0]), threshold, times[1..], last);
    }
  }

  lemma StepOnCounter(l: Limits, s: State, step: Step, side: Side, key: Key)
    requires key in StoreOf(s, side) && key in StoreOf(Apply(l, s, step), side)
    ensures StoreOf(Apply(l, s, step), side)[key] ==
              if step.FailureStep? && Enabled(l, s, step) && KeyOf(step, side) == key
              then Incremented(l, StoreOf(s, side)[key], ThresholdOf(l, side), step.now) else StoreOf(s, side)[key]
  {
  }

  // A counter that is kept is the fold of its failures: nothing else in a run changes it.
  lemma {:induction false} CounterIsFold(l: Limits, s: State, steps: seq<Step>, side: Side, key: Key)
    requires Kept(l, s, steps, side, key)
    ensures key in StoreOf(s, side)
    ensures StoreOf(Run(l, s, steps), side)[key]
         == After(l, StoreOf(s, side)[key], ThresholdOf(l, side), FailureTimes(l, s, steps, side, key))
    decreases |steps|
  {
    if steps != [] {
      var init, step := steps[..|steps| - 1], steps[|steps| - 1];
      CounterIsFold(l, s, init, side, key);
      StepOnCounter(l, Run(l, s, init), step, side, key);
      if step.FailureStep? && Enabled(l, Run(l, s, init), step) && KeyOf(step, side) == key {
        AfterOneMore(l, StoreOf(s, side)[key], ThresholdOf(l, side), FailureTimes(l, s, init, side, key), step.now);
      } else {
        assert FailureTimes(l, s, steps, side, key) == FailureTimes(l, s, init, side, key);
      }
    }
  }

  lemma {:induction false} TimesAreOrdered(l: Limits, s: State, steps: seq<Step>, side: Side, key: Key)
    ensures Run(l, s, steps).clock >= s.clock
    ensures var times := FailureTimes(l, s, steps, side, key);
            NonDecreasing(times) && forall i | 0 <= i < |times| :: s.clock <= times[i] <= Run(l, s, steps).clock
    decreases |steps|
  {
    if steps != [] { TimesAreOrdered(l, s, steps[..|steps| - 1], side, key); }
  }

  /** Guessing at one source or account, over any run of the limiter in which its counter is kept: if its
      failures are admitted and sustained, they are all counted towards lockouts, and the counter is
      locked until no earlier than all those lockouts after the start. */
  lemma GuessingIsSlow(l: Limits, s: State, steps: seq<Step>, side: Side, key: Key)
    requires ValidLimits(l) && Inv(l, s) && Kept(l, s, steps, side, key) && key in StoreOf(s, side)
    requires Sustained(l, StoreOf(s, side)[key], ThresholdOf(l, side), FailureTimes(l, s, steps, side, key))
    ensures var c, r, threshold := StoreOf(s, side)[key], StoreOf(Run(l, s, steps), side)[key], ThresholdOf(l, side);
            && r.lockoutLevel * threshold + r.count
               == c.lockoutLevel * threshold + c.count + |FailureTimes(l, s, steps, side, key)|
            && r.count < threshold
            && (r.lockoutLevel > c.lockoutLevel ==>
                  r.lockoutUntil >= s.clock + TotalLockout(l, c.lockoutLevel, r.lockoutLevel))
  {
    var c, threshold, times := StoreOf(s, side)[key], ThresholdOf(l, side), FailureTimes(l, s, steps, side, key);
    CounterIsFold(l, s, steps, side, key);
    TimesAreOrdered(l, s, steps, side, key);
    FailuresAreCounted(l, c, threshold, times);
    SustainedFailuresAreSlow(l, c, threshold, times, s.clock);
  }

  // Until the maximum is reached the lockouts add up exponentially.
  lemma {:induction false} LockoutsDouble(l: Limits, high: nat)
    requires high > 0 ==> l.initialLockoutMs * Pow2(high - 1) <= l.maxLockoutMs
    ensures TotalLockout(l, 0, high) == l.initialLockoutMs * (Pow2(high) - 1)
  {
    LockoutsDoubleFrom(l, 0, high);
  }

  lemma {:induction false} LockoutsDoubleFrom(l: Limits, low: nat, high: nat)
    requires low <= high && (high > 0 ==> l.initialLockoutMs * Pow2(high - 1) <= l.maxLockoutMs)
    ensures TotalLockout(l, low, high) == l.initialLockoutMs * (Pow2(high) - Pow2(low))
    decreases high - low
  {
    if low < high {
      Pow2Ordered(low, high - 1);
      MulOrdered(l.initialLockoutMs, Pow2(low), Pow2(high - 1));
      LockoutsDoubleFrom(l, low + 1, high);
      SumsDouble(l.initialLockoutMs, Pow2(low), Pow2(high));
    }
  }

  lemma MulOrdered(x: nat, a: nat, b: nat)
    requires a <= b
    ensures x * a <= x * b
  {
  }

  lemma SumsDouble(x: nat, p: nat, q: nat)
    ensures x * p + x * (q - 2 * p) == x * (q - p)
  {
  }

  lemma {:induction false} Pow2Ordered(low: nat, high: nat)
    requires low <= high
    ensures Pow2(low) <= Pow2(high)
    decreases high - low
  {
    if low < high { Pow2Ordered(low, high - 1); }
  }
}
