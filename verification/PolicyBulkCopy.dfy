/** The transaction that copies policies to other boundaries, and what the copies decide. */
module PolicyBulkCopy {
  import opened Common
  import opened Lists
  import opened PolicyMatchers
  import opened PolicyCopy
  import P = Policy

  const MAX_COPIES: nat := 20
  const MAX_POLICIES_PER_SERVICE: nat := 1001
  const MAX_RULES_PER_POLICY: nat := 2000
  const MAX_RULES_TOTAL: nat := 20000

  datatype Profile = Profile(name: string, description: Option<string>, mode: P.Effect)

  datatype Policy = Policy(
    service: Id, credential: Option<Id>, profile: Profile, active: bool, generation: nat, rules: seq<RuleRow>)

  type Policies = map<Id, Policy>

  datatype CopySpec = CopySpec(sourcePolicyId: Id, service: Id, credential: Option<Id>, name: Option<string>)

  datatype Prepared = Prepared(service: Id, credential: Option<Id>, profile: Profile, rules: seq<RuleProfile>,
                               preserve: bool)

  // What the rest of the gateway decides: normal forms, who may write where, and live selector targets.
  datatype Env = Env(
    normal: Normalizer, profile: Profile -> Option<Profile>, boundaryOk: (Id, Option<Id>) -> bool,
    targetsOk: (Id, NormalSelector) -> bool)

  // Generated ids: of the policy a copy makes, and of each of its rules.
  datatype NewIds = NewIds(policy: nat -> Id, rule: (nat, nat) -> Id)

  function Prepare(env: Env, policies: Policies, source: Id, copy: CopySpec): Option<Prepared> {
    if !env.boundaryOk(copy.service, copy.credential) then None
    else if copy.sourcePolicyId !in policies || policies[copy.sourcePolicyId].service != source then None
    else
      var from := policies[copy.sourcePolicyId];
      var rules := CopyProfiles(env.normal, CopyDocument(from.rules));
      var copied := env.profile(from.profile);
      if rules.None? || copied.None? then None
      else
        var profile := if copy.name.None? then copied else env.profile(copied.value.(name := copy.name.value));
        if profile.None? then None
        else Some(Prepared(copy.service, copy.credential, profile.value, rules.value, source == copy.service))
  }

  function PrepareAll(env: Env, policies: Policies, source: Id, copies: seq<CopySpec>): (r: Option<seq<Prepared>>)
    ensures r.Some? ==> |r.value| == |copies| && forall i | 0 <= i < |copies| ::
            Prepare(env, policies, source, copies[i]) == Some(r.value[i])
  {
    if copies == [] then Some([])
    else
      var n := |copies| - 1;
      var front, last := PrepareAll(env, policies, source, copies[..n]), Prepare(env, policies, source, copies[n]);
      if front.None? || last.None? then None else Some(front.value + [last.value])
  }

  predicate SameBoundary(a: Prepared, b: Prepared) { a.service == b.service && a.credential == b.credential }

  predicate ActiveAt(policies: Policies, service: Id, credential: Option<Id>, id: Id) {
    id in policies && policies[id].active && policies[id].service == service && policies[id].credential == credential
  }

  predicate Occupied(policies: Policies, service: Id, credential: Option<Id>) {
    exists id | id in policies :: ActiveAt(policies, service, credential, id)
  }

  function PoliciesOf(policies: Policies, service: Id): set<Id> {
    set id | id in policies && policies[id].service == service
  }

  function CopiesTo(prepared: seq<Prepared>, service: Id): nat {
    if prepared == [] then 0
    else
      var n := |prepared| - 1;
      CopiesTo(prepared[..n], service) + if prepared[n].service == service then 1 else 0
  }

  function RulesIn(prepared: seq<Prepared>): nat {
    if prepared == [] then 0 else var n := |prepared| - 1; RulesIn(prepared[..n]) + |prepared[n].rules|
  }

  // The positions of a policy's rules.
  function RulesAt(id: Id, n: nat): (r: set<(Id, nat)>)
    ensures |r| == n && forall x | x in r :: x.0 == id && x.1 < n
  {
    if n == 0 then {} else RulesAt(id, n - 1) + {(id, n - 1)}
  }

  // Every stored rule.
  function AllRules(policies: Policies): set<(Id, nat)> {
    set id, x | id in policies && x in RulesAt(id, |policies[id].rules|) :: x
  }

  predicate Admissible(policies: Policies, prepared: seq<Prepared>) {
    && (forall i, j | 0 <= i < j < |prepared| :: !SameBoundary(prepared[i], prepared[j]))
    && (forall i | 0 <= i < |prepared| ::
          && !Occupied(policies, prepared[i].service, prepared[i].credential)
          && |PoliciesOf(policies, prepared[i].service)| + CopiesTo(prepared,
                                                                    prepared[i].service) <= MAX_POLICIES_PER_SERVICE
          && |prepared[i].rules| <= MAX_RULES_PER_POLICY)
    && |AllRules(policies)| + RulesIn(prepared) <= MAX_RULES_TOTAL
  }

  predicate RuleTargetsOk(env: Env, copy: Prepared, rule: RuleProfile) {
    copy.preserve && rule.selector.Some? ==>
        rule.selector.value.SelectAll? || env.targetsOk(copy.service, rule.selector.value)
  }

  predicate TargetsOk(env: Env, copy: Prepared) {
    forall i | 0 <= i < |copy.rules| :: RuleTargetsOk(env, copy, copy.rules[i])
  }

  // Across services a rule keeps its content only: it selects nobody and is disabled.
  function CopiedRow(copy: Prepared, rule: RuleProfile, id: Id): RuleRow {
    RuleRow(id, rule.content, copy.preserve && rule.enabled,
            AssignmentRows(if copy.preserve then rule.selector else None))
  }

  function CopiedRows(copy: Prepared, ids: NewIds, k: nat): seq<RuleRow> {
    seq(|copy.rules|, i requires 0 <= i < |copy.rules| => CopiedRow(copy, copy.rules[i], ids.rule(k, i)))
  }

  function CopiedPolicy(copy: Prepared, ids: NewIds, k: nat): Policy {
    Policy(copy.service, copy.credential, copy.profile, true, 1, CopiedRows(copy, ids, k))
  }

  function Inserted(policies: Policies, prepared: seq<Prepared>, ids: NewIds): Policies {
    if prepared == [] then policies
    else var n := |prepared| - 1;
    Inserted(policies, prepared[..n], ids)[ids.policy(n) := CopiedPolicy(prepared[n], ids, n)]
  }

  // ---------- the transaction ----------

  class PolicyManagement {
    var policies: Policies

    constructor (policies: Policies)
      ensures this.policies == policies
    {
      this.policies := policies;
    }

    // All copies are made, or none and nothing changes.
    method BulkCopy(env: Env, source: Id, copies: seq<CopySpec>, ids: NewIds) returns (ok: bool)
      modifies this
      ensures ok <==>
        && 1 <= |copies| <= MAX_COPIES
        && var prepared := PrepareAll(env, old(policies), source, copies);
           prepared.Some? && Admissible(old(policies), prepared.value)
             && forall i | 0 <= i < |copies| :: TargetsOk(env, prepared.value[i])
      ensures ok ==> policies == Inserted(old(policies), PrepareAll(env, old(policies), source, copies).value, ids)
      ensures !ok ==> policies == old(policies)
    {
      if |copies| < 1 || |copies| > MAX_COPIES { return false; }
      var prepared := PrepareCopies(env, policies, source, copies);
      if prepared.None? { return false; }
      var admissible := CheckCopies(policies, prepared.value);
      if !admissible { return false; }
      var working := InsertCopies(env, policies, prepared.value, ids);
      if working.None? { return false; }
      policies := working.value;
      ok := true;
    }
  }

  // The checks before anything is written.
  method CheckCopies(policies: Policies, prepared: seq<Prepared>) returns (ok: bool)
    ensures ok <==> Admissible(policies, prepared)
  {
    var distinct := DistinctBoundaries(prepared);
    if !distinct { return false; }
    var counts := CountCopies(policies, prepared);
    if counts.None? { return false; }
    var fits := CountsFit(policies, prepared, counts.value);
    if !fits { return false; }
    ok := RulesFit(policies, prepared);
  }

  method RulesFit(policies: Policies, prepared: seq<Prepared>) returns (fits: bool)
    ensures fits <==> |AllRules(policies)| + RulesIn(prepared) <= MAX_RULES_TOTAL
                      && forall i | 0 <= i < |prepared| :: |prepared[i].rules| <= MAX_RULES_PER_POLICY
  {
    var addedRules := 0;
    for k := 0 to |prepared|
      invariant addedRules == RulesIn(prepared[..k])
    {
      assert prepared[..k + 1][..k] == prepared[..k];
      addedRules := addedRules + |prepared[k].rules|;
    }
    assert prepared[..|prepared|] == prepared;
    fits := |AllRules(policies)| + addedRules <= MAX_RULES_TOTAL
            && forall i | 0 <= i < |prepared| :: |prepared[i].rules| <= MAX_RULES_PER_POLICY;
  }

  // As many boundary keys as copies.
  method DistinctBoundaries(prepared: seq<Prepared>) returns (distinct: bool)
    ensures distinct <==> forall i, j | 0 <= i < j < |prepared| :: !SameBoundary(prepared[i], prepared[j])
  {
    var keys: set<(Id, Option<Id>)> := {};
    for k := 0 to |prepared|
      invariant |keys| <= k && forall i | 0 <= i < k :: (prepared[i].service, prepared[i].credential) in keys
      invariant forall key | key in keys :: exists i | 0 <= i < k ::
                key == (prepared[i].service, prepared[i].credential)
      invariant |keys| == k <==> forall i, j | 0 <= i < j < k :: !SameBoundary(prepared[i], prepared[j])
    {
      var key := (prepared[k].service, prepared[k].credential);
      if key in keys {
        var i :| 0 <= i < k && key == (prepared[i].service, prepared[i].credential);
        assert SameBoundary(prepared[i], prepared[k]) && keys + {key} == keys;
      } else {
        assert forall i | 0 <= i < k :: !SameBoundary(prepared[i], prepared[k]);
      }
      keys := keys + {key};
    }
    distinct := |keys| == |prepared|;
  }

  // Each service that gets copies, with how many.
  predicate IsCount(prepared: seq<Prepared>, counts: map<Id, nat>) {
    && (forall i | 0 <= i < |prepared| :: prepared[i].service in counts)
    && (forall service | service in counts :: exists i | 0 <= i < |prepared| :: prepared[i].service == service)
    && (forall service | service in counts :: counts[service] == CopiesTo(prepared, service))
  }

  lemma {:induction false} NoCopies(prepared: seq<Prepared>, service: Id)
    requires forall i | 0 <= i < |prepared| :: prepared[i].service != service
    ensures CopiesTo(prepared, service) == 0
  {
    if prepared != [] { NoCopies(prepared[..|prepared| - 1], service); }
  }

  lemma OneMoreCopy(prepared: seq<Prepared>, k: nat, counts: map<Id, nat>)
    requires k < |prepared| && IsCount(prepared[..k], counts)
    ensures var service := prepared[k].service;
            IsCount(prepared[..k + 1], counts[service := (if service in counts then counts[service] else 0) + 1])
  {
    var service, front, more := prepared[k].service, prepared[..k], prepared[..k + 1];
    assert more[..k] == front && more[k] == prepared[k];
    if service !in counts { NoCopies(front, service); }
    forall s | s in counts || s == service ensures exists i | 0 <= i < |more| :: more[i].service == s {
      if s == service {
        assert more[k].service == s;
      } else {
        var i :| 0 <= i < |front| && front[i].service == s;
        assert more[i].service == s;
      }
    }
  }

  // How many copies go to each service, or None when a boundary is occupied.
  method CountCopies(policies: Policies, prepared: seq<Prepared>) returns (counts: Option<map<Id, nat>>)
    ensures counts.Some? <==>
              forall i | 0 <= i < |prepared| :: !Occupied(policies, prepared[i].service, prepared[i].credential)
    ensures counts.Some? ==> IsCount(prepared, counts.value)
  {
    var targetCounts: map<Id, nat> := map[];
    for k := 0 to |prepared|
      invariant forall i | 0 <= i < k :: !Occupied(policies, prepared[i].service, prepared[i].credential)
      invariant IsCount(prepared[..k], targetCounts)
    {
      var service := prepared[k].service;
      OneMoreCopy(prepared, k, targetCounts);
      targetCounts := targetCounts[service := (if service in targetCounts then targetCounts[service] else 0) + 1];
      if Occupied(policies, service, prepared[k].credential) { return None; }
    }
    assert prepared[..|prepared|] == prepared;
    counts := Some(targetCounts);
  }

  // No service ends with too many policies.
  method CountsFit(policies: Policies, prepared: seq<Prepared>, counts: map<Id, nat>) returns (fits: bool)
    requires IsCount(prepared, counts)
    ensures fits <==> forall i | 0 <= i < |prepared| ::
                        |PoliciesOf(policies, prepared[i].service)| + CopiesTo(prepared,
                                prepared[i].service) <= MAX_POLICIES_PER_SERVICE
  {
    var todo := counts.Keys;
    while todo != {}
      invariant todo <= counts.Keys
      invariant forall service | service in counts.Keys - todo ::
                |PoliciesOf(policies, service)| + counts[service] <= MAX_POLICIES_PER_SERVICE
      decreases |todo|
    {
      var service :| service in todo;
      todo := todo - {service};
      if |PoliciesOf(policies, service)| + counts[service] > MAX_POLICIES_PER_SERVICE { return false; }
    }
    fits := true;
  }

  method InsertCopies(env: Env, policies: Policies, prepared: seq<Prepared>, ids: NewIds) returns (r: Option<Policies>)
    ensures r.Some? <==> forall i | 0 <= i < |prepared| :: TargetsOk(env, prepared[i])
    ensures r.Some? ==> r.value == Inserted(policies, prepared, ids)
  {
    var working := policies;
    for k := 0 to |prepared|
      invariant working == Inserted(policies, prepared[..k], ids)
      invariant forall i | 0 <= i < k :: TargetsOk(env, prepared[i])
    {
      var copy := prepared[k];
      var rows := CopyRules(env, copy, ids, k);
      if rows.None? { return None; }
      assert prepared[..k + 1][..k] == prepared[..k];
      working := working[ids.policy(k) := Policy(copy.service, copy.credential, copy.profile, true, 1, rows.value)];
    }
    assert prepared[..|prepared|] == prepared;
    r := Some(working);
  }

  method PrepareCopies(env: Env, policies: Policies, source: Id, copies: seq<CopySpec>)
    returns (r: Option<seq<Prepared>>)
    ensures r == PrepareAll(env, policies, source, copies)
  {
    var prepared: seq<Prepared> := [];
    for k := 0 to |copies|
      invariant PrepareAll(env, policies, source, copies[..k]) == Some(prepared)
    {
      PrepareOneMore(env, policies, source, copies, k, prepared);
      var copy := Prepare(env, policies, source, copies[k]);
      if copy.None? {
        NoneSpreads(env, policies, source, copies, k);
        return None;
      }
      prepared := prepared + [copy.value];
    }
    assert copies[..|copies|] == copies;
    r := Some(prepared);
  }

  lemma PrepareOneMore(env: Env, policies: Policies, source: Id, copies: seq<CopySpec>, k: nat, prepared: seq<Prepared>)
    requires k < |copies| && PrepareAll(env, policies, source, copies[..k]) == Some(prepared)
    ensures var copy := Prepare(env, policies, source, copies[k]);
            PrepareAll(env, policies, source, copies[..k + 1]) == if copy.None? then
              None else Some(prepared + [copy.value])
  {
    assert copies[..k + 1][..k] == copies[..k] && copies[..k + 1][k] == copies[k];
  }

  lemma {:induction false} NoneSpreads(env: Env, policies: Policies, source: Id, copies: seq<CopySpec>, k: nat)
    requires k < |copies| && Prepare(env, policies, source, copies[k]).None?
    ensures PrepareAll(env, policies, source, copies).None?
    decreases |copies|
  {
    if k < |copies| - 1 { NoneSpreads(env, policies, source, copies[..|copies| - 1], k); }
  }

  method CopyRules(env: Env, copy: Prepared, ids: NewIds, k: nat) returns (rows: Option<seq<RuleRow>>)
    ensures rows.Some? <==> TargetsOk(env, copy)
    ensures rows.Some? ==> rows.value == CopiedRows(copy, ids, k)
  {
    var written: seq<RuleRow> := [];
    for i := 0 to |copy.rules|
      invariant |written| == i && forall j | 0 <= j < i :: written[j] == CopiedRow(copy, copy.rules[j], ids.rule(k, j))
      invariant forall j | 0 <= j < i :: RuleTargetsOk(env, copy, copy.rules[j])
    {
      var selector := if copy.preserve then copy.rules[i].selector else None;
      if selector.Some? && selector.value.Explicit? && !env.targetsOk(copy.service, selector.value) {
        assert !RuleTargetsOk(env, copy, copy.rules[i]);
        return None;
      }
      written := written + [RuleRow(ids.rule(k, i), copy.rules[i].content, copy.preserve && copy.rules[i].enabled,
                                    AssignmentRows(selector))];
    }
    rows := Some(written);
  }

  // ---------- what the tables keep ----------

  ghost predicate TablesOk(policies: Policies) {
    && (forall a, b, service, credential | ActiveAt(policies, service, credential, a)
        && ActiveAt(policies, service, credential, b) :: a == b)
    && (forall service: Id :: |PoliciesOf(policies, service)| <= MAX_POLICIES_PER_SERVICE)
    && (forall id | id in policies :: |policies[id].rules| <= MAX_RULES_PER_POLICY)
    && |AllRules(policies)| <= MAX_RULES_TOTAL
  }

  // The ids generated for these copies are new and differ.
  ghost predicate FreshIds(policies: Policies, ids: NewIds) {
    && (forall k: nat :: ids.policy(k) !in policies)
    && (forall j: nat, k: nat | j != k :: ids.policy(j) != ids.policy(k))
  }

  lemma InAllRules(policies: Policies, x: (Id, nat))
    ensures x in AllRules(policies) <==> x.0 in policies && x in RulesAt(x.0, |policies[x.0].rules|)
  {
    if x in AllRules(policies) {
      var id :| id in policies && x in RulesAt(id, |policies[id].rules|);
    }
  }

  lemma Disjoint(a: set<(Id, nat)>, b: set<(Id, nat)>, c: set<(Id, nat)>)
    requires forall x :: x in c <==> x in a || x in b
    requires forall x | x in a :: x !in b
    ensures |c| == |a| + |b|
  {
    assert c == a + b;
  }

  lemma AddedRules(policies: Policies, id: Id, policy: Policy)
    requires id !in policies
    ensures |AllRules(policies[id := policy])| == |AllRules(policies)| + |policy.rules|
  {
    var before, added, after := AllRules(policies), RulesAt(id, |policy.rules|), AllRules(policies[id := policy]);
    forall x: (Id, nat) ensures (x in after <==> x in before || x in added) && (x in before ==> x !in added) {
      InAllRules(policies, x);
      InAllRules(policies[id := policy], x);
    }
    Disjoint(before, added, after);
  }

  lemma AddedToService(policies: Policies, id: Id, policy: Policy, service: Id)
    requires id !in policies
    ensures |PoliciesOf(policies[id := policy], service)| ==
      |PoliciesOf(policies, service)| + if policy.service == service then 1 else 0
  {
    assert PoliciesOf(policies[id := policy], service) ==
      PoliciesOf(policies, service) + if policy.service == service then {id} else {};
  }

  lemma {:induction false} InsertedDomain(policies: Policies, prepared: seq<Prepared>, ids: NewIds)
    requires FreshIds(policies, ids)
    ensures forall id | id in policies ::
            id in Inserted(policies, prepared, ids) && Inserted(policies, prepared, ids)[id] == policies[id]
    ensures forall k | 0 <= k < |prepared| :: ids.policy(k) in Inserted(policies, prepared, ids)
              && Inserted(policies, prepared, ids)[ids.policy(k)] == CopiedPolicy(prepared[k], ids, k)
    ensures forall id | id in Inserted(policies, prepared, ids) :: id in policies || exists k ::
            0 <= k < |prepared| && id == ids.policy(k)
  {
    if prepared != [] { InsertedDomain(policies, prepared[..|prepared| - 1], ids); }
  }

  lemma {:induction false} InsertedSizes(policies: Policies, prepared: seq<Prepared>, ids: NewIds, service: Id)
    requires FreshIds(policies, ids)
    ensures |AllRules(Inserted(policies, prepared, ids))| == |AllRules(policies)| + RulesIn(prepared)
    ensures |PoliciesOf(Inserted(policies, prepared, ids), service)|
            == |PoliciesOf(policies, service)| + CopiesTo(prepared, service)
  {
    if prepared != [] {
      var n := |prepared| - 1;
      InsertedSizes(policies, prepared[..n], ids, service);
      InsertedDomain(policies, prepared[..n], ids);
      AddedRules(Inserted(policies, prepared[..n], ids), ids.policy(n), CopiedPolicy(prepared[n], ids, n));
      AddedToService(Inserted(policies, prepared[..n], ids), ids.policy(n), CopiedPolicy(prepared[n], ids, n), service);
    }
  }

  lemma {:induction false} SomeCopyTo(prepared: seq<Prepared>, service: Id)
    ensures CopiesTo(prepared, service) > 0 ==> exists i :: 0 <= i < |prepared| && prepared[i].service == service
  {
    if prepared != [] {
      var n := |prepared| - 1;
      SomeCopyTo(prepared[..n], service);
      if CopiesTo(prepared[..n], service) > 0 {
        var i :| 0 <= i < n && prepared[..n][i].service == service;
        assert prepared[i].service == service;
      }
    }
  }

  // A copy's boundary was free, and no other copy takes it.
  lemma NewIsAlone(policies: Policies, prepared: seq<Prepared>, ids: NewIds, k: nat, id: Id)
    requires Admissible(policies, prepared) && FreshIds(policies, ids) && k < |prepared|
    requires ActiveAt(Inserted(policies, prepared, ids), prepared[k].service, prepared[k].credential, id)
    ensures id == ids.policy(k)
  {
    InsertedDomain(policies, prepared, ids);
    assert !Occupied(policies, prepared[k].service, prepared[k].credential);
    assert !ActiveAt(policies, prepared[k].service, prepared[k].credential, id);
    var j :| 0 <= j < |prepared| && id == ids.policy(j);
    assert SameBoundary(prepared[j], prepared[k]);
  }

  lemma OneActiveAfter(policies: Policies, prepared: seq<Prepared>, ids: NewIds, a: Id, b: Id, service: Id,
                       credential: Option<Id>)
    requires TablesOk(policies) && Admissible(policies, prepared) && FreshIds(policies, ids)
    requires var after := Inserted(policies, prepared, ids);
             ActiveAt(after, service, credential, a) && ActiveAt(after, service, credential, b)
    ensures a == b
  {
    InsertedDomain(policies, prepared, ids);
    if a !in policies {
      var k :| 0 <= k < |prepared| && a == ids.policy(k);
      NewIsAlone(policies, prepared, ids, k, b);
    } else if b !in policies {
      var k :| 0 <= k < |prepared| && b == ids.policy(k);
      NewIsAlone(policies, prepared, ids, k, a);
    } else {
      assert ActiveAt(policies, service, credential, a) && ActiveAt(policies, service, credential, b);
    }
  }

  /** A batch of copies leaves one active policy at most for each boundary, and every limit kept. */
  lemma BulkCopyKeepsTables(policies: Policies, prepared: seq<Prepared>, ids: NewIds)
    requires TablesOk(policies) && Admissible(policies, prepared) && FreshIds(policies, ids)
    ensures TablesOk(Inserted(policies, prepared, ids))
  {
    var after := Inserted(policies, prepared, ids);
    forall a, b, service, credential | ActiveAt(after, service, credential, a)
      && ActiveAt(after, service, credential, b) ensures a == b
    {
      OneActiveAfter(policies, prepared, ids, a, b, service, credential);
    }
    forall service: Id ensures |PoliciesOf(after, service)| <= MAX_POLICIES_PER_SERVICE {
      InsertedSizes(policies, prepared, ids, service);
      SomeCopyTo(prepared, service);
    }
    InsertedSizes(policies, prepared, ids, 0);
    InsertedDomain(policies, prepared, ids);
  }

  // ---------- what copies decide ----------

  function BoundaryOf(policy: Policy, id: Id, assignmentAllowed: bool): P.Boundary {
    P.Boundary(id, if policy.credential.None? then P.ServiceBoundary else P.CredentialBoundary, policy.profile.mode,
               assignmentAllowed, Map(policy.rules, (row: RuleRow) => SnapshotRule(row)))
  }

  // The same rules in the same order but for their ids.
  predicate AlikeButIds(b: P.Boundary, c: P.Boundary) {
    && b.mode == c.mode && b.assignmentAllowed == c.assignmentAllowed && |b.rules| == |c.rules|
    && forall i | 0 <= i < |b.rules| :: b.rules[i].(id := 0) == c.rules[i].(id := 0)
  }

  lemma ConcernsAlike(p: Platform, a: P.Rule, b: P.Rule, q: P.Request)
    requires a.(id := 0) == b.(id := 0)
    ensures P.Concerns(p, a, q) <==> P.Concerns(p, b, q)
  {
  }

  lemma TopAlike(p: Platform, b: P.Boundary, c: P.Boundary, q: P.Request, i: nat)
    requires AlikeButIds(b, c) && i < |c.rules| && P.Top(p, c, c.rules[i], q)
    ensures P.Top(p, b, b.rules[i], q) && b.rules[i].effect == c.rules[i].effect
  {
    ConcernsAlike(p, b.rules[i], c.rules[i], q);
    forall o | o in b.rules && P.Concerns(p, o, q) ensures o.priority <= b.rules[i].priority {
      var j :| 0 <= j < |b.rules| && b.rules[j] == o;
      ConcernsAlike(p, o, c.rules[j], q);
      assert c.rules[j] in c.rules;
    }
  }

  lemma PermitsAlike(p: Platform, b: P.Boundary, c: P.Boundary, q: P.Request)
    requires AlikeButIds(b, c) && P.Permits(p, b, q)
    ensures P.Permits(p, c, q)
  {
    forall r | r in c.rules && P.Top(p, c, r, q) ensures r.effect.Allow? {
      var i :| 0 <= i < |c.rules| && c.rules[i] == r;
      TopAlike(p, b, c, q, i);
      assert b.rules[i] in b.rules;
    }
    if forall r | r in c.rules :: !P.Concerns(p, r, q) {
      forall o | o in b.rules ensures !P.Concerns(p, o, q) {
        var j :| 0 <= j < |b.rules| && b.rules[j] == o;
        ConcernsAlike(p, o, c.rules[j], q);
        assert c.rules[j] in c.rules;
      }
    }
  }

  lemma AllowedAlike(p: Platform, b: P.Boundary, c: P.Boundary, q: P.Request)
    requires AlikeButIds(b, c)
    ensures P.EvaluateBoundary(p, b, q).allowed <==> P.EvaluateBoundary(p, c, q).allowed
  {
    P.BoundaryAllowsIff(p, b, q);
    P.BoundaryAllowsIff(p, c, q);
    assert AlikeButIds(c, b);
    if P.Permits(p, b, q) { PermitsAlike(p, b, c, q); }
    if P.Permits(p, c, q) { PermitsAlike(p, c, b, q); }
  }

  // The copy's rules, read back for evaluation.
  lemma CopiedRuleIsAlike(env: Env, copy: Prepared, row: RuleRow, id: Id)
    requires copy.preserve && Stored(env.normal, row)
    ensures SnapshotRule(CopiedRow(copy, ProjectRule(row), id)).(id := 0) == SnapshotRule(row).(id := 0)
  {
    ViewOfRewritten(row.assignments);
  }

  // The names a policy may have are normalised; its mode is left as it is.
  ghost predicate KeepsMode(env: Env) {
    forall profile: Profile | env.profile(profile).Some? :: env.profile(profile).value.mode == profile.mode
  }

  lemma CopiedBoundaryIsAlike(env: Env, policies: Policies, source: Id, copy: CopySpec, ids: NewIds, k: nat, at: Id,
                              permitted: bool)
    requires Prepare(env, policies, source, copy).Some? && copy.service == source && KeepsMode(env)
    requires forall i | 0 <= i < |policies[copy.sourcePolicyId].rules| ::
             Stored(env.normal, policies[copy.sourcePolicyId].rules[i])
    ensures AlikeButIds(BoundaryOf(policies[copy.sourcePolicyId], copy.sourcePolicyId, permitted),
                        BoundaryOf(CopiedPolicy(Prepare(env, policies, source, copy).value, ids, k), at, permitted))
  {
    var prepared, from := Prepare(env, policies, source, copy).value, policies[copy.sourcePolicyId];
    CopyIsIdentityIff(env.normal, from.rules);
    assert prepared.preserve && prepared.rules == ProjectRules(from.rules)
      && prepared.profile.mode == from.profile.mode;
    CopiedRowsAreAlike(env, prepared, from.rules, ids, k);
    AlikeByRows(from, copy.sourcePolicyId, CopiedPolicy(prepared, ids, k), at, permitted);
  }

  // Row by row the same but for ids.
  predicate AlikeRows(a: seq<RuleRow>, b: seq<RuleRow>) {
    |a| == |b| && forall i | 0 <= i < |a| :: SnapshotRule(a[i]).(id := 0) == SnapshotRule(b[i]).(id := 0)
  }

  lemma CopiedRowsAreAlike(env: Env, prepared: Prepared, rows: seq<RuleRow>, ids: NewIds, k: nat)
    requires prepared.preserve && prepared.rules == ProjectRules(rows)
    requires forall i | 0 <= i < |rows| :: Stored(env.normal, rows[i])
    ensures AlikeRows(rows, CopiedRows(prepared, ids, k))
  {
    var copied := CopiedRows(prepared, ids, k);
    forall i | 0 <= i < |rows| ensures SnapshotRule(rows[i]).(id := 0) == SnapshotRule(copied[i]).(id := 0) {
      assert copied[i] == CopiedRow(prepared, ProjectRule(rows[i]), ids.rule(k, i));
      CopiedRuleIsAlike(env, prepared, rows[i], ids.rule(k, i));
    }
  }

  lemma AlikeByRows(a: Policy, id: Id, b: Policy, at: Id, permitted: bool)
    requires a.profile.mode == b.profile.mode && AlikeRows(a.rules, b.rules)
    ensures AlikeButIds(BoundaryOf(a, id, permitted), BoundaryOf(b, at, permitted))
  {
    var x, y := BoundaryOf(a, id, permitted), BoundaryOf(b, at, permitted);
    forall i | 0 <= i < |x.rules| ensures x.rules[i].(id := 0) == y.rules[i].(id := 0) {
      assert x.rules[i] == SnapshotRule(a.rules[i]) && y.rules[i] == SnapshotRule(b.rules[i]);
    }
  }

  /** Copied within its service a policy decides every request as its source does. */
  lemma SameServiceCopyDecidesAlike(env: Env, policies: Policies, source: Id, copy: CopySpec, ids: NewIds, k: nat,
                                    p: Platform, q: P.Request, at: Id, permitted: bool)
    requires Prepare(env, policies, source, copy).Some? && copy.service == source && KeepsMode(env)
    requires forall i | 0 <= i < |policies[copy.sourcePolicyId].rules| ::
             Stored(env.normal, policies[copy.sourcePolicyId].rules[i])
    ensures P.EvaluateBoundary(p,
                               BoundaryOf(CopiedPolicy(Prepare(env, policies, source, copy).value, ids, k), at,
                                          permitted), q).allowed <==>
            P.EvaluateBoundary(p, BoundaryOf(policies[copy.sourcePolicyId], copy.sourcePolicyId, permitted), q).allowed
  {
    CopiedBoundaryIsAlike(env, policies, source, copy, ids, k, at, permitted);
    AllowedAlike(p, BoundaryOf(policies[copy.sourcePolicyId], copy.sourcePolicyId, permitted),
                 BoundaryOf(CopiedPolicy(Prepare(env, policies, source, copy).value, ids, k), at, permitted), q);
  }

  lemma DisabledDecidesByMode(p: Platform, b: P.Boundary, q: P.Request)
    requires forall r | r in b.rules :: !r.enabled
    ensures P.EvaluateBoundary(p, b, q).allowed <==> b.assignmentAllowed && b.mode.Allow?
    ensures P.EvaluateBoundary(p, b, q).selectedRuleIds == []
  {
    P.BoundaryAllowsIff(p, b, q);
    P.NothingMatchedIff(p, b, q);
  }

  lemma CopiedRuleIsDisabled(copy: Prepared, ids: NewIds, k: nat, at: Id, permitted: bool)
    requires !copy.preserve
    ensures forall i | 0 <= i < |copy.rules| :: SelectorView(CopiedRows(copy, ids, k)[i].assignments).None?
    ensures forall r | r in BoundaryOf(CopiedPolicy(copy, ids, k), at, permitted).rules :: !r.enabled
  {
    var rows, b := CopiedRows(copy, ids, k), BoundaryOf(CopiedPolicy(copy, ids, k), at, permitted);
    forall i | 0 <= i < |rows| ensures SelectorView(rows[i].assignments).None? && !rows[i].enabled {
      assert rows[i] == CopiedRow(copy, copy.rules[i], ids.rule(k, i));
    }
    forall r | r in b.rules ensures !r.enabled {
      var i :| 0 <= i < |b.rules| && b.rules[i] == r;
      assert r == SnapshotRule(rows[i]);
    }
  }

  /** Copied to another service a policy decides every request by its mode: no rule is enabled, and none
      selects anyone. */
  lemma CrossServiceCopyIsDefault(env: Env, policies: Policies, source: Id, copy: CopySpec, ids: NewIds, k: nat,
                                  p: Platform, q: P.Request, at: Id, permitted: bool)
    requires Prepare(env, policies, source, copy).Some? && copy.service != source && KeepsMode(env)
    ensures var e := P.EvaluateBoundary(p,
                                        BoundaryOf(CopiedPolicy(Prepare(env, policies, source, copy).value, ids, k),
                                                   at, permitted), q);
            (e.allowed <==> permitted && policies[copy.sourcePolicyId].profile.mode.Allow?) && e.selectedRuleIds == []
    ensures var rows := CopiedRows(Prepare(env, policies, source, copy).value, ids, k);
            forall i | 0 <= i < |rows| :: SelectorView(rows[i].assignments).None?
  {
    var prepared := Prepare(env, policies, source, copy).value;
    CopiedRuleIsDisabled(prepared, ids, k, at, permitted);
    DisabledDecidesByMode(p, BoundaryOf(CopiedPolicy(prepared, ids, k), at, permitted), q);
  }

  /** Once made, a copy is the active policy of its boundary, and the only one. */
  lemma CopyGoverns(policies: Policies, prepared: seq<Prepared>, ids: NewIds, k: nat, id: Id)
    requires Admissible(policies, prepared) && FreshIds(policies, ids) && k < |prepared|
    ensures ActiveAt(Inserted(policies, prepared, ids), prepared[k].service, prepared[k].credential, id) <==>
              id == ids.policy(k)
  {
    InsertedDomain(policies, prepared, ids);
    if ActiveAt(Inserted(policies, prepared, ids), prepared[k].service, prepared[k].credential, id) {
      NewIsAlone(policies, prepared, ids, k, id);
    }
  }
}
