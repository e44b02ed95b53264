/** From the published policies of a service to the safeguards its responses are held to: the policy
    decision, the configuration of one rule that carries the merged safeguards, and the nested
    evaluation that looks the rule up again. */
module RuntimePolicy {
  import opened Common
  import opened Lists
  import opened PolicyMatchers
  import opened ResponseSafeguards
  import P = Policy

  // ---------- the outer decision ----------

  datatype RuntimeSelector = SelectsAll | SelectsPrincipals(groupIds: seq<P.Id>, userIds: seq<P.Id>)

  // A published rule; its safeguards are None when the stored text does not parse.
  datatype PublishedRule = PublishedRule(
    id: P.Id, effect: P.Effect, priority: int, enabled: bool, methods: seq<string>, hosts: seq<HostMatcher>,
    paths: seq<PathMatcher>, selector: Option<RuntimeSelector>, safeguards: Option<P.Safeguards>)

  // The policy of the service itself names no credential.
  datatype PublishedPolicy = PublishedPolicy(id: P.Id, credential: Option<P.Id>, mode: P.Effect,
                                             rules: seq<PublishedRule>)

  // Who asks for what, with which credentials.
  datatype Call = Call(
    service: P.Id, subjectId: P.Id, groupIds: seq<P.Id>, method_: string, host: string, pathname: string,
      credentials: seq<P.Id>)

  function PolicySelector(selector: Option<RuntimeSelector>): P.Selector {
    match selector
    case None => P.Principals([], [])
    case Some(SelectsAll) => P.AllPrincipals
    case Some(SelectsPrincipals(groupIds, userIds)) => P.Principals(groupIds, userIds)
  }

  function RuleOf(r: PublishedRule): P.Rule {
    P.Rule(r.id, r.effect, r.priority, r.enabled, r.methods, r.hosts, r.paths, PolicySelector(r.selector))
  }

  function FindPolicy(policies: seq<PublishedPolicy>, credential: Option<P.Id>): (r: Option<PublishedPolicy>)
    ensures r.Some? ==> r.value in policies
  {
    if policies == [] then None
    else if policies[0].credential == credential then Some(policies[0])
    else FindPolicy(policies[1..], credential)
  }

  // A boundary without a policy denies.
  function BoundaryOf(policy: Option<PublishedPolicy>, kind: P.Kind, id: P.Id): P.Boundary {
    match policy
    case None => P.Boundary(id, kind, P.Deny, true, [])
    case Some(found) => P.Boundary(found.id, kind, found.mode, true, Map(found.rules, RuleOf))
  }

  function SnapshotOf(policies: seq<PublishedPolicy>, call: Call): P.Snapshot {
    P.Snapshot(call.subjectId, call.groupIds, call.method_, call.host, call.pathname,
               BoundaryOf(FindPolicy(policies, None), P.ServiceBoundary, call.service),
               Map(call.credentials, id => BoundaryOf(FindPolicy(policies, Some(id)), P.CredentialBoundary, id)))
  }

  function EvaluateRuntimePolicy(p: Platform, policies: seq<PublishedPolicy>, call: Call): P.Explanation {
    P.EvaluateSnapshot(p, SnapshotOf(policies, call))
  }

  function StoredRules(policies: seq<PublishedPolicy>): seq<StoredRule> {
    if policies == [] then []
    else Map(policies[0].rules, (r: PublishedRule) => StoredRule(r.id, r.safeguards)) + StoredRules(policies[1..])
  }

  // ---------- the nested configuration ----------

  // A configured rule applies to everyone; its hosts and paths are regular expressions.
  datatype ConfiguredRule = ConfiguredRule(
    id: P.Id, effect: P.Effect, priority: int, methods: seq<string>, hosts: seq<string>, paths: seq<string>,
      safeguards: Option<Merged>)

  datatype ServiceConfig = ServiceConfig(id: P.Id, mode: P.Effect, rules: seq<ConfiguredRule>)

  datatype Decision = Decision(allowed: bool, matchedRule: Option<P.Id>)

  const SAFEGUARDS_RULE: P.Id := 0

  function RuntimeServiceConfig(service: P.Id, safeguards: Option<Merged>): ServiceConfig {
    ServiceConfig(service, P.Allow,
                  if safeguards.None? then
                    [] else [ConfiguredRule(SAFEGUARDS_RULE, P.Allow, 1, [], [], [], safeguards)])
  }

  function ConfiguredAsRule(p: Platform, r: ConfiguredRule): P.Rule {
    P.Rule(r.id, r.effect, r.priority, true, Map(r.methods, p.upper), Map(r.hosts, (v: string) => RegexHost(v)),
           Map(r.paths, (v: string) => RegexPath(v)), P.AllPrincipals)
  }

  function ConfigBoundary(p: Platform, service: ServiceConfig): P.Boundary {
    P.Boundary(service.id, P.ServiceBoundary, service.mode, true, Map(service.rules, r => ConfiguredAsRule(p, r)))
  }

  // `subject` stands for the one fixed subject of such evaluations.
  function EvaluatePolicy(p: Platform, service: ServiceConfig, subject: P.Id, method_: string, host: string,
                          pathname: string): Decision
  {
    var explanation := P.EvaluateSnapshot(p,
                                          P.Snapshot(subject, [], method_, host, pathname, ConfigBoundary(p, service),
                                                     []));
    Decision(explanation.boundaries[0].allowed, explanation.boundaries[0].decisiveRuleId)
  }

  function FindConfigured(rules: seq<ConfiguredRule>, id: P.Id): Option<ConfiguredRule> {
    if rules == [] then None else if rules[0].id == id then Some(rules[0]) else FindConfigured(rules[1..], id)
  }

  // What a response is held to: the scan rules switched off, whether binary bodies are scanned, and
  // their largest size.
  datatype Applied = Applied(disabled: set<P.ScanRule>, scan: bool, maxBytes: Option<nat>)

  function AppliedSafeguards(service: ServiceConfig, decision: Decision, scanRules: set<P.ScanRule>): Applied {
    var rule := if decision.matchedRule.None? then None else FindConfigured(service.rules, decision.matchedRule.value);
    if rule.None? || rule.value.safeguards.None? then Applied({}, true, Some(DEFAULT_BINARY_RESPONSE_MAX_BYTES))
    else
      var m := rule.value.safeguards.value;
      Applied(match m.secretlint { case AllOff => scanRules case SomeOff(ids) => set id | id in ids }, m.scan,
              m.maxBytes)
  }

  // ---------- the whole request ----------

  datatype Error = PolicyDenied | SafeguardsError(error: ResponseSafeguards.Error)

  // The safeguards the response of a call is held to, or why there is none. `inner` is what the nested
  // evaluation sees of the request.
  function RequestSafeguards(p: Platform, policies: seq<PublishedPolicy>, call: Call, inner: Call,
                             scanRules: set<P.ScanRule>)
    : Result<Applied, Error>
  {
    var explanation := EvaluateRuntimePolicy(p, policies, call);
    if !explanation.allowed then Failure(PolicyDenied)
    else
      match RuntimeSafeguards(StoredRules(policies), explanation.boundaries)
      case Failure(e) => Failure(SafeguardsError(e))
      case Success(merged) =>
        var service := RuntimeServiceConfig(call.service, Some(merged));
        var decision := EvaluatePolicy(p, service, inner.subjectId, inner.method_, inner.host, inner.pathname);
        if !decision.allowed then Failure(PolicyDenied) else Success(AppliedSafeguards(service, decision, scanRules))
  }

  /** Whatever the request, the nested evaluation allows it by the one rule of its configuration, and the
      response is held to exactly the safeguards that rule carries. */
  lemma NestedSelectsSafeguards(p: Platform, service: P.Id, merged: Merged, subject: P.Id, method_: string,
                                host: string,
                                pathname: string, scanRules: set<P.ScanRule>)
    ensures var config := RuntimeServiceConfig(service, Some(merged));
            var decision := EvaluatePolicy(p, config, subject, method_, host, pathname);
            && decision == Decision(true, Some(SAFEGUARDS_RULE))
            && var applied := AppliedSafeguards(config, decision, scanRules);
               && applied.scan == merged.scan && applied.maxBytes == merged.maxBytes
               && forall id | id in scanRules :: id in applied.disabled <==> MergedTurnsOff(merged, id)
  {
    var config := RuntimeServiceConfig(service, Some(merged));
    var b := ConfigBoundary(p, config);
    var s := P.Snapshot(subject, [], method_, host, pathname, b, []);
    OneRuleDecides(p, service, merged, P.RequestOf(p, s));
    assert ([b] + [])[0] == b;
    assert P.EvaluateSnapshot(p, s).boundaries[0] == P.EvaluateBoundary(p, b, P.RequestOf(p, s));
  }

  lemma OneRuleDecides(p: Platform, service: P.Id, merged: Merged, q: P.Request)
    ensures var e := P.EvaluateBoundary(p, ConfigBoundary(p, RuntimeServiceConfig(service, Some(merged))), q);
            e.allowed && e.decisiveRuleId == Some(SAFEGUARDS_RULE)
  {
    var config := RuntimeServiceConfig(service, Some(merged));
    var b, rule := ConfigBoundary(p, config), ConfiguredAsRule(p, config.rules[0]);
    assert b.rules == [rule];
    assert P.Top(p, b, rule, q);
    P.BoundaryAllowsIff(p, b, q);
    P.DecisiveIsLeast(p, b, q, rule);
  }

  // ---------- every selected rule is stored ----------

  lemma {:induction false} StoredIsFound(rules: seq<StoredRule>, id: P.Id)
    requires exists r | r in rules :: r.id == id
    ensures FindRule(rules, id).Some? && FindRule(rules, id).value in rules && FindRule(rules, id).value.id == id
  {
    assert rules == [rules[0]] + rules[1..];
    if rules[0].id != id { StoredIsFound(rules[1..], id); }
  }

  lemma {:induction false} PublishedIsStored(policies: seq<PublishedPolicy>, policy: PublishedPolicy,
                                             rule: PublishedRule)
    requires policy in policies && rule in policy.rules
    ensures StoredRule(rule.id, rule.safeguards) in StoredRules(policies)
  {
    var first := Map(policies[0].rules, (r: PublishedRule) => StoredRule(r.id, r.safeguards));
    if policy == policies[0] {
      var i :| 0 <= i < |policy.rules| && policy.rules[i] == rule;
      assert first[i] in first;
    } else {
      PublishedIsStored(policies[1..], policy, rule);
    }
  }

  lemma SelectedIdsAreRules(p: Platform, b: P.Boundary, q: P.Request, id: P.Id)
    requires id in P.EvaluateBoundary(p, b, q).selectedRuleIds
    ensures exists r | r in b.rules :: r.id == id && P.Top(p, b, r, q)
  {
    var selected := P.Selected(p, b, q);
    assert id in P.Ids(selected);
    var k :| 0 <= k < |selected| && P.Ids(selected)[k] == id;
    var rule := P.SelectedHasRule(p, b, q, selected[k]);
    P.ConcernsIffMatched(p, rule, q);
  }

  /** No selected rule is ever missing from the published policies. */
  lemma SelectedIsPublished(p: Platform, policies: seq<PublishedPolicy>, call: Call, b: P.BoundaryExplanation, id: P.Id)
    requires b in EvaluateRuntimePolicy(p, policies, call).boundaries && id in b.selectedRuleIds
    ensures FindRule(StoredRules(policies), id).Some?
  {
    var s := SnapshotOf(policies, call);
    var all, q := [s.service] + s.credentials, P.RequestOf(p, s);
    var explained := EvaluateRuntimePolicy(p, policies, call).boundaries;
    var i :| 0 <= i < |explained| && explained[i] == b;
    assert b == P.EvaluateBoundary(p, all[i], q);
    SelectedIdsAreRules(p, all[i], q, id);
    var rule :| rule in all[i].rules && rule.id == id;
    var policy := PolicyOfBoundary(policies, call, i);
    var k :| 0 <= k < |all[i].rules| && all[i].rules[k] == rule;
    assert policy.Some?;
    PublishedIsStored(policies, policy.value, policy.value.rules[k]);
    StoredIsFound(StoredRules(policies), id);
  }

  lemma PolicyOfBoundary(policies: seq<PublishedPolicy>, call: Call, i: nat) returns (policy: Option<PublishedPolicy>)
    requires i <= |call.credentials|
    ensures var s := SnapshotOf(policies, call);
            var boundary := ([s.service] + s.credentials)[i];
            && boundary.rules == (if policy.None? then [] else Map(policy.value.rules, RuleOf))
            && (policy.Some? ==> policy.value in policies)
  {
    if i == 0 {
      policy := FindPolicy(policies, None);
    } else {
      policy := FindPolicy(policies, Some(call.credentials[i - 1]));
    }
  }

  // ---------- the theorem ----------

  // What the response is held to meets everything the outer decision's boundaries contribute.
  ghost predicate HeldTo(rules: seq<StoredRule>, boundaries: seq<P.BoundaryExplanation>, scanRules: set<P.ScanRule>,
                         a: Applied)
  {
    && (forall id | id in scanRules :: id in a.disabled <==> forall s :: Contributed(rules, boundaries, s) ==>
          TurnsOff(s, id))
    && (a.scan <==> exists s :: Contributed(rules, boundaries, s) && s.scan)
    && (forall size: nat :: Within(size, a.maxBytes) <==> forall s :: Contributed(rules, boundaries, s) ==>
          Within(size, s.maxBytes))
  }

  /** End to end: a call gets a response exactly when every boundary permits it and the safeguards of all
      selected rules parse, and its response is then held to the greatest lower bound of what the
      boundaries of the outer decision contribute, whatever the nested evaluation is asked. */
  lemma ResponseIsHeldToAll(p: Platform, policies: seq<PublishedPolicy>, call: Call, inner: Call,
                            scanRules: set<P.ScanRule>)
    ensures var e, rules := EvaluateRuntimePolicy(p, policies, call), StoredRules(policies);
            var r := RequestSafeguards(p, policies, call, inner, scanRules);
            && (r.Success? <==> e.allowed && AllValid(rules, e.boundaries))
            && (r.Success? ==> HeldTo(rules, e.boundaries, scanRules, r.value))
            && r != Failure(SafeguardsError(RuleUnavailable))
  {
    var e, rules := EvaluateRuntimePolicy(p, policies, call), StoredRules(policies);
    RuntimeSafeguardsIff(rules, e.boundaries);
    forall b, id | b in e.boundaries && id in b.selectedRuleIds ensures FindRule(rules, id).Some? {
      SelectedIsPublished(p, policies, call, b, id);
    }
    NeverUnavailable(rules, e.boundaries);
    AvailableIffValid(rules, e.boundaries);
    if RuntimeSafeguards(rules, e.boundaries).Success? {
      var merged := RuntimeSafeguards(rules, e.boundaries).value;
      NestedSelectsSafeguards(p, call.service, merged, inner.subjectId, inner.method_, inner.host, inner.pathname,
                              scanRules);
    }
  }

  predicate AllValid(rules: seq<StoredRule>, boundaries: seq<P.BoundaryExplanation>) {
    forall b, id | b in boundaries
      && id in b.selectedRuleIds :: FindRule(rules, id).Some? && FindRule(rules, id).value.safeguards.Some?
  }

  lemma AvailableIffValid(rules: seq<StoredRule>, boundaries: seq<P.BoundaryExplanation>)
    ensures (forall b | b in boundaries :: Available(rules, b)) <==> AllValid(rules, boundaries)
  {
    forall b | b in boundaries
      ensures Available(rules, b) <==>
                forall id | id in b.selectedRuleIds ::
                  FindRule(rules, id).Some? && FindRule(rules, id).value.safeguards.Some?
    {
      assert forall id :: OfRule(rules, id).Success? <==>
          FindRule(rules, id).Some? && FindRule(rules, id).value.safeguards.Some?;
    }
  }

  lemma {:induction false} NoRuleUnavailable(rules: seq<StoredRule>, ids: seq<P.Id>)
    requires forall id | id in ids :: FindRule(rules, id).Some?
    ensures OfRules(rules, ids) != Failure(RuleUnavailable)
  {
    if ids != [] {
      assert ids[0] in ids;
      NoRuleUnavailable(rules, ids[1..]);
    }
  }

  lemma {:induction false} NeverUnavailable(rules: seq<StoredRule>, boundaries: seq<P.BoundaryExplanation>)
    requires forall b, id | b in boundaries && id in b.selectedRuleIds :: FindRule(rules, id).Some?
    ensures Selected(rules, boundaries) != Failure(RuleUnavailable)
  {
    if boundaries != [] {
      NoRuleUnavailable(rules, boundaries[0].selectedRuleIds);
      NeverUnavailable(rules, boundaries[1..]);
    }
  }
}
