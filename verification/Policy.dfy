/** Evaluation of policy boundaries: a service's and those of the credentials a request uses. */
module Policy {
  import opened Common
  import opened Lists
  import opened PolicyMatchers

  type Id = nat

  datatype Effect = Allow | Deny

  type ScanRule = nat

  // A stored rule's safeguards: which scan rules it turns off, whether binary bodies are scanned, and
  // the largest binary body it lets through (None: any).
  datatype Safeguards = Safeguards(enabled: bool, disabledRuleIds: seq<ScanRule>, scan: bool, maxBytes: Option<nat>)

  datatype Selector =
    | AllPrincipals
    | Groups(groupIds: seq<Id>)
    | Users(userIds: seq<Id>)
    | Principals(groupIds: seq<Id>, userIds: seq<Id>)

  datatype Rule = Rule(
    id: Id, effect: Effect, priority: int, enabled: bool, methods: seq<string>, hosts: seq<HostMatcher>,
    paths: seq<PathMatcher>, selector: Selector)

  datatype Kind = ServiceBoundary | CredentialBoundary

  datatype Boundary = Boundary(id: Id, kind: Kind, mode: Effect, assignmentAllowed: bool, rules: seq<Rule>)

  datatype Snapshot = Snapshot(
    subjectId: Id, groupIds: seq<Id>, method_: string, host: string, pathname: string, service: Boundary,
      credentials: seq<Boundary>)

  // The canonical request a boundary is asked about.
  datatype Request = Request(subjectId: Id, groupIds: seq<Id>, method_: string, host: string, pathname: string)

  datatype RuleReason =
    | Disabled | PrincipalNotApplicable | MethodNotMatched | HostNotMatched | PathNotMatched
    | MatchedLowerPriority | RuleSelectedAllow | RuleSelectedDeny

  datatype RuleExplanation = RuleExplanation(
    ruleId: Id, applicable: bool, requestMatched: bool, selected: bool, reason: RuleReason, priority: int,
      effect: Effect)

  datatype BoundaryReason = AssignmentDenied | DefaultAllow | DefaultDeny | SelectedAllow | SelectedDeny | DenyTie

  datatype BoundaryExplanation = BoundaryExplanation(
    boundaryId: Id, kind: Kind, assignmentAllowed: bool, allowed: bool, mode: Effect, selectedPriority: Option<int>,
    selectedRuleIds: seq<Id>, decisiveRuleId: Option<Id>, reason: BoundaryReason, rules: seq<RuleExplanation>)

  datatype Explanation = Explanation(
    allowed: bool, subjectId: Id, groupIds: seq<Id>, method_: string, host: string, pathname: string,
    boundaries: seq<BoundaryExplanation>)

  predicate SelectorApplies(selector: Selector, subjectId: Id, groupIds: seq<Id>) {
    match selector
    case AllPrincipals => true
    case Groups(ids) => exists g | g in ids :: g in groupIds
    case Users(ids) => subjectId in ids
    case Principals(gs, us) => subjectId in us || exists g | g in gs :: g in groupIds
  }

  function ExplainRule(p: Platform, rule: Rule, q: Request): RuleExplanation {
    var base := RuleExplanation(rule.id, false, false, false, Disabled, rule.priority, rule.effect);
    if !rule.enabled then base
    else if !SelectorApplies(rule.selector, q.subjectId, q.groupIds) then base.(reason := PrincipalNotApplicable)
    else if rule.methods != [] && q.method_ !in rule.methods then base.(applicable := true, reason := MethodNotMatched)
    else if rule.hosts != [] && !exists m | m in rule.hosts :: MatchesHost(p, m, q.host) then
      base.(applicable := true, reason := HostNotMatched)
    else if rule.paths != [] && !exists m | m in rule.paths :: MatchesPath(p, m, q.pathname) then
      base.(applicable := true, reason := PathNotMatched)
    else
      base.(applicable := true, requestMatched := true, reason := if rule.effect.Deny? then RuleSelectedDeny
            else RuleSelectedAllow)
  }

  function MaxPriority(rules: seq<RuleExplanation>): (top: int)
    requires rules != []
    ensures (forall r | r in rules :: r.priority <= top) && exists r :: r in rules && r.priority == top
  {
    if |rules| == 1 then assert rules[0] in rules; rules[0].priority
    else
      var rest := MaxPriority(rules[1..]);
      assert forall r | r in rules :: r == rules[0] || r in rules[1..];
      assert rules[0] in rules;
      if rules[0].priority >= rest then rules[0].priority else rest
  }

  function Ids(rules: seq<RuleExplanation>): seq<Id> { Map(rules, (r: RuleExplanation) => r.ruleId) }

  function MarkSelected(rule: RuleExplanation, selectedIds: seq<Id>): RuleExplanation {
    if !rule.requestMatched then rule
    else if rule.ruleId !in selectedIds then rule.(reason := MatchedLowerPriority)
    else rule.(selected := true, reason := if rule.effect.Deny? then RuleSelectedDeny else RuleSelectedAllow)
  }

  function Matched(rules: seq<RuleExplanation>): seq<RuleExplanation> {
    Filter(rules, (r: RuleExplanation) => r.requestMatched)
  }

  function AtPriority(rules: seq<RuleExplanation>, priority: int): seq<RuleExplanation> {
    Filter(rules, (r: RuleExplanation) => r.priority == priority)
  }

  function Denies(rules: seq<RuleExplanation>): seq<RuleExplanation> {
    Filter(rules, (r: RuleExplanation) => r.effect.Deny?)
  }

  function Decisive(selected: seq<RuleExplanation>): seq<RuleExplanation> {
    if Denies(selected) == [] then selected else Denies(selected)
  }

  function EvaluateBoundary(p: Platform, b: Boundary, q: Request): BoundaryExplanation {
    var initial := Map(b.rules, rule => ExplainRule(p, rule, q));
    var base := BoundaryExplanation(b.id, b.kind, b.assignmentAllowed, false, b.mode, None, [], None, AssignmentDenied,
                                    initial);
    if !b.assignmentAllowed then base
    else if Matched(initial) == [] then
      base.(allowed := b.mode.Allow?, reason := if b.mode.Allow? then DefaultAllow else DefaultDeny)
    else DecideByRules(base, Matched(initial))
  }

  function DecideByRules(base: BoundaryExplanation, matches: seq<RuleExplanation>): BoundaryExplanation
    requires matches != []
  {
    var priority := MaxPriority(matches);
    var selected := AtPriority(matches, priority);
    var denies := Denies(selected);
    var selectedIds := Sort(Ids(selected));
    var decisive := Sort(Ids(Decisive(selected)));
    base.(
      allowed := denies == [],
      selectedPriority := Some(priority),
      selectedRuleIds := selectedIds,
      decisiveRuleId := if decisive == [] then None else Some(decisive[0]),
      reason := if denies == [] then
        SelectedAllow else if exists r | r in selected :: r.effect.Allow? then DenyTie else SelectedDeny,
      rules := Map(base.rules, rule => MarkSelected(rule, selectedIds)))
  }

  function RequestOf(p: Platform, s: Snapshot): Request {
    Request(s.subjectId, SortUnique(s.groupIds), p.upper(s.method_), p.canonicalHost(s.host), s.pathname)
  }

  function EvaluateSnapshot(p: Platform, s: Snapshot): Explanation {
    var q := RequestOf(p, s);
    var boundaries := Map([s.service] + s.credentials, b => EvaluateBoundary(p, b, q));
    Explanation(forall b | b in boundaries :: b.allowed, q.subjectId, q.groupIds, q.method_, q.host, q.pathname,
                boundaries)
  }

  // ---------- the declarative rule ----------

  predicate Concerns(p: Platform, rule: Rule, q: Request) {
    && rule.enabled && SelectorApplies(rule.selector, q.subjectId, q.groupIds)
    && (rule.methods == [] || q.method_ in rule.methods)
    && (rule.hosts == [] || exists m | m in rule.hosts :: MatchesHost(p, m, q.host))
    && (rule.paths == [] || exists m | m in rule.paths :: MatchesPath(p, m, q.pathname))
  }

  // The rule concerns the request, and no rule that does has a higher priority.
  predicate Top(p: Platform, b: Boundary, rule: Rule, q: Request) {
    rule in b.rules && Concerns(p, rule, q) && forall r | r in b.rules
      && Concerns(p, r, q) :: r.priority <= rule.priority
  }

  /** Deny overrides: an assigned boundary allows when no top rule denies, or by its mode when no rule
      concerns the request. */
  predicate Permits(p: Platform, b: Boundary, q: Request) {
    && b.assignmentAllowed
    && (forall r | r in b.rules && Top(p, b, r, q) :: r.effect.Allow?)
    && ((forall r | r in b.rules :: !Concerns(p, r, q)) ==> b.mode.Allow?)
  }

  // ---------- the evaluator decides it ----------

  predicate MatchedBy(p: Platform, b: Boundary, q: Request, rule: Rule, e: RuleExplanation) {
    rule in b.rules && Concerns(p, rule, q) && ExplainRule(p, rule, q) == e
  }

  predicate TopBy(p: Platform, b: Boundary, q: Request, rule: Rule, e: RuleExplanation) {
    Top(p, b, rule, q) && ExplainRule(p, rule, q) == e
  }

  predicate TopWith(p: Platform, b: Boundary, q: Request, effect: Effect) {
    exists r | r in b.rules :: Top(p, b, r, q) && r.effect == effect
  }

  lemma ConcernsIffMatched(p: Platform, rule: Rule, q: Request)
    ensures ExplainRule(p, rule, q).requestMatched <==> Concerns(p, rule, q)
    ensures ExplainRule(p, rule, q).priority == rule.priority && ExplainRule(p, rule, q).effect == rule.effect
    ensures ExplainRule(p, rule, q).ruleId == rule.id
  {
  }

  function Initial(p: Platform, b: Boundary, q: Request): seq<RuleExplanation> {
    Map(b.rules, rule => ExplainRule(p, rule, q))
  }

  function Selected(p: Platform, b: Boundary, q: Request): seq<RuleExplanation> {
    var matches := Matched(Initial(p, b, q));
    if matches == [] then [] else AtPriority(matches, MaxPriority(matches))
  }

  lemma MatchedHasRule(p: Platform, b: Boundary, q: Request, e: RuleExplanation) returns (rule: Rule)
    requires e in Matched(Initial(p, b, q))
    ensures MatchedBy(p, b, q, rule, e)
  {
    var initial := Initial(p, b, q);
    FilterIn(initial, (r: RuleExplanation) => r.requestMatched, e);
    var i :| 0 <= i < |initial| && initial[i] == e;
    rule := b.rules[i];
    ConcernsIffMatched(p, rule, q);
  }

  lemma RuleIsMatched(p: Platform, b: Boundary, q: Request, rule: Rule)
    requires rule in b.rules && Concerns(p, rule, q)
    ensures ExplainRule(p, rule, q) in Matched(Initial(p, b, q))
  {
    var initial, e := Initial(p, b, q), ExplainRule(p, rule, q);
    FilterIn(initial, (r: RuleExplanation) => r.requestMatched, e);
    var i :| 0 <= i < |b.rules| && b.rules[i] == rule;
    assert initial[i] == e;
    ConcernsIffMatched(p, rule, q);
  }

  lemma NothingMatchedIff(p: Platform, b: Boundary, q: Request)
    ensures Matched(Initial(p, b, q)) == [] <==> forall r | r in b.rules :: !Concerns(p, r, q)
  {
    var matches := Matched(Initial(p, b, q));
    if matches == [] {
      forall r | r in b.rules ensures !Concerns(p, r, q) {
        if Concerns(p, r, q) { RuleIsMatched(p, b, q, r); }
      }
    } else {
      var rule := MatchedHasRule(p, b, q, matches[0]);
    }
  }

  // The selected explanations are those of the top rules.
  lemma SelectedHasRule(p: Platform, b: Boundary, q: Request, e: RuleExplanation) returns (rule: Rule)
    requires e in Selected(p, b, q)
    ensures TopBy(p, b, q, rule, e)
  {
    var matches := Matched(Initial(p, b, q));
    var top := MaxPriority(matches);
    FilterIn(matches, (r: RuleExplanation) => r.priority == top, e);
    rule := MatchedHasRule(p, b, q, e);
    forall o | o in b.rules && Concerns(p, o, q) ensures o.priority <= rule.priority {
      RuleIsMatched(p, b, q, o);
      ConcernsIffMatched(p, o, q);
    }
  }

  lemma TopIsSelected(p: Platform, b: Boundary, q: Request, rule: Rule)
    requires Top(p, b, rule, q)
    ensures ExplainRule(p, rule, q) in Selected(p, b, q)
  {
    var matches, e := Matched(Initial(p, b, q)), ExplainRule(p, rule, q);
    RuleIsMatched(p, b, q, rule);
    var top := MaxPriority(matches);
    var highest :| highest in matches && highest.priority == top;
    var other := MatchedHasRule(p, b, q, highest);
    ConcernsIffMatched(p, other, q);
    ConcernsIffMatched(p, rule, q);
    FilterIn(matches, (r: RuleExplanation) => r.priority == top, e);
  }

  lemma SelectedEffects(p: Platform, b: Boundary, q: Request, effect: Effect)
    ensures (exists e | e in Selected(p, b, q) :: e.effect == effect) <==> TopWith(p, b, q, effect)
  {
    if e :| e in Selected(p, b, q) && e.effect == effect {
      var rule := SelectedHasRule(p, b, q, e);
    }
    if r :| r in b.rules && Top(p, b, r, q) && r.effect == effect {
      TopIsSelected(p, b, q, r);
      ConcernsIffMatched(p, r, q);
    }
  }

  lemma DeniesIff(selected: seq<RuleExplanation>)
    ensures Denies(selected) != [] <==> exists e | e in selected :: e.effect == Deny
  {
    var isDeny := (r: RuleExplanation) => r.effect.Deny?;
    assert Denies(selected) == Filter(selected, isDeny);
    if Denies(selected) != [] { FilterIn(selected, isDeny, Denies(selected)[0]); }
    if e :| e in selected && e.effect == Deny { FilterIn(selected, isDeny, e); }
  }

  lemma AllowedOf(p: Platform, b: Boundary, q: Request)
    ensures EvaluateBoundary(p, b, q).allowed <==>
      b.assignmentAllowed && if Matched(Initial(p, b, q)) == [] then b.mode.Allow? else Denies(Selected(p, b, q)) == []
  {
  }

  /** The evaluator's verdict on a boundary is the declarative rule. */
  lemma BoundaryAllowsIff(p: Platform, b: Boundary, q: Request)
    ensures EvaluateBoundary(p, b, q).allowed <==> Permits(p, b, q)
  {
    AllowedOf(p, b, q);
    NothingMatchedIff(p, b, q);
    DeniesIff(Selected(p, b, q));
    SelectedEffects(p, b, q, Deny);
    assert TopWith(p, b, q, Deny) <==> !forall r | r in b.rules && Top(p, b, r, q) :: r.effect.Allow?;
  }

  /** A request is allowed exactly when every boundary permits it. */
  lemma SnapshotAllowsIff(p: Platform, s: Snapshot)
    ensures EvaluateSnapshot(p, s).allowed <==>
              forall b | b in [s.service] + s.credentials :: Permits(p, b, RequestOf(p, s))
  {
    var q, all := RequestOf(p, s), [s.service] + s.credentials;
    var boundaries := EvaluateSnapshot(p, s).boundaries;
    forall b | b in all ensures EvaluateBoundary(p, b, q).allowed <==> Permits(p, b, q) { BoundaryAllowsIff(p, b, q); }
    forall b | b in all ensures EvaluateBoundary(p, b, q) in boundaries {
      var i :| 0 <= i < |all| && all[i] == b;
      assert boundaries[i] == EvaluateBoundary(p, b, q);
    }
    forall e | e in boundaries ensures exists b :: b in all && EvaluateBoundary(p, b, q) == e {
      var i :| 0 <= i < |boundaries| && boundaries[i] == e;
      assert all[i] in all;
    }
  }

  function WithCredential(s: Snapshot, more: Boundary, at: nat): Snapshot
    requires at <= |s.credentials|
  {
    s.(credentials := s.credentials[..at] + [more] + s.credentials[at..])
  }

  lemma WiderBoundaries(s: Snapshot, more: Boundary, at: nat, b: Boundary)
    requires at <= |s.credentials|
    ensures b in [s.service] + WithCredential(s, more, at).credentials <==>
              b == more || b in [s.service] + s.credentials
  {
    assert s.credentials == s.credentials[..at] + s.credentials[at..];
  }

  /** Another credential boundary, wherever it stands, only narrows: it leaves the verdict or denies. */
  lemma CredentialOnlyNarrows(p: Platform, s: Snapshot, more: Boundary, at: nat)
    requires at <= |s.credentials|
    ensures EvaluateSnapshot(p, WithCredential(s, more, at)).allowed <==>
      EvaluateSnapshot(p, s).allowed && Permits(p, more, RequestOf(p, s))
  {
    SnapshotAllowsIff(p, s);
    SnapshotAllowsIff(p, WithCredential(s, more, at));
    assert RequestOf(p, WithCredential(s, more, at)) == RequestOf(p, s);
    forall b ensures b in [s.service] + WithCredential(s, more, at).credentials <==>
        b == more || b in [s.service] + s.credentials
    {
      WiderBoundaries(s, more, at, b);
    }
  }

  // ---------- order plays no part ----------

  function RuleIds(rules: seq<Rule>): seq<Id> { Map(rules, (r: Rule) => r.id) }

  lemma SameRulesSameMatches(p: Platform, b: Boundary, c: Boundary, q: Request)
    requires SameElements(b.rules, c.rules)
    ensures SameElements(Matched(Initial(p, b, q)), Matched(Initial(p, c, q)))
  {
    var ms, ns := Matched(Initial(p, b, q)), Matched(Initial(p, c, q));
    forall e | e in ms ensures e in ns {
      var rule := MatchedHasRule(p, b, q, e);
      RuleIsMatched(p, c, q, rule);
    }
    forall e | e in ns ensures e in ms {
      var rule := MatchedHasRule(p, c, q, e);
      RuleIsMatched(p, b, q, rule);
    }
  }

  lemma SameElementsFiltered<T(!new)>(s: seq<T>, t: seq<T>, keep: T -> bool)
    requires SameElements(s, t)
    ensures SameElements(Filter(s, keep), Filter(t, keep))
  {
    forall x: T ensures x in Filter(s, keep) <==> x in Filter(t, keep) {
      FilterIn(s, keep, x);
      FilterIn(t, keep, x);
    }
  }

  lemma SameIds(s: seq<RuleExplanation>, t: seq<RuleExplanation>)
    requires SameElements(s, t)
    ensures SameElements(Ids(s), Ids(t))
  {
    forall id | id in Ids(s) ensures id in Ids(t) { IdsIn(s, t, id); }
    forall id | id in Ids(t) ensures id in Ids(s) { IdsIn(t, s, id); }
  }

  lemma IdsIn(s: seq<RuleExplanation>, t: seq<RuleExplanation>, id: Id)
    requires id in Ids(s) && forall x | x in s :: x in t
    ensures id in Ids(t)
  {
    var i :| 0 <= i < |s| && Ids(s)[i] == id;
    assert s[i] in t;
    var j :| 0 <= j < |t| && t[j] == s[i];
    assert Ids(t)[j] == id;
  }

  // Rule ids are unique within a boundary, and stay so in what is picked from it.
  lemma {:induction false} DistinctIdsFiltered(s: seq<RuleExplanation>, keep: RuleExplanation -> bool)
    requires Distinct(Ids(s))
    ensures Distinct(Ids(Filter(s, keep)))
  {
    if s != [] {
      var rest := Filter(s[1..], keep);
      assert Ids(s)[1..] == Ids(s[1..]);
      DistinctIdsFiltered(s[1..], keep);
      if keep(s[0]) {
        forall i | 0 <= i < |rest| ensures Ids(rest)[i] != s[0].ruleId {
          FilterIn(s[1..], keep, rest[i]);
          var j :| 0 <= j < |s[1..]| && s[1..][j] == rest[i];
          assert Ids(s)[j + 1] == rest[i].ruleId && Ids(s)[0] == s[0].ruleId;
        }
        assert Ids(Filter(s, keep)) == [s[0].ruleId] + Ids(rest);
      }
    }
  }

  lemma DistinctMatchedIds(p: Platform, b: Boundary, q: Request)
    requires Distinct(RuleIds(b.rules))
    ensures Distinct(Ids(Matched(Initial(p, b, q))))
  {
    assert Ids(Initial(p, b, q)) == RuleIds(b.rules);
    DistinctIdsFiltered(Initial(p, b, q), (r: RuleExplanation) => r.requestMatched);
  }

  lemma MaxIsUnique(s: seq<RuleExplanation>, t: seq<RuleExplanation>)
    requires SameElements(s, t) && s != [] && t != []
    ensures MaxPriority(s) == MaxPriority(t)
  {
  }

  // The verdict, the rules selected and the reason: everything but the explanations' order.
  function Verdict(e: BoundaryExplanation): BoundaryExplanation { e.(rules := []) }

  lemma DecisionForgetsOrder(base: BoundaryExplanation, other: BoundaryExplanation, ms: seq<RuleExplanation>,
                             ns: seq<RuleExplanation>)
    requires SameElements(ms, ns) && ms != [] && ns != [] && Distinct(Ids(ms)) && Distinct(Ids(ns))
    requires Verdict(base) == Verdict(other)
    ensures Verdict(DecideByRules(base, ms)) == Verdict(DecideByRules(other, ns))
  {
    MaxIsUnique(ms, ns);
    var top := MaxPriority(ms);
    var s, t := AtPriority(ms, top), AtPriority(ns, top);
    SelectionForgetsOrder(ms, ns, (r: RuleExplanation) => r.priority == top);
    SelectionForgetsOrder(s, t, (r: RuleExplanation) => r.effect.Deny?);
  }

  lemma SelectionForgetsOrder(s: seq<RuleExplanation>, t: seq<RuleExplanation>, keep: RuleExplanation -> bool)
    requires SameElements(s, t) && Distinct(Ids(s)) && Distinct(Ids(t))
    ensures var u, v := Filter(s, keep), Filter(t, keep);
            SameElements(u, v) && Distinct(Ids(u)) && Distinct(Ids(v)) && Sort(Ids(u)) == Sort(Ids(v))
              && (u == [] <==> v == [])
  {
    SameElementsFiltered(s, t, keep);
    DistinctIdsFiltered(s, keep);
    DistinctIdsFiltered(t, keep);
    SameElementsEmpty(Filter(s, keep), Filter(t, keep));
    SortedIdsAgree(Filter(s, keep), Filter(t, keep));
  }

  lemma SortedIdsAgree(s: seq<RuleExplanation>, t: seq<RuleExplanation>)
    requires SameElements(s, t) && Distinct(Ids(s)) && Distinct(Ids(t))
    ensures Sort(Ids(s)) == Sort(Ids(t))
  {
    SameIds(s, t);
    SortCanonical(Ids(s), Ids(t));
  }

  /** Reordering rules changes nothing but the order of the explanations: the verdict, the selected
      rules, the decisive rule and the reason are the same, and so is each rule's explanation. */
  lemma RuleOrderIsIrrelevant(p: Platform, b: Boundary, c: Boundary, q: Request)
    requires c == b.(rules := c.rules) && SameElements(b.rules, c.rules)
    requires Distinct(RuleIds(b.rules)) && Distinct(RuleIds(c.rules))
    ensures Verdict(EvaluateBoundary(p, b, q)) == Verdict(EvaluateBoundary(p, c, q))
    ensures forall i, j | 0 <= i < |b.rules| && 0 <= j < |c.rules| && b.rules[i] == c.rules[j] ::
              EvaluateBoundary(p, b, q).rules[i] == EvaluateBoundary(p, c, q).rules[j]
  {
    var ms, ns := Matched(Initial(p, b, q)), Matched(Initial(p, c, q));
    SameRulesSameMatches(p, b, c, q);
    assert ms == [] <==> ns == [] by {
      if ms != [] { assert ms[0] in ms; }
      if ns != [] { assert ns[0] in ns; }
    }
    DistinctMatchedIds(p, b, q);
    DistinctMatchedIds(p, c, q);
    if b.assignmentAllowed && ms != [] {
      var base := BoundaryExplanation(b.id, b.kind, b.assignmentAllowed, false, b.mode, None, [], None,
                                      AssignmentDenied, []);
      DecisionForgetsOrder(base.(rules := Initial(p, b, q)), base.(rules := Initial(p, c, q)), ms, ns);
    }
  }

  /** Naming a user's groups in another order, or twice, changes nothing at all. */
  lemma GroupOrderIsIrrelevant(p: Platform, s: Snapshot, groupIds: seq<Id>)
    requires SameElements(s.groupIds, groupIds)
    ensures EvaluateSnapshot(p, s) == EvaluateSnapshot(p, s.(groupIds := groupIds))
  {
    SortUniqueCanonical(s.groupIds, groupIds);
    assert RequestOf(p, s) == RequestOf(p, s.(groupIds := groupIds));
  }

  /** A rule's explanation says selected exactly when it is a top rule. */
  lemma SelectedIffTop(p: Platform, b: Boundary, q: Request, i: nat)
    requires b.assignmentAllowed && Distinct(RuleIds(b.rules)) && i < |b.rules|
    ensures EvaluateBoundary(p, b, q).rules[i].selected <==> Top(p, b, b.rules[i], q)
  {
    MarkedById(p, b, q, i);
    if Concerns(p, b.rules[i], q) && b.rules[i].id in Ids(Selected(p, b, q)) { SelectedById(p, b, q, i); }
    if Top(p, b, b.rules[i], q) {
      TopIsSelected(p, b, q, b.rules[i]);
      IdIn(Selected(p, b, q), ExplainRule(p, b.rules[i], q));
      ConcernsIffMatched(p, b.rules[i], q);
    }
  }

  lemma IdIn(rules: seq<RuleExplanation>, e: RuleExplanation)
    requires e in rules
    ensures e.ruleId in Ids(rules)
  {
    var k :| 0 <= k < |rules| && rules[k] == e;
    assert Ids(rules)[k] == e.ruleId;
  }

  lemma MarkedById(p: Platform, b: Boundary, q: Request, i: nat)
    requires b.assignmentAllowed && i < |b.rules|
    ensures EvaluateBoundary(p, b, q).rules[i].selected <==>
      Concerns(p, b.rules[i], q) && b.rules[i].id in Ids(Selected(p, b, q))
  {
    RulesOf(p, b, q);
    ConcernsIffMatched(p, b.rules[i], q);
    NothingMatchedIff(p, b, q);
  }

  lemma RulesOf(p: Platform, b: Boundary, q: Request)
    requires b.assignmentAllowed
    ensures EvaluateBoundary(p, b, q).rules ==
      if Matched(Initial(p, b, q)) == [] then Initial(p, b, q)
      else Map(Initial(p, b, q), e => MarkSelected(e, Sort(Ids(Selected(p, b, q)))))
  {
  }

  lemma SelectedById(p: Platform, b: Boundary, q: Request, i: nat)
    requires i < |b.rules| && Distinct(RuleIds(b.rules)) && b.rules[i].id in Ids(Selected(p, b, q))
    ensures Top(p, b, b.rules[i], q)
  {
    var selected := Selected(p, b, q);
    var k :| 0 <= k < |selected| && Ids(selected)[k] == b.rules[i].id;
    var rule := SelectedHasRule(p, b, q, selected[k]);
    ConcernsIffMatched(p, rule, q);
    var j :| 0 <= j < |b.rules| && b.rules[j] == rule;
    assert RuleIds(b.rules)[i] == RuleIds(b.rules)[j];
  }

  /** The reason given is the true one: a tie when top rules both allow and deny, a selected denial or
      allowance when they agree, and the default when no rule concerns the request. */
  lemma ReasonIsFaithful(p: Platform, b: Boundary, q: Request)
    requires b.assignmentAllowed
    ensures var reason, allows, denies := EvaluateBoundary(p, b, q).reason, TopWith(p, b, q, Allow),
            TopWith(p, b, q, Deny);
            && (reason == DenyTie <==> allows && denies)
            && (reason == SelectedDeny <==> denies && !allows)
            && (reason == SelectedAllow <==> allows && !denies)
            && (reason == DefaultAllow || reason == DefaultDeny <==> forall r | r in b.rules :: !Concerns(p, r, q))
  {
    NothingMatchedIff(p, b, q);
    SelectedEffects(p, b, q, Allow);
    SelectedEffects(p, b, q, Deny);
    DeniesIff(Selected(p, b, q));
    SomeSelected(p, b, q);
    ReasonOf(p, b, q);
  }

  lemma SomeSelected(p: Platform, b: Boundary, q: Request)
    ensures Matched(Initial(p, b, q)) != [] ==> exists e :: e in Selected(p, b, q)
  {
    var matches := Matched(Initial(p, b, q));
    if matches != [] {
      var top := MaxPriority(matches);
      var first :| first in matches && first.priority == top;
      FilterIn(matches, (r: RuleExplanation) => r.priority == top, first);
      assert first in AtPriority(matches, top);
      assert first in Selected(p, b, q);
    }
  }

  lemma ReasonOf(p: Platform, b: Boundary, q: Request)
    requires b.assignmentAllowed
    ensures EvaluateBoundary(p, b, q).reason ==
      if Matched(Initial(p, b, q)) == [] then if b.mode.Allow? then DefaultAllow else DefaultDeny
      else if Denies(Selected(p, b, q)) == [] then SelectedAllow
      else if exists e | e in Selected(p, b, q) :: e.effect == Allow then DenyTie else SelectedDeny
  {
  }

  // The explanations among which the decisive rule is chosen are those of the top rules that carry the verdict.
  lemma DecisiveHasRule(p: Platform, b: Boundary, q: Request, e: RuleExplanation) returns (rule: Rule)
    requires e in Decisive(Selected(p, b, q))
    ensures TopBy(p, b, q, rule, e) && (TopWith(p, b, q, Deny) ==> rule.effect.Deny?)
  {
    var selected := Selected(p, b, q);
    DeniesIff(selected);
    SelectedEffects(p, b, q, Deny);
    FilterIn(selected, (r: RuleExplanation) => r.effect.Deny?, e);
    rule := SelectedHasRule(p, b, q, e);
  }

  lemma CarrierIsDecisive(p: Platform, b: Boundary, q: Request, rule: Rule)
    requires Top(p, b, rule, q) && (TopWith(p, b, q, Deny) ==> rule.effect.Deny?)
    ensures ExplainRule(p, rule, q) in Decisive(Selected(p, b, q))
  {
    var selected := Selected(p, b, q);
    DeniesIff(selected);
    SelectedEffects(p, b, q, Deny);
    TopIsSelected(p, b, q, rule);
    ConcernsIffMatched(p, rule, q);
    FilterIn(selected, (r: RuleExplanation) => r.effect.Deny?, ExplainRule(p, rule, q));
  }

  /** The decisive rule is the one of least id among the top rules that carry the verdict. */
  lemma DecisiveIsLeast(p: Platform, b: Boundary, q: Request, rule: Rule)
    requires b.assignmentAllowed && Top(p, b, rule, q) && (TopWith(p, b, q, Deny) ==> rule.effect.Deny?)
    ensures var decisive := EvaluateBoundary(p, b, q).decisiveRuleId;
            && decisive.Some? && decisive.value <= rule.id
            && exists r :: Top(p, b, r, q) && r.id == decisive.value && (TopWith(p, b, q, Deny) ==> r.effect.Deny?)
  {
    CarrierIsDecisive(p, b, q, rule);
    ConcernsIffMatched(p, rule, q);
    RuleIsMatched(p, b, q, rule);
    var chosen := Decisive(Selected(p, b, q));
    var i := LeastId(chosen, ExplainRule(p, rule, q));
    var least := DecisiveHasRule(p, b, q, chosen[i]);
    ConcernsIffMatched(p, least, q);
    DecisiveOf(p, b, q);
  }

  lemma DecisiveOf(p: Platform, b: Boundary, q: Request)
    requires b.assignmentAllowed && Matched(Initial(p, b, q)) != []
    ensures var ids := Sort(Ids(Decisive(Selected(p, b, q))));
            EvaluateBoundary(p, b, q).decisiveRuleId == if ids == [] then None else Some(ids[0])
  {
  }

  lemma LeastId(chosen: seq<RuleExplanation>, e: RuleExplanation) returns (i: nat)
    requires e in chosen
    ensures i < |chosen| && Sort(Ids(chosen)) != [] && Sort(Ids(chosen))[0] == chosen[i].ruleId <= e.ruleId
  {
    IdIn(chosen, e);
    assert e.ruleId in Sort(Ids(chosen));
    var least := Sort(Ids(chosen))[0];
    assert least in Ids(chosen);
    i :| 0 <= i < |chosen| && Ids(chosen)[i] == least;
  }
}
