/** The response safeguards of a request: those of the rules its policy decision selected, merged. */
module ResponseSafeguards {
  import opened Common
  import opened Lists
  import P = Policy

  datatype Secretlint = AllOff | SomeOff(disabledRuleIds: seq<P.ScanRule>)

  datatype Merged = Merged(secretlint: Secretlint, scan: bool, maxBytes: Option<nat>)

  // A rule whose stored safeguards do not parse has none.
  datatype StoredRule = StoredRule(id: P.Id, safeguards: Option<P.Safeguards>)

  datatype Error = RuleUnavailable | SafeguardsInvalid

  const DEFAULT_BINARY_RESPONSE_MAX_BYTES: nat := 102400

  function DefaultSafeguards(): P.Safeguards { P.Safeguards(true, [], true, Some(DEFAULT_BINARY_RESPONSE_MAX_BYTES)) }

  function FindRule(rules: seq<StoredRule>, id: P.Id): Option<StoredRule> {
    if rules == [] then None else if rules[0].id == id then Some(rules[0]) else FindRule(rules[1..], id)
  }

  function OfRule(rules: seq<StoredRule>, id: P.Id): Result<P.Safeguards, Error> {
    match FindRule(rules, id)
    case None => Failure(RuleUnavailable)
    case Some(rule) => if rule.safeguards.None? then Failure(SafeguardsInvalid) else Success(rule.safeguards.value)
  }

  function OfRules(rules: seq<StoredRule>, ids: seq<P.Id>): Result<seq<P.Safeguards>, Error> {
    if ids == [] then Success([])
    else
      match OfRule(rules, ids[0])
      case Failure(e) => Failure(e)
      case Success(first) =>
        match OfRules(rules, ids[1..])
        case Failure(e) => Failure(e)
        case Success(rest) => Success([first] + rest)
  }

  // A boundary decided by its default contributes the default safeguards.
  function OfBoundary(rules: seq<StoredRule>, b: P.BoundaryExplanation): Result<seq<P.Safeguards>, Error> {
    if b.selectedRuleIds == [] then Success([DefaultSafeguards()]) else OfRules(rules, b.selectedRuleIds)
  }

  function Selected(rules: seq<StoredRule>, boundaries: seq<P.BoundaryExplanation>): Result<seq<P.Safeguards>, Error> {
    if boundaries == [] then Success([])
    else
      match OfBoundary(rules, boundaries[0])
      case Failure(e) => Failure(e)
      case Success(first) =>
        match Selected(rules, boundaries[1..])
        case Failure(e) => Failure(e)
        case Success(rest) => Success(first + rest)
  }

  function Enabled(safeguards: seq<P.Safeguards>): seq<P.Safeguards> {
    Filter(safeguards, (s: P.Safeguards) => s.enabled)
  }

  function Intersection(a: seq<P.ScanRule>, b: seq<P.ScanRule>): seq<P.ScanRule> { Filter(a, id => id in b) }

  function IntersectAll(lists: seq<seq<P.ScanRule>>): seq<P.ScanRule>
    requires lists != []
  {
    var n := |lists| - 1;
    if n == 0 then lists[0] else Intersection(IntersectAll(lists[..n]), lists[n])
  }

  function DisabledLists(safeguards: seq<P.Safeguards>): seq<seq<P.ScanRule>> {
    Map(safeguards, (s: P.Safeguards) => s.disabledRuleIds)
  }

  function Maximums(safeguards: seq<P.Safeguards>): seq<nat> {
    if safeguards == [] then []
    else (if safeguards[0].maxBytes.Some? then [safeguards[0].maxBytes.value] else []) + Maximums(safeguards[1..])
  }

  function Minimum(s: seq<nat>): (m: nat)
    requires s != []
    ensures m in s && forall x | x in s :: m <= x
  {
    if |s| == 1 then s[0]
    else
      var rest := Minimum(s[1..]);
      assert s == [s[0]] + s[1..];
      if s[0] <= rest then s[0] else rest
  }

  function Merge(safeguards: seq<P.Safeguards>): Merged
    requires safeguards != []
  {
    var enabled := Enabled(safeguards);
    var maximums := Maximums(safeguards);
    Merged(
      if enabled == [] then AllOff else SomeOff(SortUnique(IntersectAll(DisabledLists(enabled)))),
      exists s | s in safeguards :: s.scan,
      if maximums == [] then None else Some(Minimum(maximums)))
  }

  function RuntimeSafeguards(rules: seq<StoredRule>, boundaries: seq<P.BoundaryExplanation>): Result<Merged, Error> {
    match Selected(rules, boundaries)
    case Failure(e) => Failure(e)
    case Success(selected) => Success(Merge(if selected == [] then [DefaultSafeguards()] else selected))
  }

  // ---------- the order on safeguards ----------

  predicate TurnsOff(s: P.Safeguards, rule: P.ScanRule) { !s.enabled || rule in s.disabledRuleIds }

  predicate MergedTurnsOff(m: Merged, rule: P.ScanRule) { m.secretlint.AllOff? || rule in m.secretlint.disabledRuleIds }

  predicate Within(size: nat, maxBytes: Option<nat>) { maxBytes.None? || size <= maxBytes.value }

  // What safeguards amount to: the scan rules off, whether bodies are scanned, the sizes let through.
  datatype View = View(off: iset<P.ScanRule>, scan: bool, sizes: iset<nat>)

  ghost function ViewOf(s: P.Safeguards): View {
    View((iset rule: P.ScanRule | TurnsOff(s, rule)), s.scan, (iset size: nat | Within(size, s.maxBytes)))
  }

  ghost function MergedView(m: Merged): View {
    View((iset rule: P.ScanRule | MergedTurnsOff(m, rule)), m.scan, (iset size: nat | Within(size, m.maxBytes)))
  }

  ghost predicate AtLeastAsStrict(a: View, b: View) { a.off <= b.off && (b.scan ==> a.scan) && a.sizes <= b.sizes }

  lemma {:induction false} InIntersection(lists: seq<seq<P.ScanRule>>, rule: P.ScanRule)
    requires lists != []
    ensures rule in IntersectAll(lists) <==> forall l | l in lists :: rule in l
  {
    var n := |lists| - 1;
    assert lists == lists[..n] + [lists[n]];
    if n > 0 {
      InIntersection(lists[..n], rule);
      FilterIn(IntersectAll(lists[..n]), id => id in lists[n], rule);
    }
  }

  lemma InDisabledLists(safeguards: seq<P.Safeguards>, rule: P.ScanRule)
    ensures (forall l | l in DisabledLists(safeguards) :: rule in l) <==>
              forall s | s in safeguards :: rule in s.disabledRuleIds
  {
    var lists := DisabledLists(safeguards);
    forall s | s in safeguards ensures s.disabledRuleIds in lists {
      var i :| 0 <= i < |safeguards| && safeguards[i] == s;
      assert lists[i] == s.disabledRuleIds;
    }
    forall l | l in lists ensures exists s :: s in safeguards && s.disabledRuleIds == l {
      var i :| 0 <= i < |lists| && lists[i] == l;
      assert safeguards[i] in safeguards;
    }
  }

  /** A scan rule is off only if every selected safeguard turns it off. */
  lemma OffIffAllTurnOff(safeguards: seq<P.Safeguards>, rule: P.ScanRule)
    requires safeguards != []
    ensures MergedTurnsOff(Merge(safeguards), rule) <==> forall s | s in safeguards :: TurnsOff(s, rule)
  {
    var enabled := Enabled(safeguards);
    forall s ensures s in enabled <==> s in safeguards && s.enabled {
      FilterIn(safeguards, (s: P.Safeguards) => s.enabled, s);
    }
    if enabled == [] {
      forall s | s in safeguards ensures !s.enabled { assert s !in enabled; }
    } else {
      InDisabledLists(enabled, rule);
      InIntersection(DisabledLists(enabled), rule);
    }
  }

  lemma {:induction false} InMaximums(safeguards: seq<P.Safeguards>, n: nat)
    ensures n in Maximums(safeguards) <==> exists s :: s in safeguards && s.maxBytes == Some(n)
  {
    if safeguards != [] {
      InMaximums(safeguards[1..], n);
      assert safeguards == [safeguards[0]] + safeguards[1..];
      if safeguards[0].maxBytes == Some(n) { assert safeguards[0] in safeguards; }
    }
  }

  /** A size is let through exactly when every selected safeguard lets it through. */
  lemma WithinIffWithinAll(safeguards: seq<P.Safeguards>, size: nat)
    requires safeguards != []
    ensures Within(size, Merge(safeguards).maxBytes) <==> forall s | s in safeguards :: Within(size, s.maxBytes)
  {
    var maximums := Maximums(safeguards);
    forall s | s in safeguards && s.maxBytes.Some? ensures s.maxBytes.value in maximums {
      InMaximums(safeguards, s.maxBytes.value);
    }
    if maximums != [] { InMaximums(safeguards, Minimum(maximums)); }
  }

  /** The merged safeguards are at least as strict as each selected one, and as lenient as anything
      that is: they are the greatest lower bound. */
  lemma MergeIsGreatestLowerBound(safeguards: seq<P.Safeguards>, view: View)
    requires safeguards != []
    ensures AtLeastAsStrict(view, MergedView(Merge(safeguards))) <==>
              forall s | s in safeguards :: AtLeastAsStrict(view, ViewOf(s))
  {
    var m := Merge(safeguards);
    forall rule: P.ScanRule ensures rule in MergedView(m).off <==> forall s | s in safeguards :: rule in ViewOf(s).off {
      OffIffAllTurnOff(safeguards, rule);
    }
    forall size: nat ensures size in MergedView(m).sizes <==> forall s | s in safeguards :: size in ViewOf(s).sizes {
      WithinIffWithinAll(safeguards, size);
    }
    MeetOfViews(safeguards, MergedView(m), view);
  }

  lemma MeetOfViews(safeguards: seq<P.Safeguards>, meet: View, view: View)
    requires forall rule: P.ScanRule :: rule in meet.off <==> forall s | s in safeguards :: rule in ViewOf(s).off
    requires forall size: nat :: size in meet.sizes <==> forall s | s in safeguards :: size in ViewOf(s).sizes
    requires meet.scan <==> exists s | s in safeguards :: s.scan
    ensures AtLeastAsStrict(view, meet) <==> forall s | s in safeguards :: AtLeastAsStrict(view, ViewOf(s))
  {
    if AtLeastAsStrict(view, meet) {
      forall s | s in safeguards ensures AtLeastAsStrict(view, ViewOf(s)) {
        forall rule | rule in view.off ensures rule in ViewOf(s).off { assert rule in meet.off; }
        forall size | size in view.sizes ensures size in ViewOf(s).sizes { assert size in meet.sizes; }
      }
    }
    if forall s | s in safeguards :: AtLeastAsStrict(view, ViewOf(s)) {
      forall rule | rule in view.off ensures rule in meet.off { }
      forall size | size in view.sizes ensures size in meet.sizes { }
    }
  }

  lemma SameLists(a: seq<P.Safeguards>, b: seq<P.Safeguards>)
    requires SameElements(a, b)
    ensures SameElements(Enabled(a), Enabled(b))
  {
    forall s ensures s in Enabled(a) <==> s in Enabled(b) {
      FilterIn(a, (s: P.Safeguards) => s.enabled, s);
      FilterIn(b, (s: P.Safeguards) => s.enabled, s);
    }
  }

  lemma SameDisabled(a: seq<P.Safeguards>, b: seq<P.Safeguards>)
    requires SameElements(a, b) && a != [] && b != []
    ensures SortUnique(IntersectAll(DisabledLists(a))) == SortUnique(IntersectAll(DisabledLists(b)))
  {
    var x, y := IntersectAll(DisabledLists(a)), IntersectAll(DisabledLists(b));
    forall rule: P.ScanRule ensures rule in x <==> rule in y {
      InDisabledLists(a, rule);
      InDisabledLists(b, rule);
      InIntersection(DisabledLists(a), rule);
      InIntersection(DisabledLists(b), rule);
    }
    SortUniqueCanonical(x, y);
  }

  /** The order in which safeguards were selected, and repeats among them, make no difference. */
  lemma MergeForgetsOrder(a: seq<P.Safeguards>, b: seq<P.Safeguards>)
    requires SameElements(a, b) && a != [] && b != []
    ensures Merge(a) == Merge(b)
  {
    SameLists(a, b);
    SameElementsEmpty(Enabled(a), Enabled(b));
    if Enabled(a) != [] { SameDisabled(Enabled(a), Enabled(b)); }
    SameMaximums(a, b);
  }

  lemma SameMaximums(a: seq<P.Safeguards>, b: seq<P.Safeguards>)
    requires SameElements(a, b)
    ensures var x, y := Maximums(a), Maximums(b); (x == [] <==> y == []) && (x != [] ==> Minimum(x) == Minimum(y))
  {
    forall n: nat ensures n in Maximums(a) <==> n in Maximums(b) {
      InMaximums(a, n);
      InMaximums(b, n);
    }
    SameElementsEmpty(Maximums(a), Maximums(b));
  }

  // ---------- which safeguards are merged ----------

  // A boundary's selected rules contribute theirs; one decided by its default contributes the default.
  predicate Contributes(rules: seq<StoredRule>, b: P.BoundaryExplanation, s: P.Safeguards) {
    if b.selectedRuleIds == [] then
      s == DefaultSafeguards() else exists id | id in b.selectedRuleIds :: OfRule(rules, id) == Success(s)
  }

  predicate Available(rules: seq<StoredRule>, b: P.BoundaryExplanation) {
    forall id | id in b.selectedRuleIds :: OfRule(rules, id).Success?
  }

  lemma {:induction false} OfRulesIff(rules: seq<StoredRule>, ids: seq<P.Id>)
    ensures OfRules(rules, ids).Success? <==> forall id | id in ids :: OfRule(rules, id).Success?
    ensures OfRules(rules, ids).Success? ==>
      forall s :: s in OfRules(rules, ids).value <==> exists id | id in ids :: OfRule(rules, id) == Success(s)
  {
    if ids != [] {
      OfRulesIff(rules, ids[1..]);
      assert ids == [ids[0]] + ids[1..];
    }
  }

  /** Merging succeeds exactly when every selected rule is stored with valid safeguards, and merges
      exactly what the boundaries contribute. */
  lemma {:induction false} SelectedIff(rules: seq<StoredRule>, boundaries: seq<P.BoundaryExplanation>)
    ensures Selected(rules, boundaries).Success? <==> forall b | b in boundaries :: Available(rules, b)
    ensures Selected(rules, boundaries).Success? ==>
      forall s :: s in Selected(rules, boundaries).value <==> exists b | b in boundaries :: Contributes(rules, b, s)
  {
    if boundaries != [] {
      var first := boundaries[0];
      OfBoundaryIff(rules, first);
      SelectedIff(rules, boundaries[1..]);
      assert first in boundaries;
      assert forall b :: b in boundaries <==> b == first || b in boundaries[1..] by {
        assert boundaries == [first] + boundaries[1..];
      }
    }
  }

  lemma OfBoundaryIff(rules: seq<StoredRule>, b: P.BoundaryExplanation)
    ensures OfBoundary(rules, b).Success? <==> Available(rules, b)
    ensures OfBoundary(rules, b).Success? ==> forall s :: s in OfBoundary(rules, b).value <==> Contributes(rules, b, s)
  {
    OfRulesIff(rules, b.selectedRuleIds);
  }

  lemma OfRulesLength(rules: seq<StoredRule>, ids: seq<P.Id>)
    requires OfRules(rules, ids).Success?
    ensures |OfRules(rules, ids).value| == |ids|
  {
  }

  lemma SomethingSelected(rules: seq<StoredRule>, boundaries: seq<P.BoundaryExplanation>)
    requires boundaries != [] && Selected(rules, boundaries).Success?
    ensures Selected(rules, boundaries).value != []
  {
    if boundaries[0].selectedRuleIds != [] { OfRulesLength(rules, boundaries[0].selectedRuleIds); }
    assert OfBoundary(rules, boundaries[0]).value != [];
  }

  /** What a request with at least one boundary runs under: it is refused exactly when a selected rule is
      not available, and otherwise a scan rule is off, bodies are scanned and a size passes exactly as
      all that the boundaries contribute have it. */
  lemma RuntimeSafeguardsIff(rules: seq<StoredRule>, boundaries: seq<P.BoundaryExplanation>)
    requires boundaries != []
    ensures RuntimeSafeguards(rules, boundaries).Success? <==> forall b | b in boundaries :: Available(rules, b)
    ensures RuntimeSafeguards(rules, boundaries).Success? ==>
              MeetsAll(rules, boundaries, RuntimeSafeguards(rules, boundaries).value)
  {
    SelectedIff(rules, boundaries);
    if Selected(rules, boundaries).Success? {
      var selected := Selected(rules, boundaries).value;
      SomethingSelected(rules, boundaries);
      forall rule: P.ScanRule
        ensures MergedTurnsOff(Merge(selected), rule) <==> forall s :: Contributed(rules, boundaries, s) ==>
                  TurnsOff(s, rule)
      {
        OffIffAllTurnOff(selected, rule);
      }
      forall size: nat
        ensures Within(size, Merge(selected).maxBytes) <==> forall s :: Contributed(rules, boundaries, s) ==>
                  Within(size, s.maxBytes)
      {
        WithinIffWithinAll(selected, size);
      }
    }
  }

  predicate Contributed(rules: seq<StoredRule>, boundaries: seq<P.BoundaryExplanation>, s: P.Safeguards) {
    exists b | b in boundaries :: Contributes(rules, b, s)
  }

  ghost predicate MeetsAll(rules: seq<StoredRule>, boundaries: seq<P.BoundaryExplanation>, m: Merged) {
    && (forall rule :: MergedTurnsOff(m, rule) <==> forall s :: Contributed(rules, boundaries, s) ==> TurnsOff(s, rule))
    && (m.scan <==> exists s :: Contributed(rules, boundaries, s) && s.scan)
    && (forall size: nat :: Within(size, m.maxBytes) <==> forall s :: Contributed(rules, boundaries, s) ==>
          Within(size, s.maxBytes))
  }
}

/** Running a request with its credentials resolved one inside the other. */
module RuntimeExecution {
  import opened Common

  type CredentialId = nat
  type Secret = nat
  type Response = nat

  datatype Error = Refused | SelfApiKeyDenied | Downstream(code: nat)

  // What the vault does for one credential: refuses, or hands out the secret; a secret that is an
  // active key of the gateway itself needs an approval; and the vault may still fail afterwards.
  datatype Resolution = Refuses | Grants(secret: Secret, approved: bool, failsAfter: bool)

  datatype Credential = Credential(id: CredentialId, resolution: Resolution)

  type Run = map<CredentialId, Secret> -> Result<Response, Error>

  function Ids(credentials: seq<Credential>): set<CredentialId> { set c | c in credentials :: c.id }

  // Every credential is resolved, in order; the downstream request then sees exactly their secrets.
  function Outcome(credentials: seq<Credential>, secrets: map<CredentialId, Secret>, downstream: Run)
    : Result<Response, Error>
  {
    if credentials == [] then downstream(secrets)
    else
      var c := credentials[0];
      match c.resolution
      case Refuses => Failure(Refused)
      case Grants(secret, approved, failsAfter) =>
        if !approved then Failure(SelfApiKeyDenied)
        else
          var r := Outcome(credentials[1..], secrets[c.id := secret], downstream);
          if failsAfter then Failure(Refused) else r
  }

  predicate Granted(c: Credential) { c.resolution.Grants? && c.resolution.approved }

  // What the downstream requests see: one with the secrets of all credentials if all are granted and
  // approved, and none otherwise.
  function RequestsOf(credentials: seq<Credential>, secrets: map<CredentialId, Secret>)
    : seq<map<CredentialId, Secret>>
  {
    if credentials == [] then [secrets]
    else if !Granted(credentials[0]) then []
    else RequestsOf(credentials[1..], secrets[credentials[0].id := credentials[0].resolution.secret])
  }

  // `requests` is the history of the requests made, each with the secrets it was made with.
  class Execution {
    const credentials: seq<Credential>
    const downstream: Run
    var resolved: map<CredentialId, Secret>
    ghost var requests: seq<map<CredentialId, Secret>>

    constructor (credentials: seq<Credential>, downstream: Run)
      ensures this.credentials == credentials && this.downstream == downstream && resolved == map[] && requests == []
    {
      this.credentials, this.downstream, resolved := credentials, downstream, map[];
      requests := [];
    }

    // However it ends, each credential resolved on the way is forgotten again.
    method Execute(index: nat) returns (r: Result<Response, Error>)
      requires index <= |credentials|
      modifies this
      ensures r == Outcome(credentials[index..], old(resolved), downstream)
      ensures requests == old(requests) + RequestsOf(credentials[index..], old(resolved))
      ensures resolved.Keys <= old(resolved).Keys && old(resolved).Keys - resolved.Keys <= Ids(credentials[index..])
      ensures forall id | id in resolved :: resolved[id] == old(resolved)[id]
      decreases |credentials| - index
    {
      if index == |credentials| {
        requests := requests + [resolved];
        return downstream(resolved);
      }
      var c := credentials[index];
      assert credentials[index..][1..] == credentials[index + 1..];
      assert credentials[index..] == [c] + credentials[index + 1..];
      assert Ids(credentials[index..]) == {c.id} + Ids(credentials[index + 1..]);
      match c.resolution
      case Refuses => r := Failure(Refused);
      case Grants(secret, approved, failsAfter) =>
        if !approved { return Failure(SelfApiKeyDenied); }
        resolved := resolved[c.id := secret];
        r := Execute(index + 1);
        resolved := resolved - {c.id};
        if failsAfter { r := Failure(Refused); }
    }

    /** A request leaves no resolved secret behind on any exit, normal or failing, and is made at most
        once: exactly when every credential is granted and approved, with the secrets of all of them. */
    method Run() returns (r: Result<Response, Error>)
      requires resolved == map[]
      modifies this
      ensures resolved == map[] && r == Outcome(credentials, map[], downstream)
      ensures requests == old(requests) +
                if forall c | c in credentials :: Granted(c) then [Secrets(credentials)] else []
    {
      RequestMadeIff(credentials, map[]);
      if forall c | c in credentials :: Granted(c) { assert map[] + Secrets(credentials) == Secrets(credentials); }
      r := Execute(0);
      assert credentials[0..] == credentials;
    }
  }

  function Secrets(credentials: seq<Credential>): map<CredentialId, Secret>
    requires forall c | c in credentials :: c.resolution.Grants?
  {
    if credentials == [] then map[]
    else
      var n := |credentials| - 1;
      Secrets(credentials[..n])[credentials[n].id := credentials[n].resolution.secret]
  }

  predicate Succeeds(c: Credential) { c.resolution.Grants? && c.resolution.approved && !c.resolution.failsAfter }

  lemma {:induction false} RequestMadeIff(credentials: seq<Credential>, secrets: map<CredentialId, Secret>)
    ensures RequestsOf(credentials, secrets)
         == if forall c | c in credentials :: Granted(c) then [secrets + Secrets(credentials)] else []
    decreases |credentials|
  {
    if credentials == [] {
      assert secrets + map[] == secrets;
    } else {
      assert credentials == [credentials[0]] + credentials[1..];
      if Granted(credentials[0]) {
        RequestMadeIff(credentials[1..], secrets[credentials[0].id := credentials[0].resolution.secret]);
        if forall c | c in credentials :: Granted(c) { SecretsFromFront(credentials, secrets); }
      }
    }
  }

  /** A request is answered with a success only when every credential was granted and approved and the
      vault did not fail afterwards; then the answer is that of the request made with all secrets. */
  lemma {:induction false} AnswersIffAllResolve(credentials: seq<Credential>, secrets: map<CredentialId, Secret>,
                                                downstream: Run)
    ensures Outcome(credentials, secrets, downstream).Success? ==> forall c | c in credentials :: Succeeds(c)
    ensures (forall c | c in credentials :: Succeeds(c)) ==>
              Outcome(credentials, secrets, downstream) == downstream(secrets + Secrets(credentials))
    decreases |credentials|
  {
    if credentials == [] {
      assert secrets + map[] == secrets;
    } else {
      var c := credentials[0];
      assert credentials == [c] + credentials[1..];
      if c.resolution.Grants? {
        AnswersIffAllResolve(credentials[1..], secrets[c.id := c.resolution.secret], downstream);
      }
      if forall d | d in credentials :: Succeeds(d) {
        assert Succeeds(c);
        SecretsFromFront(credentials, secrets);
      }
    }
  }

  lemma AddLast(secrets: map<CredentialId, Secret>, more: map<CredentialId, Secret>, id: CredentialId, secret: Secret)
    ensures secrets + more[id := secret] == (secrets + more)[id := secret]
  {
  }

  lemma {:induction false} SecretsFromFront(credentials: seq<Credential>, secrets: map<CredentialId, Secret>)
    requires credentials != [] && forall c | c in credentials :: c.resolution.Grants?
    ensures secrets + Secrets(credentials) ==
      secrets[credentials[0].id := credentials[0].resolution.secret] + Secrets(credentials[1..])
    decreases |credentials|
  {
    var n, c := |credentials| - 1, credentials[0];
    var first: map<CredentialId, Secret> := secrets[c.id := c.resolution.secret];
    if n > 0 {
      var last := credentials[n];
      SecretsFromFront(credentials[..n], secrets);
      assert credentials[..n][1..] == credentials[1..][..n - 1];
      assert credentials[1..][n - 1] == last;
      AddLast(secrets, Secrets(credentials[..n]), last.id, last.resolution.secret);
      AddLast(first, Secrets(credentials[1..][..n - 1]), last.id, last.resolution.secret);
    } else {
      assert credentials[1..] == [] && credentials[..n] == [];
      assert secrets + Secrets(credentials) == first;
      assert first + map[] == first;
    }
  }
}
