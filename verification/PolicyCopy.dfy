/** Copying policies: from stored rows to a document, through the parser that checks documents, and
    back into rows for another boundary. */
module PolicyCopy {
  import opened Common
  import opened Lists
  import opened PolicyMatchers
  import P = Policy

  type Id = nat

  const MAX_SELECTOR_IDS: nat := 1000

  // ---------- stored rules ----------

  datatype Assignment = AllRow | GroupRow(id: Id) | UserRow(id: Id)

  // What a rule says of itself, besides whether it is enabled and whom it selects.
  datatype Content = Content(
    name: string, reason: Option<string>, effect: P.Effect, priority: int, methods: seq<string>,
    hosts: seq<HostMatcher>, paths: seq<PathMatcher>, safeguards: P.Safeguards)

  datatype RuleRow = RuleRow(id: Id, content: Content, enabled: bool, assignments: seq<Assignment>)

  datatype NormalSelector = SelectAll | Explicit(groupIds: seq<Id>, userIds: seq<Id>)

  datatype RuleProfile = RuleProfile(content: Content, enabled: bool, selector: Option<NormalSelector>)

  function GroupIds(rows: seq<Assignment>): seq<Id> {
    if rows == [] then [] else (if rows[0].GroupRow? then [rows[0].id] else []) + GroupIds(rows[1..])
  }

  function UserIds(rows: seq<Assignment>): seq<Id> {
    if rows == [] then [] else (if rows[0].UserRow? then [rows[0].id] else []) + UserIds(rows[1..])
  }

  // What the rows select; a rule all of whose principals were deleted selects nothing at all.
  function SelectorView(rows: seq<Assignment>): Option<NormalSelector> {
    if AllRow in rows then Some(SelectAll)
    else if GroupIds(rows) == [] && UserIds(rows) == [] then None
    else Some(Explicit(Sort(GroupIds(rows)), Sort(UserIds(rows))))
  }

  function ProjectRule(row: RuleRow): RuleProfile {
    RuleProfile(row.content, row.enabled, SelectorView(row.assignments))
  }

  function EvaluatorSelector(selector: Option<NormalSelector>): P.Selector {
    match selector
    case None => P.Principals([], [])
    case Some(SelectAll) => P.AllPrincipals
    case Some(Explicit(groups, users)) =>
      if groups != [] && users != [] then P.Principals(groups, users)
      else if groups != [] then P.Groups(groups)
      else P.Users(users)
  }

  function SnapshotRule(row: RuleRow): P.Rule {
    P.Rule(row.id, row.content.effect, row.content.priority, row.enabled, row.content.methods, row.content.hosts,
           row.content.paths, EvaluatorSelector(SelectorView(row.assignments)))
  }

  function GroupRows(groups: seq<Id>): seq<Assignment> {
    if groups == [] then [] else [GroupRow(groups[0])] + GroupRows(groups[1..])
  }

  function UserRows(users: seq<Id>): seq<Assignment> {
    if users == [] then [] else [UserRow(users[0])] + UserRows(users[1..])
  }

  function AssignmentRows(selector: Option<NormalSelector>): seq<Assignment> {
    match selector
    case None => []
    case Some(SelectAll) => [AllRow]
    case Some(Explicit(groups, users)) => GroupRows(groups) + UserRows(users)
  }

  // ---------- documents ----------

  datatype SelectorInput =
    | AllInput
    | GroupsInput(groupIds: seq<Id>)
    | UsersInput(userIds: seq<Id>, directAssignmentConfirmed: bool)
    | PrincipalsInput(groupIds: seq<Id>, userIds: seq<Id>, directAssignmentConfirmed: bool)

  datatype DocumentRule = DocumentRule(content: Content, enabled: bool, selector: Option<SelectorInput>)

  function DocumentRuleOf(rule: RuleProfile): DocumentRule {
    DocumentRule(rule.content, rule.enabled,
      match rule.selector
      case None => None
      case Some(SelectAll) => Some(AllInput)
      case Some(Explicit(groups, users)) => Some(PrincipalsInput(groups, users, users != [])))
  }

  function CheckedIds(ids: seq<Id>, allowEmpty: bool): Option<seq<Id>> {
    if |ids| > MAX_SELECTOR_IDS || (!allowEmpty && ids == []) || !Distinct(ids) then None else Some(Sort(ids))
  }

  function ExplicitSelector(groups: seq<Id>, users: seq<Id>): Option<NormalSelector> {
    if groups == [] && users == [] then None else Some(Explicit(groups, users))
  }

  function NormalizeSelector(input: SelectorInput): Option<NormalSelector> {
    match input
    case AllInput => Some(SelectAll)
    case GroupsInput(groups) =>
      var gs := CheckedIds(groups, false);
      if gs.None? then None else ExplicitSelector(gs.value, [])
    case UsersInput(users, confirmed) =>
      var us := CheckedIds(users, false);
      if us.None? || confirmed != (us.value != []) then None else ExplicitSelector([], us.value)
    case PrincipalsInput(groups, users, confirmed) =>
      var gs, us := CheckedIds(groups, true), CheckedIds(users, true);
      if gs.None? || us.None? || confirmed != (us.value != []) then None else ExplicitSelector(gs.value, us.value)
  }

  // The checks of names, matchers and safeguards; refused content has no normal form.
  type Normalizer = Content -> Option<Content>

  function RuleBody(normal: Normalizer, rule: DocumentRule): Option<RuleProfile> {
    var content := normal(rule.content);
    var selector := if rule.selector.None? then None else NormalizeSelector(rule.selector.value);
    if content.None? || (rule.selector.Some? && selector.None?) || (rule.enabled && selector.None?) then None
    else Some(RuleProfile(content.value, rule.enabled, selector))
  }

  function CopyDocument(rules: seq<RuleRow>): seq<DocumentRule> {
    Map(rules, (row: RuleRow) => DocumentRuleOf(ProjectRule(row)))
  }

  function CopyProfiles(normal: Normalizer, document: seq<DocumentRule>): Option<seq<RuleProfile>> {
    if document == [] then Some([])
    else
      var n := |document| - 1;
      var front, last := CopyProfiles(normal, document[..n]), RuleBody(normal, document[n]);
      if front.None? || last.None? then None else Some(front.value + [last.value])
  }

  // ---------- copying is faithful to stored rules ----------

  // Rows as stored: the content is in normal form, and what they select is within the selector's limits.
  predicate Stored(normal: Normalizer, row: RuleRow) {
    && normal(row.content) == Some(row.content)
    && Distinct(GroupIds(row.assignments)) && Distinct(UserIds(row.assignments))
    && |GroupIds(row.assignments)| <= MAX_SELECTOR_IDS && |UserIds(row.assignments)| <= MAX_SELECTOR_IDS
  }

  // An enabled rule can lose its last principal to a deletion.
  predicate Selects(row: RuleRow) { row.enabled ==> SelectorView(row.assignments).Some? }

  lemma {:induction false} SortSize(s: seq<nat>)
    ensures |Sort(s)| == |s|
  {
    if s != [] {
      SortSize(s[1..]);
      InsertSize(s[0], Sort(s[1..]));
    }
  }

  lemma {:induction false} InsertSize(x: nat, s: seq<nat>)
    ensures |Insert(x, s)| == |s| + 1
  {
    if s != [] && x > s[0] { InsertSize(x, s[1..]); }
  }

  lemma SortTwice(s: seq<nat>)
    requires Distinct(s)
    ensures Sort(Sort(s)) == Sort(s)
  {
    SortKeepsDistinct(s);
    SortKeepsDistinct(Sort(s));
    StrictIsUnique(Sort(Sort(s)), Sort(s));
  }

  lemma CheckedSorted(ids: seq<Id>)
    requires Distinct(ids) && |ids| <= MAX_SELECTOR_IDS
    ensures CheckedIds(Sort(ids), true) == Some(Sort(ids))
  {
    SortSize(ids);
    SortKeepsDistinct(ids);
    SortTwice(ids);
  }

  /** Parsing the document of a stored rule gives the rule back exactly when the rule is disabled or
      still selects someone, and is refused otherwise. */
  lemma RuleCopiesIff(normal: Normalizer, row: RuleRow)
    requires Stored(normal, row)
    ensures RuleBody(normal, DocumentRuleOf(ProjectRule(row))) == if Selects(row) then Some(ProjectRule(row)) else None
  {
    var view := SelectorView(row.assignments);
    if view.Some? && view.value.Explicit? {
      SelectorNormalizes(GroupIds(row.assignments), UserIds(row.assignments));
    }
  }

  lemma SelectorNormalizes(groups: seq<Id>, users: seq<Id>)
    requires Distinct(groups) && Distinct(users) && |groups| <= MAX_SELECTOR_IDS && |users| <= MAX_SELECTOR_IDS
    requires groups != [] || users != []
    ensures NormalizeSelector(PrincipalsInput(Sort(groups), Sort(users), Sort(users) != []))
            == Some(Explicit(Sort(groups), Sort(users)))
  {
    CheckedSorted(groups);
    CheckedSorted(users);
    SortSize(groups);
    SortSize(users);
  }

  predicate AllSelect(rules: seq<RuleRow>) { forall i | 0 <= i < |rules| :: Selects(rules[i]) }

  function ProjectRules(rules: seq<RuleRow>): seq<RuleProfile> { Map(rules, (row: RuleRow) => ProjectRule(row)) }

  lemma DocumentFront(rules: seq<RuleRow>, n: nat)
    requires |rules| == n + 1
    ensures CopyDocument(rules)[..n] == CopyDocument(rules[..n])
            && CopyDocument(rules)[n] == DocumentRuleOf(ProjectRule(rules[n]))
  {
  }

  lemma ProjectionFront(rules: seq<RuleRow>, n: nat)
    requires |rules| == n + 1
    ensures ProjectRules(rules) == ProjectRules(rules[..n]) + [ProjectRule(rules[n])]
    ensures AllSelect(rules) <==> AllSelect(rules[..n]) && Selects(rules[n])
  {
  }

  /** Copying out and parsing back is the identity on stored rules, or is refused because an enabled rule
      has lost its last principal. */
  lemma {:induction false} CopyIsIdentityIff(normal: Normalizer, rules: seq<RuleRow>)
    requires forall i | 0 <= i < |rules| :: Stored(normal, rules[i])
    ensures CopyProfiles(normal, CopyDocument(rules)) == if AllSelect(rules) then Some(ProjectRules(rules)) else None
    decreases |rules|
  {
    if rules != [] {
      var n := |rules| - 1;
      CopyIsIdentityIff(normal, rules[..n]);
      RuleCopiesIff(normal, rules[n]);
      DocumentFront(rules, n);
      ProjectionFront(rules, n);
    }
  }

  /** Such a rule exists: the last user of an enabled rule is deleted, and the policy can no longer be
      copied although it still evaluates, as a rule for nobody. */
  lemma OrphanedRuleIsNotCopied(normal: Normalizer, row: RuleRow, subject: Id, groups: seq<Id>)
    requires Stored(normal, row) && row.enabled && row.assignments == []
    ensures CopyProfiles(normal, CopyDocument([row])) == None
    ensures !P.SelectorApplies(SnapshotRule(row).selector, subject, groups)
  {
    CopyIsIdentityIff(normal, [row]);
    assert !Selects([row][0]);
  }

  // ---------- writing rules back ----------

  lemma {:induction false} IdsOfUserRows(users: seq<Id>)
    ensures UserIds(UserRows(users)) == users && GroupIds(UserRows(users)) == [] && AllRow !in UserRows(users)
  {
    if users != [] {
      IdsOfUserRows(users[1..]);
      assert UserRows(users)[1..] == UserRows(users[1..]);
    }
  }

  lemma {:induction false} IdsOfRows(groups: seq<Id>, users: seq<Id>)
    ensures GroupIds(GroupRows(groups) + UserRows(users)) == groups
            && UserIds(GroupRows(groups) + UserRows(users)) == users
    ensures AllRow !in GroupRows(groups) + UserRows(users)
    decreases |groups|
  {
    IdsOfUserRows(users);
    var rows := GroupRows(groups) + UserRows(users);
    if groups == [] {
      assert rows == UserRows(users);
    } else {
      IdsOfRows(groups[1..], users);
      assert rows[1..] == GroupRows(groups[1..]) + UserRows(users);
      assert rows == [rows[0]] + rows[1..];
    }
  }

  /** Writing what rows select and reading it back selects the same. */
  lemma ViewOfRewritten(rows: seq<Assignment>)
    requires Distinct(GroupIds(rows)) && Distinct(UserIds(rows))
    ensures SelectorView(AssignmentRows(SelectorView(rows))) == SelectorView(rows)
  {
    var view := SelectorView(rows);
    if view.Some? && view.value.Explicit? {
      var groups, users := view.value.groupIds, view.value.userIds;
      SortTwice(GroupIds(rows));
      SortTwice(UserIds(rows));
      SortSize(GroupIds(rows));
      SortSize(UserIds(rows));
      ViewOfExplicit(groups, users);
    }
  }

  lemma ViewOfExplicit(groups: seq<Id>, users: seq<Id>)
    requires Sort(groups) == groups && Sort(users) == users && (groups != [] || users != [])
    ensures SelectorView(AssignmentRows(Some(Explicit(groups, users)))) == Some(Explicit(groups, users))
  {
    IdsOfRows(groups, users);
  }

  lemma {:induction false} InGroupIds(rows: seq<Assignment>, id: Id)
    ensures id in GroupIds(rows) <==> GroupRow(id) in rows
    ensures id in UserIds(rows) <==> UserRow(id) in rows
  {
    if rows != [] {
      InGroupIds(rows[1..], id);
      assert forall row :: row in rows <==> row == rows[0] || row in rows[1..] by {
        assert rows == [rows[0]] + rows[1..];
      }
    }
  }

  // Whom a selector applies to, by the ids it names.
  lemma SelectorByIds(selector: Option<NormalSelector>, subject: Id, groups: seq<Id>)
    ensures P.SelectorApplies(EvaluatorSelector(selector), subject, groups) <==>
      selector.Some? && (selector.value.SelectAll? || subject in selector.value.userIds
                         || exists g | g in groups :: g in selector.value.groupIds)
  {
  }

  lemma SomeGroup(rows: seq<Assignment>, groups: seq<Id>)
    ensures (exists g | g in groups :: g in Sort(GroupIds(rows))) <==> exists g | g in groups :: GroupRow(g) in rows
  {
    forall g: Id ensures g in GroupIds(rows) <==> GroupRow(g) in rows { InGroupIds(rows, g); }
  }

  /** A stored rule applies to a user exactly when a row selects everyone, the user, or a group the user
      is in. */
  lemma SelectorMeaning(rows: seq<Assignment>, subject: Id, groups: seq<Id>)
    ensures P.SelectorApplies(EvaluatorSelector(SelectorView(rows)), subject, groups) <==>
      AllRow in rows || UserRow(subject) in rows || exists g | g in groups :: GroupRow(g) in rows
  {
    SelectorByIds(SelectorView(rows), subject, groups);
    InGroupIds(rows, subject);
    SomeGroup(rows, groups);
  }
}
