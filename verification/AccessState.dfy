/** Users, service groups and the selectors of services and credentials: who may use what, and the
    transactions that change it. Each transaction either applies as a whole or fails and changes nothing. */
module AccessState {
  import opened Common

  type UserId = nat
  type GroupId = nat
  type ServiceId = nat
  type CredentialId = nat

  datatype User = User(ordinary: bool, active: bool)
  datatype Group = Group(service: ServiceId, active: bool, version: nat)
  datatype Principal = Everyone | InGroup(group: GroupId) | Direct(user: UserId)

  const MAX_SELECTORS: nat := 1000

  // A selector in normal form, as requests carry it.
  datatype Selector = All | Explicit(groupIds: seq<GroupId>, userIds: seq<UserId>)

  datatype Reason = ServiceSelector | GroupMembership | GroupArchive | GroupDelete | CredentialSelector

  // An invalidation; without a user it is for the service or credential as a whole.
  datatype Event = Event(service: ServiceId, user: Option<UserId>, generation: nat, reason: Reason)
  datatype CredentialEvent = CredentialEvent(credential: CredentialId, user: Option<UserId>, generation: nat,
                                             reason: Reason)

  datatype AssignmentState = AssignmentState(generation: nat, version: nat)
  datatype Credential = Credential(service: ServiceId, generation: nat, version: nat, mutable: bool)

  datatype State = State(
    users: map<UserId, User>,
    groups: map<GroupId, Group>,
    members: set<(GroupId, UserId)>,
    serviceRows: set<(ServiceId, Principal)>,
    credentialRows: set<(ServiceId, CredentialId, Principal)>,
    services: map<ServiceId, AssignmentState>,
    credentials: map<CredentialId, Credential>,
    events: set<Event>,
    credentialEvents: set<CredentialEvent>)

  datatype Error = NotFound | Conflict | Stale

  // ---------- effective access ----------

  predicate Ordinary(s: State, u: UserId) { u in s.users && s.users[u].ordinary && s.users[u].active }

  // The group's rows join to it only within its own service.
  predicate GroupGrants(s: State, service: ServiceId, g: GroupId, u: UserId) {
    g in s.groups && s.groups[g].service == service && s.groups[g].active && (g, u) in s.members
  }

  predicate ServiceSelects(s: State, service: ServiceId, u: UserId) {
    || (service, Everyone) in s.serviceRows
    || (service, Direct(u)) in s.serviceRows
    || exists g | g in s.groups :: (service, InGroup(g)) in s.serviceRows && GroupGrants(s, service, g, u)
  }

  predicate ServiceAuthorizes(s: State, service: ServiceId, u: UserId) {
    Ordinary(s, u) && ServiceSelects(s, service, u)
  }

  function EffectiveUserIds(s: State, service: ServiceId): set<UserId> {
    set u | u in s.users && ServiceAuthorizes(s, service, u)
  }

  predicate CredentialSelectorAuthorizes(s: State, service: ServiceId, c: CredentialId, u: UserId) {
    || (service, c, Everyone) in s.credentialRows
    || (service, c, Direct(u)) in s.credentialRows
    || exists g | g in s.groups :: (service, c, InGroup(g)) in s.credentialRows && GroupGrants(s, service, g, u)
  }

  // The listing query looks rows up by credential alone.
  predicate ListedByCredential(s: State, c: CredentialId, u: UserId) {
    exists row | row in s.credentialRows && row.1 == c ::
      match row.2
      case Everyone => true
      case Direct(v) => v == u
      case InGroup(g) => GroupGrants(s, row.0, g, u)
  }

  function EffectiveCredentialUsers(s: State, service: ServiceId, c: CredentialId): set<UserId> {
    set u | u in s.users && ServiceAuthorizes(s, service, u) && ListedByCredential(s, c, u)
  }

  function SymmetricDifference(a: set<UserId>, b: set<UserId>): set<UserId> { (a - b) + (b - a) }

  // ---------- invalidation ----------

  function EventsFor(service: ServiceId, affected: set<UserId>, generation: nat, reason: Reason): set<Event> {
    {Event(service, None, generation, reason)} + set u | u in affected :: Event(service, Some(u), generation, reason)
  }

  function Invalidated(s: State, service: ServiceId, affected: set<UserId>, reason: Reason): State
    requires service in s.services
  {
    var next := s.services[service].generation + 1;
    s.(services := s.services[service := AssignmentState(next, s.services[service].version + 1)],
       events := s.events + EventsFor(service, affected, next, reason))
  }

  function CredentialEventsFor(c: CredentialId, affected: set<UserId>, generation: nat): set<CredentialEvent> {
    {CredentialEvent(c, None, generation, CredentialSelector)}
    + set u | u in affected :: CredentialEvent(c, Some(u), generation, CredentialSelector)
  }

  function CredentialInvalidated(s: State, c: CredentialId, affected: set<UserId>): State
    requires c in s.credentials
  {
    var now := s.credentials[c];
    s.(credentials := s.credentials[c := now.(generation := now.generation + 1, version := now.version + 1)],
       credentialEvents := s.credentialEvents + CredentialEventsFor(c, affected, now.generation + 1))
  }

  // ---------- transactions ----------

  predicate Selected(s: State, service: ServiceId, g: GroupId) { (service, InGroup(g)) in s.serviceRows }

  function ActiveMembers(s: State, g: GroupId): set<UserId> {
    set u | u in s.users && (g, u) in s.members && Ordinary(s, u)
  }

  function ArchiveGroup(s: State, service: ServiceId, g: GroupId, version: nat): Result<State, Error> {
    if service !in s.services || g !in s.groups || s.groups[g].service != service then Failure(NotFound)
    else if !s.groups[g].active then Failure(Conflict)
    else if s.groups[g].version != version then Failure(Stale)
    else
      var affected := if Selected(s, service, g) then ActiveMembers(s, g) else {};
      Success(Invalidated(Archived(s, service, g), service, affected, GroupArchive))
  }

  // Archiving drops the service's selection of the group; credential selectors keep naming it.
  function Archived(s: State, service: ServiceId, g: GroupId): State
    requires g in s.groups
  {
    s.(serviceRows := s.serviceRows - {(service, InGroup(g))},
       groups := s.groups[g := s.groups[g].(active := false, version := s.groups[g].version + 1)])
  }

  function DeleteGroup(s: State, service: ServiceId, g: GroupId, version: nat): Result<State, Error> {
    if service !in s.services || g !in s.groups || s.groups[g].service != service then Failure(NotFound)
    else if s.groups[g].active then Failure(Conflict)
    else if s.groups[g].version != version then Failure(Stale)
    else Success(Invalidated(Deleted(s, service, g), service, {}, GroupDelete))
  }

  // Memberships and the group's rows in its service go with it.
  function Deleted(s: State, service: ServiceId, g: GroupId): State {
    s.(groups := s.groups - {g},
       members := (set m | m in s.members && m.0 != g),
       serviceRows := s.serviceRows - {(service, InGroup(g))},
       credentialRows := set row | row in s.credentialRows && !(row.0 == service && row.2 == InGroup(g)))
  }

  function Members(s: State, g: GroupId): set<UserId> { set m | m in s.members && m.0 == g :: m.1 }

  function WithMembers(s: State, g: GroupId, userIds: seq<UserId>): State
    requires g in s.groups
  {
    s.(members := (set m | m in s.members && m.0 != g) + (set u | u in userIds :: (g, u)),
       groups := s.groups[g := s.groups[g].(version := s.groups[g].version + 1)])
  }

  function SetOf(ids: seq<nat>): set<nat> { set u | u in ids }

  function ReplaceMembers(s: State, service: ServiceId, g: GroupId, version: nat, userIds: seq<UserId>)
    : Result<State, Error>
  {
    if service !in s.services || g !in s.groups || s.groups[g].service != service then Failure(NotFound)
    else if !s.groups[g].active then Failure(Conflict)
    else if s.groups[g].version != version then Failure(Stale)
    else if exists u | u in userIds :: !Ordinary(s, u) then Failure(NotFound)
    else
      var changed := SymmetricDifference(Members(s, g), SetOf(userIds));
      var t := WithMembers(s, g, userIds);
      if changed != {} && Selected(s, service, g) then
        Success(Invalidated(t, service, changed, GroupMembership)) else Success(t)
  }

  // Targets a selector may name: active groups of the service and active ordinary users.
  predicate TargetsOk(s: State, service: ServiceId, selector: Selector) {
    selector.Explicit? ==>
      && (forall g | g in selector.groupIds :: g in s.groups && s.groups[g].service == service && s.groups[g].active)
      && (forall u | u in selector.userIds :: Ordinary(s, u))
  }

  function Principals(selector: Selector): set<Principal> {
    match selector
    case All => {Everyone}
    case Explicit(groups, users) => (set g | g in groups :: InGroup(g)) + (set u | u in users :: Direct(u))
  }

  function WithServiceRows(s: State, service: ServiceId, selector: Selector): State {
    s.(serviceRows := (set row | row in s.serviceRows
                       && row.0 != service) + (set p | p in Principals(selector) :: (service, p)))
  }

  function ReplaceAssignments(s: State, service: ServiceId, version: nat, selector: Selector): Result<State, Error> {
    if service !in s.services then Failure(NotFound)
    else if s.services[service].version != version then Failure(Stale)
    else if !TargetsOk(s, service, selector) then Failure(NotFound)
    else
      var t := WithServiceRows(s, service, selector);
      Success(Invalidated(t, service, SymmetricDifference(EffectiveUserIds(s, service), EffectiveUserIds(t, service)),
                          ServiceSelector))
  }

  function WithCredentialRows(s: State, service: ServiceId, c: CredentialId, selector: Selector): State {
    s.(credentialRows := (set row | row in s.credentialRows
                          && row.1 != c) + (set p | p in Principals(selector) :: (service, c, p)))
  }

  function ReplaceCredentialAssignments(s: State, service: ServiceId, c: CredentialId, version: nat, selector: Selector)
    : Result<State, Error>
  {
    if c !in s.credentials || s.credentials[c].service != service then Failure(NotFound)
    else if !s.credentials[c].mutable then Failure(Conflict)
    else if s.credentials[c].version != version then Failure(Stale)
    else if selector.Explicit? && |selector.groupIds| + |selector.userIds| > MAX_SELECTORS then Failure(Conflict)
    else if !TargetsOk(s, service, selector) then Failure(NotFound)
    else
      var t := WithCredentialRows(s, service, c, selector);
      Success(CredentialInvalidated(t, c,
        SymmetricDifference(EffectiveCredentialUsers(s, service, c), EffectiveCredentialUsers(t, service, c))))
  }
}
