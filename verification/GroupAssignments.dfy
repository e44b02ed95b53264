/** The tables as the source changes them: rows deleted, inserted and updated one statement at a time
    within a transaction. */
module GroupAssignments {
  import opened Common
  import opened AccessState

  class GroupAssignments {
    var users: map<UserId, User>
    var groups: map<GroupId, Group>
    var members: set<(GroupId, UserId)>
    var serviceRows: set<(ServiceId, Principal)>
    var credentialRows: set<(ServiceId, CredentialId, Principal)>
    var services: map<ServiceId, AssignmentState>
    var credentials: map<CredentialId, Credential>
    var events: set<Event>
    var credentialEvents: set<CredentialEvent>

    ghost function Model(): State
      reads this
    {
      State(users, groups, members, serviceRows, credentialRows, services, credentials, events, credentialEvents)
    }

    constructor (s: State)
      ensures Model() == s
    {
      users, groups, members, serviceRows, credentialRows := s.users, s.groups, s.members, s.serviceRows,
        s.credentialRows;
      services, credentials, events, credentialEvents := s.services, s.credentials, s.events, s.credentialEvents;
    }

    // One event for the service, then one for each affected user, all at the new generation.
    method Invalidate(service: ServiceId, affected: set<UserId>, reason: Reason) returns (generation: nat)
      requires service in services
      modifies `services, `events
      ensures Model() == Invalidated(old(Model()), service, affected, reason)
      ensures generation == services[service].generation == old(services)[service].generation + 1
    {
      generation := services[service].generation + 1;
      services := services[service := AssignmentState(generation, services[service].version + 1)];
      events := events + {Event(service, None, generation, reason)};
      AnnounceUsers(service, affected, generation, reason);
      assert events == old(events) + EventsFor(service, affected, generation, reason);
    }

    method AnnounceUsers(service: ServiceId, affected: set<UserId>, generation: nat, reason: Reason)
      modifies `events
      ensures events == old(events) + set u | u in affected :: Event(service, Some(u), generation, reason)
    {
      var todo := affected;
      while todo != {}
        invariant todo <= affected
        invariant events == old(events) + set u | u in affected - todo :: Event(service, Some(u), generation, reason)
        decreases |todo|
      {
        var u :| u in todo;
        events := events + {Event(service, Some(u), generation, reason)};
        todo := todo - {u};
      }
    }

    method ArchiveGroup(service: ServiceId, g: GroupId, version: nat) returns (r: Option<Error>)
      modifies this
      ensures r.None? ==> AccessState.ArchiveGroup(old(Model()), service, g, version) == Success(Model())
      ensures r.Some? ==> AccessState.ArchiveGroup(old(Model()), service, g,
                                                   version) == Failure(r.value) && Model() == old(Model())
    {
      if service !in services || g !in groups || groups[g].service != service { return Some(NotFound); }
      if !groups[g].active { return Some(Conflict); }
      if groups[g].version != version { return Some(Stale); }
      var affected: set<UserId> := {};
      if (service, InGroup(g)) in serviceRows { affected := ListActiveMembers(g); }
      serviceRows := serviceRows - {(service, InGroup(g))};
      groups := groups[g := groups[g].(active := false, version := groups[g].version + 1)];
      var _ := Invalidate(service, affected, GroupArchive);
      r := None;
    }

    method ListActiveMembers(g: GroupId) returns (found: set<UserId>)
      ensures found == ActiveMembers(Model(), g)
    {
      found := set u | u in users && (g, u) in members && users[u].ordinary && users[u].active;
    }

    method DeleteGroup(service: ServiceId, g: GroupId, version: nat) returns (r: Option<Error>)
      modifies this
      ensures r.None? ==> AccessState.DeleteGroup(old(Model()), service, g, version) == Success(Model())
      ensures r.Some? ==> AccessState.DeleteGroup(old(Model()), service, g,
                                                  version) == Failure(r.value) && Model() == old(Model())
    {
      if service !in services || g !in groups || groups[g].service != service { return Some(NotFound); }
      if groups[g].active { return Some(Conflict); }
      if groups[g].version != version { return Some(Stale); }
      groups := groups - {g};
      members := set m | m in members && m.0 != g;
      serviceRows := serviceRows - {(service, InGroup(g))};
      credentialRows := set row | row in credentialRows && !(row.0 == service && row.2 == InGroup(g));
      var _ := Invalidate(service, {}, GroupDelete);
      r := None;
    }

    method ReplaceMembers(service: ServiceId, g: GroupId, version: nat, userIds: seq<UserId>) returns (r: Option<Error>)
      modifies this
      ensures r.None? ==> AccessState.ReplaceMembers(old(Model()), service, g, version, userIds) == Success(Model())
      ensures r.Some? ==>
        AccessState.ReplaceMembers(old(Model()), service, g, version, userIds) == Failure(r.value)
          && Model() == old(Model())
    {
      if service !in services || g !in groups || groups[g].service != service { return Some(NotFound); }
      if !groups[g].active { return Some(Conflict); }
      if groups[g].version != version { return Some(Stale); }
      if exists u | u in userIds :: u !in users || !users[u].ordinary || !users[u].active { return Some(NotFound); }
      var before := set m | m in members && m.0 == g :: m.1;
      var wanted := set u | u in userIds;
      var added, removed := wanted - before, before - wanted;
      InsertMembers(g, userIds);
      groups := groups[g := groups[g].(version := groups[g].version + 1)];
      assert Model() == WithMembers(old(Model()), g, userIds);
      assert removed + added == SymmetricDifference(Members(old(Model()), g), SetOf(userIds));
      if (added != {} || removed != {}) && (service, InGroup(g)) in serviceRows {
        var _ := Invalidate(service, removed + added, GroupMembership);
      }
      r := None;
    }

    method InsertMembers(g: GroupId, userIds: seq<UserId>)
      modifies `members
      ensures members == (set m | m in old(members) && m.0 != g) + set u | u in userIds :: (g, u)
    {
      members := set m | m in members && m.0 != g;
      ghost var others := members;
      for k := 0 to |userIds|
        invariant members == others + set u | u in userIds[..k] :: (g, u)
      {
        assert userIds[..k + 1] == userIds[..k] + [userIds[k]];
        members := members + {(g, userIds[k])};
      }
      assert userIds[..|userIds|] == userIds;
    }

    method ReplaceAssignments(service: ServiceId, version: nat, selector: Selector) returns (r: Option<Error>)
      modifies this
      ensures r.None? ==> AccessState.ReplaceAssignments(old(Model()), service, version, selector) == Success(Model())
      ensures r.Some? ==>
        AccessState.ReplaceAssignments(old(Model()), service, version, selector) == Failure(r.value)
          && Model() == old(Model())
    {
      if service !in services { return Some(NotFound); }
      if services[service].version != version { return Some(Stale); }
      var ok := CheckTargets(service, selector);
      if !ok { return Some(NotFound); }
      var before := ListEffectiveUsers(service);
      serviceRows := set row | row in serviceRows && row.0 != service;
      InsertServiceRows(service, selector);
      assert Model() == WithServiceRows(old(Model()), service, selector);
      var after := ListEffectiveUsers(service);
      var _ := Invalidate(service, (before - after) + (after - before), ServiceSelector);
      r := None;
    }

    method CheckTargets(service: ServiceId, selector: Selector) returns (ok: bool)
      ensures ok == TargetsOk(Model(), service, selector)
    {
      if selector.All? { return true; }
      ok := (forall g | g in selector.groupIds :: g in groups && groups[g].service == service && groups[g].active)
            && (forall u | u in selector.userIds :: u in users && users[u].ordinary && users[u].active);
    }

    method InsertServiceRows(service: ServiceId, selector: Selector)
      modifies `serviceRows
      ensures serviceRows == old(serviceRows) + set p | p in Principals(selector) :: (service, p)
    {
      if selector.All? {
        serviceRows := serviceRows + {(service, Everyone)};
        return;
      }
      for k := 0 to |selector.groupIds|
        invariant serviceRows == old(serviceRows) + set g | g in selector.groupIds[..k] :: (service, InGroup(g))
      {
        assert selector.groupIds[..k + 1] == selector.groupIds[..k] + [selector.groupIds[k]];
        serviceRows := serviceRows + {(service, InGroup(selector.groupIds[k]))};
      }
      assert selector.groupIds[..|selector.groupIds|] == selector.groupIds;
      ghost var grouped := serviceRows;
      for k := 0 to |selector.userIds|
        invariant serviceRows == grouped + set u | u in selector.userIds[..k] :: (service, Direct(u))
      {
        assert selector.userIds[..k + 1] == selector.userIds[..k] + [selector.userIds[k]];
        serviceRows := serviceRows + {(service, Direct(selector.userIds[k]))};
      }
      assert selector.userIds[..|selector.userIds|] == selector.userIds;
      assert (set p | p in Principals(selector) :: (service, p)) ==
        (set g | g in selector.groupIds :: (service, InGroup(g))) + (set u | u in selector.userIds ::
                                                                     (service, Direct(u)));
    }

    // Looks at each user in turn.
    method ListEffectiveUsers(service: ServiceId) returns (found: set<UserId>)
      ensures found == EffectiveUserIds(Model(), service)
    {
      found := {};
      var todo := users.Keys;
      while todo != {}
        invariant todo <= users.Keys
        invariant found == set u | u in users.Keys - todo && ServiceAuthorizes(Model(), service, u)
        decreases |todo|
      {
        var u :| u in todo;
        todo := todo - {u};
        if users[u].ordinary && users[u].active
           && ((service, Everyone) in serviceRows || (service, Direct(u)) in serviceRows
               || exists g | g in groups :: (service, InGroup(g)) in serviceRows && groups[g].service == service
                                            && groups[g].active && (g, u) in members)
        {
          found := found + {u};
        }
      }
    }

    method InvalidateCredential(c: CredentialId, affected: set<UserId>)
      requires c in credentials
      modifies `credentials, `credentialEvents
      ensures Model() == CredentialInvalidated(old(Model()), c, affected)
    {
      var next := credentials[c].(generation := credentials[c].generation + 1, version := credentials[c].version + 1);
      credentials := credentials[c := next];
      credentialEvents := credentialEvents + {CredentialEvent(c, None, next.generation, CredentialSelector)};
      ghost var dated := credentialEvents;
      var todo := affected;
      while todo != {}
        invariant todo <= affected && credentials == old(credentials)[c := next]
        invariant credentialEvents == dated + set u | u in affected - todo ::
                  CredentialEvent(c, Some(u), next.generation, CredentialSelector)
        decreases |todo|
      {
        var u :| u in todo;
        credentialEvents := credentialEvents + {CredentialEvent(c, Some(u), next.generation, CredentialSelector)};
        todo := todo - {u};
      }
      assert credentialEvents == old(credentialEvents) + CredentialEventsFor(c, affected, next.generation);
    }

    method ReplaceCredentialAssignments(service: ServiceId, c: CredentialId, version: nat, selector: Selector)
      returns (r: Option<Error>)
      modifies this
      ensures r.None? ==> AccessState.ReplaceCredentialAssignments(old(Model()), service, c, version,
                                                                   selector) == Success(Model())
      ensures r.Some? ==>
        AccessState.ReplaceCredentialAssignments(old(Model()), service, c, version, selector) == Failure(r.value)
          && Model() == old(Model())
    {
      if c !in credentials || credentials[c].service != service { return Some(NotFound); }
      if !credentials[c].mutable { return Some(Conflict); }
      if credentials[c].version != version { return Some(Stale); }
      if selector.Explicit? && |selector.groupIds| + |selector.userIds| > MAX_SELECTORS { return Some(Conflict); }
      var ok := CheckTargets(service, selector);
      if !ok { return Some(NotFound); }
      var before := ListCredentialUsers(service, c);
      credentialRows := set row | row in credentialRows && row.1 != c;
      InsertCredentialRows(service, c, selector);
      assert Model() == WithCredentialRows(old(Model()), service, c, selector);
      var after := ListCredentialUsers(service, c);
      InvalidateCredential(c, (before - after) + (after - before));
      r := None;
    }

    method InsertCredentialRows(service: ServiceId, c: CredentialId, selector: Selector)
      modifies `credentialRows
      ensures credentialRows == old(credentialRows) + set p | p in Principals(selector) :: (service, c, p)
    {
      if selector.All? {
        credentialRows := credentialRows + {(service, c, Everyone)};
        return;
      }
      for k := 0 to |selector.groupIds|
        invariant credentialRows == old(credentialRows) + set g | g in selector.groupIds[..k] ::
                  (service, c, InGroup(g))
      {
        assert selector.groupIds[..k + 1] == selector.groupIds[..k] + [selector.groupIds[k]];
        credentialRows := credentialRows + {(service, c, InGroup(selector.groupIds[k]))};
      }
      assert selector.groupIds[..|selector.groupIds|] == selector.groupIds;
      ghost var grouped := credentialRows;
      for k := 0 to |selector.userIds|
        invariant credentialRows == grouped + set u | u in selector.userIds[..k] :: (service, c, Direct(u))
      {
        assert selector.userIds[..k + 1] == selector.userIds[..k] + [selector.userIds[k]];
        credentialRows := credentialRows + {(service, c, Direct(selector.userIds[k]))};
      }
      assert selector.userIds[..|selector.userIds|] == selector.userIds;
      assert (set p | p in Principals(selector) :: (service, c, p)) ==
        (set g | g in selector.groupIds :: (service, c, InGroup(g))) + (set u | u in selector.userIds ::
                (service, c, Direct(u)));
    }

    method ListCredentialUsers(service: ServiceId, c: CredentialId) returns (found: set<UserId>)
      ensures found == EffectiveCredentialUsers(Model(), service, c)
    {
      var authorized := ListEffectiveUsers(service);
      found := {};
      var todo := authorized;
      while todo != {}
        invariant todo <= authorized
        invariant found == set u | u in authorized - todo && ListedByCredential(Model(), c, u)
        decreases |todo|
      {
        var u :| u in todo;
        todo := todo - {u};
        var listed := IsListed(c, u);
        if listed { found := found + {u}; }
      }
    }

    method IsListed(c: CredentialId, u: UserId) returns (listed: bool)
      ensures listed == ListedByCredential(Model(), c, u)
    {
      listed := exists row | row in credentialRows && row.1 == c ::
        match row.2
        case Everyone => true
        case Direct(v) => v == u
        case InGroup(g) => g in groups && groups[g].service == row.0 && groups[g].active && (g, u) in members;
    }
  }
}
