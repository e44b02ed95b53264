/** Every change of who may use a service or a credential is announced at a new generation. */
module AccessInvalidation {
  import opened Common
  import opened AccessState

  // ---------- the listing and the two checks agree ----------

  // A credential's rows carry its own service, as the foreign key demands.
  predicate RowsBelong(s: State) {
    forall row | row in s.credentialRows :: row.1 in s.credentials && s.credentials[row.1].service == row.0
  }

  /** The users listed for a credential are those who pass both the service's check and the credential's. */
  lemma EffectiveIffBothAuthorize(s: State, service: ServiceId, c: CredentialId, u: UserId)
    requires RowsBelong(s) && c in s.credentials && s.credentials[c].service == service
    ensures u in EffectiveCredentialUsers(s, service, c) <==>
      ServiceAuthorizes(s, service, u) && CredentialSelectorAuthorizes(s, service, c, u)
  {
    if ListedByCredential(s, c, u) {
      var row :| row in s.credentialRows && row.1 == c &&
        match row.2
        case Everyone => true
        case Direct(v) => v == u
        case InGroup(g) => GroupGrants(s, row.0, g, u);
      assert row == (service, c, row.2);
    }
    if CredentialSelectorAuthorizes(s, service, c, u) {
      if g :| g in s.groups && (service, c, InGroup(g)) in s.credentialRows && GroupGrants(s, service, g, u) {
        assert (service, c, InGroup(g)).1 == c;
      } else if (service, c, Everyone) in s.credentialRows {
        assert (service, c, Everyone).1 == c;
      } else {
        assert (service, c, Direct(u)).1 == c;
      }
    }
  }

  // ---------- one transaction ----------

  datatype Step =
    | Archive(service: ServiceId, group: GroupId, version: nat)
    | Delete(service: ServiceId, group: GroupId, version: nat)
    | Replace(service: ServiceId, group: GroupId, version: nat, userIds: seq<UserId>)
    | Assign(service: ServiceId, version: nat, selector: Selector)
    | AssignCredential(service: ServiceId, credential: CredentialId, version: nat, selector: Selector)

  function Attempt(s: State, step: Step): Result<State, Error> {
    match step
    case Archive(service, g, version) => ArchiveGroup(s, service, g, version)
    case Delete(service, g, version) => DeleteGroup(s, service, g, version)
    case Replace(service, g, version, userIds) => ReplaceMembers(s, service, g, version, userIds)
    case Assign(service, version, selector) => ReplaceAssignments(s, service, version, selector)
    case AssignCredential(service, c, version, selector) => ReplaceCredentialAssignments(s, service, c, version,
            selector)
  }

  function Apply(s: State, step: Step): State {
    match Attempt(s, step)
    case Success(t) => t
    case Failure(_) => s
  }

  predicate AccessChanges(s: State, t: State, service: ServiceId, u: UserId) {
    ServiceAuthorizes(s, service, u) != ServiceAuthorizes(t, service, u)
  }

  predicate Announced(t: State, service: ServiceId, u: UserId, generation: nat) {
    exists e | e in t.events :: e.service == service && e.user == Some(u) && e.generation == generation
  }

  function Generation(s: State, service: ServiceId): nat {
    if service in s.services then s.services[service].generation else 0
  }

  // The step raised the generation and announced the user at it.
  predicate Covered(s: State, t: State, service: ServiceId, u: UserId) {
    Generation(t, service) > Generation(s, service) && Announced(t, service, u, Generation(t, service))
  }

  lemma InvalidatedCovers(s: State, t: State, service: ServiceId, affected: set<UserId>, reason: Reason, u: UserId)
    requires service in s.services && t.services == s.services && u in affected
    ensures Covered(s, Invalidated(t, service, affected, reason), service, u)
  {
    var next := s.services[service].generation + 1;
    assert Event(service, Some(u), next, reason) in Invalidated(t, service, affected, reason).events;
  }

  // Invalidation itself changes nobody's access.
  lemma InvalidatedKeepsAccess(t: State, service: ServiceId, affected: set<UserId>, reason: Reason, other: ServiceId,
                               u: UserId)
    requires service in t.services
    ensures ServiceAuthorizes(Invalidated(t, service, affected, reason), other, u) <==> ServiceAuthorizes(t, other, u)
  {
    var v := Invalidated(t, service, affected, reason);
    assert forall g :: GroupGrants(v, other, g, u) <==> GroupGrants(t, other, g, u);
  }

  predicate GrantsThrough(s: State, service: ServiceId, g: GroupId, u: UserId) {
    g in s.groups && (service, InGroup(g)) in s.serviceRows && GroupGrants(s, service, g, u)
  }

  // Access differs only where what one group grants differs.
  lemma OnlyOneGroupDiffers(s: State, t: State, service: ServiceId, g: GroupId, u: UserId)
    requires s.users == t.users
    requires (service, Everyone) in s.serviceRows <==> (service, Everyone) in t.serviceRows
    requires (service, Direct(u)) in s.serviceRows <==> (service, Direct(u)) in t.serviceRows
    requires forall o | o != g :: GrantsThrough(s, service, o, u) <==> GrantsThrough(t, service, o, u)
    ensures AccessChanges(s, t, service, u) ==>
              Ordinary(s, u) && GrantsThrough(s, service, g, u) != GrantsThrough(t, service, g, u)
  {
    if AccessChanges(s, t, service, u) {
      if ServiceSelects(s, service, u) {
        var o :| o in s.groups && (service, InGroup(o)) in s.serviceRows && GroupGrants(s, service, o, u);
        assert GrantsThrough(s, service, o, u);
      } else {
        var o :| o in t.groups && (service, InGroup(o)) in t.serviceRows && GroupGrants(t, service, o, u);
        assert GrantsThrough(t, service, o, u);
      }
    }
  }

  lemma ArchiveIsCovered(s: State, service: ServiceId, g: GroupId, version: nat, other: ServiceId, u: UserId)
    requires ArchiveGroup(s, service, g, version).Success?
             && AccessChanges(s, ArchiveGroup(s, service, g, version).value, other, u)
    ensures other == service && Covered(s, ArchiveGroup(s, service, g, version).value, service, u)
  {
    var t := Archived(s, service, g);
    var affected := if Selected(s, service, g) then ActiveMembers(s, g) else {};
    InvalidatedKeepsAccess(t, service, affected, GroupArchive, other, u);
    OnlyOneGroupDiffers(s, t, other, g, u);
    InvalidatedCovers(s, t, service, affected, GroupArchive, u);
  }

  lemma DeleteChangesNothing(s: State, service: ServiceId, g: GroupId, version: nat, other: ServiceId, u: UserId)
    requires DeleteGroup(s, service, g, version).Success?
    ensures !AccessChanges(s, DeleteGroup(s, service, g, version).value, other, u)
  {
    var t := Deleted(s, service, g);
    InvalidatedKeepsAccess(t, service, {}, GroupDelete, other, u);
    OnlyOneGroupDiffers(s, t, other, g, u);
  }

  lemma ReplaceIsCovered(s: State, service: ServiceId, g: GroupId, version: nat, userIds: seq<UserId>,
                         other: ServiceId, u: UserId)
    requires ReplaceMembers(s, service, g, version, userIds).Success?
    requires AccessChanges(s, ReplaceMembers(s, service, g, version, userIds).value, other, u)
    ensures other == service && Covered(s, ReplaceMembers(s, service, g, version, userIds).value, service, u)
  {
    var t := WithMembers(s, g, userIds);
    var changed := SymmetricDifference(Members(s, g), SetOf(userIds));
    InvalidatedKeepsAccess(t, service, changed, GroupMembership, other, u);
    assert forall o | o != g :: (o, u) in s.members <==> (o, u) in t.members;
    OnlyOneGroupDiffers(s, t, other, g, u);
    assert u in Members(s, g) <==> (g, u) in s.members;
    assert u in SetOf(userIds) <==> (g, u) in t.members;
    InvalidatedCovers(s, t, service, changed, GroupMembership, u);
  }

  lemma OtherServicesUntouched(s: State, service: ServiceId, selector: Selector, other: ServiceId, u: UserId)
    ensures other != service ==> !AccessChanges(s, WithServiceRows(s, service, selector), other, u)
  {
    var t := WithServiceRows(s, service, selector);
    assert forall p | other != service :: (other, p) in s.serviceRows <==> (other, p) in t.serviceRows;
    assert forall g :: GroupGrants(s, other, g, u) <==> GroupGrants(t, other, g, u);
  }

  lemma AssignIsCovered(s: State, service: ServiceId, version: nat, selector: Selector, other: ServiceId, u: UserId)
    requires ReplaceAssignments(s, service, version, selector).Success?
    requires AccessChanges(s, ReplaceAssignments(s, service, version, selector).value, other, u)
    ensures other == service && Covered(s, ReplaceAssignments(s, service, version, selector).value, service, u)
  {
    var t := WithServiceRows(s, service, selector);
    var affected := SymmetricDifference(EffectiveUserIds(s, service), EffectiveUserIds(t, service));
    InvalidatedKeepsAccess(t, service, affected, ServiceSelector, other, u);
    OtherServicesUntouched(s, service, selector, other, u);
    assert other == service;
    InvalidatedCovers(s, t, service, affected, ServiceSelector, u);
  }

  lemma CredentialStepKeepsAccess(s: State, service: ServiceId, c: CredentialId, version: nat, selector: Selector,
                                  other: ServiceId, u: UserId)
    requires ReplaceCredentialAssignments(s, service, c, version, selector).Success?
    ensures !AccessChanges(s, ReplaceCredentialAssignments(s, service, c, version, selector).value, other, u)
  {
    var t := ReplaceCredentialAssignments(s, service, c, version, selector).value;
    assert forall g :: GroupGrants(s, other, g, u) <==> GroupGrants(t, other, g, u);
  }

  /** Every transaction that changes anyone's access to a service raises that service's generation and
      announces each user who gained or lost access at the new generation. */
  lemma EveryChangeIsAnnounced(s: State, step: Step, service: ServiceId, u: UserId)
    ensures AccessChanges(s, Apply(s, step), service, u) ==> Covered(s, Apply(s, step), service, u)
  {
    if AccessChanges(s, Apply(s, step), service, u) {
      match step
      case Archive(svc, g, version) => ArchiveIsCovered(s, svc, g, version, service, u);
      case Delete(svc, g, version) => DeleteChangesNothing(s, svc, g, version, service, u);
      case Replace(svc, g, version, userIds) => ReplaceIsCovered(s, svc, g, version, userIds, service, u);
      case Assign(svc, version, selector) => AssignIsCovered(s, svc, version, selector, service, u);
      case AssignCredential(svc, c, version, selector) => CredentialStepKeepsAccess(s, svc, c, version, selector,
              service, u);
    }
  }

  // ---------- whole runs ----------

  function Run(s: State, steps: seq<Step>): State
    decreases |steps|
  {
    if steps == [] then s else Apply(Run(s, steps[..|steps| - 1]), steps[|steps| - 1])
  }

  lemma StepGrows(s: State, step: Step, service: ServiceId)
    ensures Generation(Apply(s, step), service) >= Generation(s, service) && s.events <= Apply(s, step).events
  {
  }

  /** Over a whole run every user whose access to a service differs at its end was announced at a
      generation the run reached, so an unchanged generation means unchanged access. */
  lemma {:induction false} RunsAnnounceEveryChange(s: State, steps: seq<Step>, service: ServiceId, u: UserId)
    ensures Generation(Run(s, steps), service) >= Generation(s, service)
    ensures AccessChanges(s, Run(s, steps), service, u) ==>
      exists generation :: Generation(s, service) < generation <= Generation(Run(s, steps), service)
        && Announced(Run(s, steps), service, u, generation)
    decreases |steps|
  {
    if steps != [] {
      var before, step := Run(s, steps[..|steps| - 1]), steps[|steps| - 1];
      var after := Apply(before, step);
      RunsAnnounceEveryChange(s, steps[..|steps| - 1], service, u);
      StepGrows(before, step, service);
      EveryChangeIsAnnounced(before, step, service, u);
      if AccessChanges(s, after, service, u) {
        if AccessChanges(before, after, service, u) {
          assert Announced(after, service, u, Generation(after, service));
        } else {
          var generation :| Generation(s, service) < generation <= Generation(before, service)
            && Announced(before, service, u, generation);
          assert Announced(after, service, u, generation);
        }
      }
    }
  }

  // ---------- credentials ----------

  // No event of a credential is dated past its generation.
  predicate CredentialEventsDated(s: State) {
    forall e | e in s.credentialEvents ::
      e.credential in s.credentials && e.generation <= s.credentials[e.credential].generation
  }

  /** Replacing a credential's selector announces, at its new generation, exactly the users who gained or
      lost effective access to it. */
  lemma CredentialChangeIsExact(s: State, service: ServiceId, c: CredentialId, version: nat, selector: Selector,
                                u: UserId)
    requires CredentialEventsDated(s) && ReplaceCredentialAssignments(s, service, c, version, selector).Success?
    ensures var t := ReplaceCredentialAssignments(s, service, c, version, selector).value;
            var next := t.credentials[c].generation;
            && next == s.credentials[c].generation + 1
            && (CredentialEvent(c, Some(u), next, CredentialSelector) in t.credentialEvents <==>
                  (u in EffectiveCredentialUsers(s, service, c)) != (u in EffectiveCredentialUsers(t, service, c)))
  {
    var t := WithCredentialRows(s, service, c, selector);
    var before, after := EffectiveCredentialUsers(s, service, c), EffectiveCredentialUsers(t, service, c);
    var v := CredentialInvalidated(t, c, SymmetricDifference(before, after));
    assert CredentialEvent(c, Some(u), s.credentials[c].generation + 1, CredentialSelector) !in s.credentialEvents;
    SameEffectiveUsers(t, v, service, c);
  }

  lemma SameEffectiveUsers(t: State, v: State, service: ServiceId, c: CredentialId)
    requires v == t.(credentials := v.credentials, credentialEvents := v.credentialEvents)
    ensures EffectiveCredentialUsers(t, service, c) == EffectiveCredentialUsers(v, service, c)
  {
    forall u: UserId ensures (u in EffectiveCredentialUsers(t, service, c))
      == (u in EffectiveCredentialUsers(v, service, c))
    {
      assert forall svc, g :: GroupGrants(t, svc, g, u) <==> GroupGrants(v, svc, g, u);
      assert ServiceAuthorizes(t, service, u) == ServiceAuthorizes(v, service, u);
      assert ListedByCredential(t, c, u) == ListedByCredential(v, c, u);
    }
  }

  predicate CredentialAccessChanges(s: State, t: State, service: ServiceId, c: CredentialId, u: UserId) {
    (u in EffectiveCredentialUsers(s, service, c)) != (u in EffectiveCredentialUsers(t, service, c))
  }

  /** A change of a group's members that changes a user's access to a credential is announced exactly when
      the service itself selects the group: a group that only the credential's selector names changes
      hands in silence. */
  lemma MembershipAnnouncedIff(s: State, service: ServiceId, g: GroupId, version: nat, userIds: seq<UserId>,
                               c: CredentialId, u: UserId)
    requires ReplaceMembers(s, service, g, version, userIds).Success?
    requires CredentialAccessChanges(s, ReplaceMembers(s, service, g, version, userIds).value, service, c, u)
    ensures var t := ReplaceMembers(s, service, g, version, userIds).value;
            && (Covered(s, t, service, u) <==> Selected(s, service, g))
            && (Selected(s, service, g) || (t.events == s.events && t.credentialEvents == s.credentialEvents
                                            && t.services == s.services && t.credentials == s.credentials))
  {
    var t := WithMembers(s, g, userIds);
    var changed := SymmetricDifference(Members(s, g), SetOf(userIds));
    if u !in changed {
      MembershipOfOthersOnly(s, g, userIds, service, c, u);
      SameEffectiveAfterInvalidation(t, service, changed, c, u);
    }
    assert u in changed;
    if Selected(s, service, g) { InvalidatedCovers(s, t, service, changed, GroupMembership, u); }
  }

  lemma SameEffectiveAfterInvalidation(t: State, service: ServiceId, affected: set<UserId>, c: CredentialId, u: UserId)
    requires service in t.services
    ensures u in EffectiveCredentialUsers(Invalidated(t, service, affected, GroupMembership), service, c) <==>
            u in EffectiveCredentialUsers(t, service, c)
  {
    var v := Invalidated(t, service, affected, GroupMembership);
    assert forall svc, g :: GroupGrants(t, svc, g, u) <==> GroupGrants(v, svc, g, u);
    InvalidatedKeepsAccess(t, service, affected, GroupMembership, service, u);
    assert ListedByCredential(t, c, u) == ListedByCredential(v, c, u);
  }

  lemma MembershipOfOthersOnly(s: State, g: GroupId, userIds: seq<UserId>, service: ServiceId, c: CredentialId,
                               u: UserId)
    requires g in s.groups && u !in SymmetricDifference(Members(s, g), SetOf(userIds))
    ensures u in EffectiveCredentialUsers(s, service, c) <==>
              u in EffectiveCredentialUsers(WithMembers(s, g, userIds), service, c)
  {
    var t := WithMembers(s, g, userIds);
    assert u in Members(s, g) <==> (g, u) in s.members;
    assert u in SetOf(userIds) <==> (g, u) in t.members;
    assert forall svc, o :: GroupGrants(s, svc, o, u) <==> GroupGrants(t, svc, o, u);
    assert ServiceAuthorizes(s, service, u) == ServiceAuthorizes(t, service, u);
    assert ListedByCredential(s, c, u) == ListedByCredential(t, c, u);
  }

  // A user reaching a service directly and a credential of it through a group the service does not select.
  const SILENT: State := State(
    map[7 := User(true, true)], map[3 := Group(1, true, 1)], {(3, 7)}, {(1, Direct(7))}, {(1, 5, InGroup(3))},
    map[1 := AssignmentState(4, 4)], map[5 := Credential(1, 2, 2, true)], {}, {})

  /** Taking that user out of the group ends the access to the credential without any announcement. */
  lemma SilentLoss()
    ensures var r := ReplaceMembers(SILENT, 1, 3, 1, []);
            && r.Success? && RowsBelong(SILENT)
            && 7 in EffectiveCredentialUsers(SILENT, 1, 5) && 7 !in EffectiveCredentialUsers(r.value, 1, 5)
            && r.value.events == {} && r.value.credentialEvents == {}
            && r.value.services == SILENT.services && r.value.credentials == SILENT.credentials
  {
    var t := ReplaceMembers(SILENT, 1, 3, 1, []).value;
    assert (1, 5, InGroup(3)) in SILENT.credentialRows && GroupGrants(SILENT, 1, 3, 7);
    assert ListedByCredential(SILENT, 5, 7) by { assert (1, 5, InGroup(3)).1 == 5; }
    assert forall svc, g :: !GroupGrants(t, svc, g, 7);
    assert !ListedByCredential(t, 5, 7);
  }

  // ---------- credential access under every transaction ----------

  // No event of a service is dated past its generation.
  predicate EventsDated(s: State) { forall e | e in s.events :: e.generation <= Generation(s, e.service) }

  // What any run starts from and keeps.
  predicate TablesOk(s: State) { RowsBelong(s) && EventsDated(s) }

  lemma InvalidatedKeepsDates(s: State, service: ServiceId, affected: set<UserId>, reason: Reason)
    requires EventsDated(s) && service in s.services
    ensures EventsDated(Invalidated(s, service, affected, reason))
  {
    var t := Invalidated(s, service, affected, reason);
    forall e | e in t.events ensures e.generation <= Generation(t, e.service) {
      if e in s.events { assert e.generation <= Generation(s, e.service); }
    }
  }

  lemma StepKeepsTables(s: State, step: Step)
    requires TablesOk(s)
    ensures TablesOk(Apply(s, step))
  {
    if Attempt(s, step).Success? {
      match step
      case Archive(service, g, _) =>
        InvalidatedKeepsDates(Archived(s, service, g), service, if Selected(s, service, g) then ActiveMembers(s, g)
                              else {}, GroupArchive);
      case Delete(service, g, _) => InvalidatedKeepsDates(Deleted(s, service, g), service, {}, GroupDelete);
      case Replace(service, g, _, userIds) =>
        InvalidatedKeepsDates(WithMembers(s, g, userIds), service, SymmetricDifference(Members(s, g), SetOf(userIds)),
                              GroupMembership);
      case Assign(service, _, selector) =>
        var t := WithServiceRows(s, service, selector);
        InvalidatedKeepsDates(t, service,
                              SymmetricDifference(EffectiveUserIds(s, service), EffectiveUserIds(t, service)),
                                ServiceSelector);
      case AssignCredential(_, _, _, _) =>
    }
  }

  predicate Grants(s: State, service: ServiceId, p: Principal, u: UserId) {
    match p
    case Everyone => true
    case Direct(v) => v == u
    case InGroup(g) => GroupGrants(s, service, g, u)
  }

  // What a principal grants the user is the same, and so are the rows of the principals that grant it.
  ghost predicate SameForUser(s: State, t: State, service: ServiceId, c: CredentialId, u: UserId) {
    && s.users == t.users
    && (forall p: Principal :: Grants(s, service, p, u) == Grants(t, service, p, u))
    && (forall p: Principal | Grants(s, service, p, u) :: (service, p) in s.serviceRows <==>
          (service, p) in t.serviceRows)
    && (forall p: Principal | Grants(s, service, p, u) :: (service, c, p) in s.credentialRows <==>
          (service, c, p) in t.credentialRows)
  }

  lemma SelectsByPrincipal(s: State, service: ServiceId, c: CredentialId, u: UserId)
    ensures ServiceSelects(s, service, u) <==>
              exists p: Principal :: Grants(s, service, p, u) && (service, p) in s.serviceRows
    ensures CredentialSelectorAuthorizes(s, service, c, u) <==>
              exists p: Principal :: Grants(s, service, p, u) && (service, c, p) in s.credentialRows
  {
    if ServiceSelects(s, service, u) {
      if g :| g in s.groups && (service, InGroup(g)) in s.serviceRows && GroupGrants(s, service, g, u) {
        assert Grants(s, service, InGroup(g), u);
      } else if (service, Everyone) in s.serviceRows {
        assert Grants(s, service, Everyone, u);
      } else {
        assert Grants(s, service, Direct(u), u);
      }
    }
    if CredentialSelectorAuthorizes(s, service, c, u) {
      if g :| g in s.groups && (service, c, InGroup(g)) in s.credentialRows && GroupGrants(s, service, g, u) {
        assert Grants(s, service, InGroup(g), u);
      } else if (service, c, Everyone) in s.credentialRows {
        assert Grants(s, service, Everyone, u);
      } else {
        assert Grants(s, service, Direct(u), u);
      }
    }
  }

  lemma SameForUserSameAccess(s: State, t: State, service: ServiceId, c: CredentialId, u: UserId)
    requires RowsBelong(s) && RowsBelong(t) && SameForUser(s, t, service, c, u)
    requires c in s.credentials && s.credentials[c].service == service && t.credentials == s.credentials
    ensures !CredentialAccessChanges(s, t, service, c, u)
  {
    EffectiveIffBothAuthorize(s, service, c, u);
    EffectiveIffBothAuthorize(t, service, c, u);
    SelectsByPrincipal(s, service, c, u);
    SelectsByPrincipal(t, service, c, u);
  }

  // Only an active member of the archived group loses anything by it.
  lemma ArchiveTouchesMembers(s: State, step: Step, service: ServiceId, c: CredentialId, u: UserId)
    requires TablesOk(s) && step.Archive? && Attempt(s, step).Success?
    requires c in s.credentials && s.credentials[c].service == service
             && CredentialAccessChanges(s, Apply(s, step), service, c, u)
    ensures step.service == service && u in ActiveMembers(s, step.group)
  {
    var t := Apply(s, step);
    StepKeepsTables(s, step);
    if !(step.service == service && (step.group, u) in s.members) {
      SameForUserSameAccess(s, t, service, c, u);
    }
  }

  lemma DeleteTouchesNobody(s: State, step: Step, service: ServiceId, c: CredentialId, u: UserId)
    requires TablesOk(s) && step.Delete? && c in s.credentials && s.credentials[c].service == service
    ensures !CredentialAccessChanges(s, Apply(s, step), service, c, u)
  {
    StepKeepsTables(s, step);
    SameForUserSameAccess(s, Apply(s, step), service, c, u);
  }

  lemma ReplaceTouchesItsService(s: State, step: Step, service: ServiceId, c: CredentialId, u: UserId)
    requires TablesOk(s) && step.Replace? && step.service != service && c in s.credentials
             && s.credentials[c].service == service
    ensures !CredentialAccessChanges(s, Apply(s, step), service, c, u)
  {
    StepKeepsTables(s, step);
    SameForUserSameAccess(s, Apply(s, step), service, c, u);
  }

  // Replacing a service's selector changes access to its credentials only through access to the service.
  lemma AssignChangesThroughService(s: State, step: Step, service: ServiceId, c: CredentialId, u: UserId)
    requires TablesOk(s) && step.Assign? && c in s.credentials && s.credentials[c].service == service
    ensures CredentialAccessChanges(s, Apply(s, step), service, c, u) ==> AccessChanges(s, Apply(s, step), service, u)
  {
    var t := Apply(s, step);
    StepKeepsTables(s, step);
    EffectiveIffBothAuthorize(s, service, c, u);
    EffectiveIffBothAuthorize(t, service, c, u);
    assert forall p: Principal :: Grants(s, service, p, u) == Grants(t, service, p, u);
    assert t.credentialRows == s.credentialRows;
    SelectsByPrincipal(s, service, c, u);
    SelectsByPrincipal(t, service, c, u);
  }

  lemma ArchiveNamesIff(s: State, step: Step, service: ServiceId, c: CredentialId, u: UserId)
    requires TablesOk(s) && step.Archive? && Attempt(s, step).Success?
    requires c in s.credentials && s.credentials[c].service == service
             && CredentialAccessChanges(s, Apply(s, step), service, c, u)
    ensures step.service == service && (Covered(s, Apply(s, step), service, u) <==> Selected(s, service, step.group))
  {
    ArchiveTouchesMembers(s, step, service, c, u);
    var t := Archived(s, service, step.group);
    if Selected(s, service, step.group) {
      InvalidatedCovers(s, t, service, ActiveMembers(s, step.group), GroupArchive, u);
    } else {
      assert forall e | e in Apply(s, step).events :: e in s.events || e.user.None?;
    }
  }

  /** A change of a user's access to a credential by a transaction on groups or on a service's selector is
      announced exactly when the transaction is on the selector, or the service selects the group: the end
      of a group that only the credential's selector names, by archiving it or by replacing its members,
      is not announced to the users it shuts out. Deleting a group never changes such access. */
  lemma CredentialAccessAnnouncedIff(s: State, step: Step, service: ServiceId, c: CredentialId, u: UserId)
    requires TablesOk(s) && !step.AssignCredential? && c in s.credentials && s.credentials[c].service == service
    requires CredentialAccessChanges(s, Apply(s, step), service, c, u)
    ensures !step.Delete?
    ensures Covered(s, Apply(s, step), service, u) <==> step.Assign? || Selected(s, service, step.group)
  {
    match step
    case Archive(_, _, _) => ArchiveNamesIff(s, step, service, c, u);
    case Delete(_, _, _) => DeleteTouchesNobody(s, step, service, c, u);
    case Replace(svc, g, version, userIds) =>
      if svc != service { ReplaceTouchesItsService(s, step, service, c, u); }
      else { MembershipAnnouncedIff(s, service, g, version, userIds, c, u); }
    case Assign(svc, version, selector) =>
      AssignChangesThroughService(s, step, service, c, u);
      AssignIsCovered(s, svc, version, selector, service, u);
  }
}
