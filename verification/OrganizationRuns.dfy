/** What holds over whole runs of an organization: what becomes of a guest, what lok takes back,
    and what it never gives again. */
module OrganizationRuns {
  import opened Rows
  import opened ServiceRoles
  import opened Organizations
  import Grants

  /** Primary keys are never reused: who is there after a step was there before it. */
  lemma {:induction false} KeysOnlyGrow(s: Org, steps: seq<Step>)
    ensures Run(s, steps).nextMember >= s.nextMember
  {
    if steps != [] { KeysOnlyGrow(s, steps[..|steps| - 1]); }
  }

  /** A member of the state a run ends in was a member before the last step of the run. */
  lemma WasThereBefore(s: Org, steps: seq<Step>, id: MemberId)
    requires steps != [] && id < s.nextMember && id in Run(s, steps).members
    ensures var before := Run(s, steps[..|steps| - 1]);
            && id in before.members
            && After(before, steps[|steps| - 1], id) == Some(Run(s, steps).members[id])
  {
    KeysOnlyGrow(s, steps[..|steps| - 1]);
  }

  /** A membership that is gone never comes back. */
  lemma {:induction false} GoneForGood(s: Org, steps: seq<Step>, id: MemberId)
    requires id < s.nextMember && id !in s.members
    ensures id !in Run(s, steps).members
  {
    if steps != [] {
      GoneForGood(s, steps[..|steps| - 1], id);
      if id in Run(s, steps).members { WasThereBefore(s, steps, id); }
    }
  }

  // --- what becomes of a guest --------------------------------------------------------------

  /** Somebody else is deleted, and with them the instances of all grants the guest has. */
  ghost predicate TakesLastGrants(s: Org, p: Step, id: MemberId) {
    && p.DeleteUser? && MayDeleteUser(s, p.u)
    && id in s.members && s.members[id].Scoped() && s.members[id].user != p.u
    && forall k :: k in s.members[id].grants ==> k.instance in GoneInstances(s, p.u)
  }

  ghost predicate NeverTakesLastGrants(s: Org, steps: seq<Step>, id: MemberId) {
    steps != [] ==> var front := steps[..|steps| - 1];
      NeverTakesLastGrants(s, front, id) && !TakesLastGrants(Run(s, front), steps[|steps| - 1], id)
  }

  /** In every state of the run the membership is a guest without roles, or gone. */
  ghost predicate AlwaysGuest(s: Org, steps: seq<Step>, id: MemberId) {
    && GuestOrGone(Run(s, steps), id)
    && (steps != [] ==> AlwaysGuest(s, steps[..|steps| - 1], id))
  }

  ghost predicate GuestOrGone(s: Org, id: MemberId) {
    id in s.members ==> s.members[id].Scoped() && s.members[id].roles == {}
  }

  /** Short of `upgrade_to_full`, a guest stays a guest or goes, throughout a run, exactly when no
      deleted user takes the guest's last grants along. */
  lemma {:induction false} GuestUntilUpgraded(s: Org, steps: seq<Step>, id: MemberId)
    requires OrgOk(s) && id in s.members && s.members[id].Scoped()
    requires forall p :: p in steps ==> p != Upgrade(id)
    ensures AlwaysGuest(s, steps, id) <==> NeverTakesLastGrants(s, steps, id)
  {
    EveryRunKeepsOrgOk(s, steps);
    if steps != [] {
      var front, last := steps[..|steps| - 1], steps[|steps| - 1];
      assert last in steps && forall p :: p in front ==> p in steps;
      GuestUntilUpgraded(s, front, id);
      if AlwaysGuest(s, front, id) {
        EveryRunKeepsOrgOk(s, front);
        KeysOnlyGrow(s, front);
        GuestStaysGuestExactlyWhen(Run(s, front), last, id);
      }
    }
  }

  lemma GuestStaysGuestExactlyWhen(s: Org, p: Step, id: MemberId)
    requires OrgOk(s) && GuestOrGone(s, id) && p != Upgrade(id) && id < s.nextMember
    ensures GuestOrGone(Next(s, p), id) <==> !TakesLastGrants(s, p, id)
  {
    StepKeepsOrgOk(s, p);
    if id in s.members {
      assert id in Next(s, p).members <==> After(s, p, id).Some?;
      if p.DeleteUser? {
        UserDeleteOnAGuest(s, p, id);
      } else {
        GuestStaysGuest(s, p, id);
      }
      if id in Next(s, p).members { assert MemberOk(Next(s, p).roles, Next(s, p).members[id]); }
    }
  }

  lemma UserDeleteOnAGuest(s: Org, p: Step, id: MemberId)
    requires p.DeleteUser? && id in s.members && s.members[id].Scoped()
    ensures (After(s, p, id).Some? && !After(s, p, id).value.Scoped()) <==> TakesLastGrants(s, p, id)
  {
    var m := s.members[id];
    if MayDeleteUser(s, p.u) && m.user != p.u {
      var left := GrantsLeft(s, p.u, m.grants);
      if TakesLastGrants(s, p, id) {
        assert left == map[];
      } else {
        var k :| k in m.grants && k.instance !in GoneInstances(s, p.u);
        assert k in left;
      }
    }
  }

  lemma GuestStaysGuest(s: Org, p: Step, id: MemberId)
    requires id in s.members && s.members[id].Scoped() && s.members[id].roles == {}
    requires p != Upgrade(id) && !p.DeleteUser?
    ensures After(s, p, id).Some? ==> After(s, p, id).value.Scoped()
  {
    if p.PutGrants? {
      var k :| k in s.members[id].grants;
      assert k in Grants.Granted(s.members[id].grants, p.call);
    } else if p.DropGrants? {
      assert s.members[id].Scoped() && s.members[id].roles == {};
    } else {
      GrantsStay(s, p, id);
    }
  }

  /** No other step writes grants. */
  lemma GrantsStay(s: Org, p: Step, id: MemberId)
    requires id in s.members && !p.PutGrants? && !p.DropGrants? && p != Upgrade(id) && !p.DeleteUser?
    ensures After(s, p, id).Some? ==> After(s, p, id).value.grants == s.members[id].grants
  {
  }

  /** Whoever's last grants go that way is a full member: nothing dropped the membership, and the
      next sync gives it every role lok hands out. */
  lemma LeftAFullMember(s: Org, p: Step, id: MemberId)
    requires OrgOk(s) && TakesLastGrants(s, p, id)
    ensures var s1 := Next(s, p);
            && id in s1.members && s1.members[id] == Bereft(s, p.u, s.members[id]) && !s1.members[id].Scoped()
            && SyncedRow(s1, id).Some? && SyncedRow(s1, id).value.roles == Wanted(s1.roles, s1.owner, s1.members[id])
            && !SyncedRow(s1, id).value.Scoped()
  {
    UserDeleteOnAGuest(s, p, id);
    assert After(s, p, id) == Some(Bereft(s, p.u, s.members[id]));
    NoRolesLeft(s, p.u, id);
    SyncWithoutRoles(Next(s, p), id);
  }

  /** The membership after its next sync. */
  function SyncedRow(s: Org, id: MemberId): Option<Member> {
    var s' := Next(s, Sync({id})); if id in s'.members then Some(s'.members[id]) else None
  }

  lemma NoRolesLeft(s: Org, u: UserId, id: MemberId)
    requires OrgOk(s) && id in s.members && s.members[id].Scoped()
    ensures Bereft(s, u, s.members[id]).roles == {}
  {
    assert MemberOk(s.roles, s.members[id]);
  }

  lemma SyncWithoutRoles(s: Org, id: MemberId)
    requires id in s.members && s.members[id].roles == {} && !s.members[id].Scoped()
    ensures SyncedRow(s, id).Some? && SyncedRow(s, id).value.roles == Wanted(s.roles, s.owner, s.members[id])
    ensures !SyncedRow(s, id).value.Scoped()
  {
    assert After(s, Sync({id}), id) == Some(Synced(s.roles, s.owner, s.members[id]));
    SyncOutcome(s.roles, s.owner, s.members[id]);
  }

  /** User 3, a guest in an organization of user 1, whose one grant is on an instance that user 2 is
      responsible for. */
  ghost function AGuest(): Member {
    Member(3, {}, {}, {}, false, None, map[GrantKey(5, "c") := Grant({}, false, None, Some(1), None)])
  }

  ghost function AnOrganization(): Org {
    Org(1, map[0 := Role(Some("viewer"), false, true, None)], map[0 := AGuest()], map[5 := Instance(2, 1)], map[], 1, 1)
  }

  lemma AnOrganizationIsOk()
    ensures OrgOk(AnOrganization()) && AGuest().Scoped()
  {
    assert GrantKey(5, "c") in AGuest().grants && |AGuest().grants| == 1;
    assert !HoldsAdmin(AnOrganization().roles, {});
    assert MemberOk(AnOrganization().roles, AGuest());
  }

  /** Without user 2, user 3 is a full member and holds the default role. */
  lemma GuestMadeAMember()
    ensures var s := AnOrganization(); var s1 := Next(s, DeleteUser(2));
            && OrgOk(s) && s.members[0].Scoped() && 0 in s1.members && !s1.members[0].Scoped()
            && SyncedRow(s1, 0).Some? && 0 in SyncedRow(s1, 0).value.roles
  {
    AnOrganizationIsOk();
    UserTakesLastGrant();
    LeftAFullMember(AnOrganization(), DeleteUser(2), 0);
    LeftWithDefaults(AnOrganization(), DeleteUser(2), 0, 0);
  }

  lemma UserTakesLastGrant()
    ensures TakesLastGrants(AnOrganization(), DeleteUser(2), 0) && 0 !in GoneRoles(AnOrganization(), 2)
  {
    AnOrganizationIsOk();
    assert 5 in GoneInstances(AnOrganization(), 2);
  }

  lemma LeftWithDefaults(s: Org, p: Step, id: MemberId, r: RoleId)
    requires OrgOk(s) && TakesLastGrants(s, p, id)
    requires r in DefaultRoles(s.roles) && r !in GoneRoles(s, p.u) && r !in s.members[id].withheld
    ensures SyncedRow(Next(s, p), id).Some? && r in SyncedRow(Next(s, p), id).value.roles
  {
    LeftAFullMember(s, p, id);
    assert r in DefaultRoles(Next(s, p).roles);
  }

  // --- what single steps write --------------------------------------------------------------

  /** The instance is the user's to answer for, or on a hub they created. */
  ghost predicate GoesWith(s: Org, x: InstanceId, u: UserId) {
    x in s.instances && (s.instances[x].steward == u || s.instances[x].creator == u)
  }

  ghost predicate DeclaredBy(s: Org, r: RoleId, u: UserId) {
    r in s.roles && s.roles[r].creatingInstance.Some? && GoesWith(s, s.roles[r].creatingInstance.value, u)
  }

  ghost predicate InvitedBy(s: Org, i: Option<InviteId>, u: UserId) {
    i.Some? && i.value in s.invites && s.invites[i.value].createdBy == u
  }

  /** What a user who is not the owner takes along: their instances, the roles these declared, the
      invites they made, and their membership. */
  lemma DeletedUserTakes(s: Org, u: UserId)
    requires u != s.owner
    ensures var s' := Next(s, DeleteUser(u));
            && s'.owner == s.owner && s'.nextRole == s.nextRole && s'.nextMember == s.nextMember
            && (forall x :: x in s'.instances <==> x in s.instances && !GoesWith(s, x, u))
            && (forall x :: x in s'.instances ==> s'.instances[x] == s.instances[x])
            && (forall r :: r in s'.roles <==> r in s.roles && !DeclaredBy(s, r, u))
            && (forall r :: r in s'.roles ==> s'.roles[r] == s.roles[r])
            && (forall i :: i in s'.invites <==> i in s.invites && s.invites[i].createdBy != u)
            && (forall id :: id in s'.members <==> id in s.members && s.members[id].user != u)
  {
    forall id | id in s.members ensures id in Next(s, DeleteUser(u)).members <==> s.members[id].user != u {
      assert After(s, DeleteUser(u), id).Some? <==> s.members[id].user != u;
    }
  }

  /** And what is left of everybody else: their other grants and roles, with what referred to the user
      or to their invites set to null. */
  lemma DeletedUserLeaves(s: Org, u: UserId, id: MemberId)
    requires u != s.owner && id in s.members && s.members[id].user != u
    ensures id in Next(s, DeleteUser(u)).members && IsLeft(s, u, s.members[id], Next(s, DeleteUser(u)).members[id])
  {
    assert After(s, DeleteUser(u), id) == Some(Bereft(s, u, s.members[id]));
    BereftIsLeft(s, u, s.members[id]);
  }

  lemma BereftIsLeft(s: Org, u: UserId, m: Member)
    ensures IsLeft(s, u, m, Bereft(s, u, m))
  {
  }

  ghost predicate IsLeft(s: Org, u: UserId, m: Member, m': Member) {
    && m'.user == m.user
    && m'.createdThrough == (if InvitedBy(s, m.createdThrough, u) then None else m.createdThrough)
    && (forall r :: r in m'.roles <==> r in m.roles && !DeclaredBy(s, r, u))
    && (forall r :: r in m'.automatic <==> r in m.automatic && !DeclaredBy(s, r, u))
    && (forall r :: r in m'.withheld <==> r in m.withheld && !DeclaredBy(s, r, u))
    && (forall k :: k in m'.grants <==> k in m.grants && !GoesWith(s, k.instance, u))
    && (forall k :: k in m'.grants ==>
          m'.grants[k] == m.grants[k].(
            through := if InvitedBy(s, m.grants[k].through, u) then None else m.grants[k].through,
            granter := if m.grants[k].granter == Some(u) then None else m.grants[k].granter))
  }

  /** Registering a role: the one of that identifier gets the flags; without one it is made, for the
      instance that declares it. No other role changes, and no membership. */
  lemma DeclaredRole(s: Org, p: Step)
    requires KeysOk(s) && p.Declare?
    ensures var s' := Next(s, p); var known := exists r :: r in s.roles && s.roles[r].identifier == Some(p.identifier);
            && s'.members == s.members && s'.invites == s.invites && s'.instances == s.instances && s'.owner == s.owner
            && (forall r :: r in s.roles ==> r in s'.roles)
            && (forall r :: r in s.roles ==>
                  s'.roles[r] == if s.roles[r].identifier == Some(p.identifier)
                                 then s.roles[r].(adminRole := p.adminRole, defaultRole := p.defaultRole)
                                 else s.roles[r])
            && (known ==> s'.roles.Keys == s.roles.Keys && s'.nextRole == s.nextRole)
            && (!known ==>
                  && s'.roles.Keys == s.roles.Keys + {s.nextRole} && s'.nextRole == s.nextRole + 1
                  && s'.roles[s.nextRole] == Role(Some(p.identifier), p.adminRole, p.defaultRole, p.declaredBy))
  {
    assert Survivors(s, p) == s.members;
    if exists r :: r in s.roles && s.roles[r].identifier == Some(p.identifier) {
      var r :| r in s.roles && s.roles[r].identifier == Some(p.identifier);
      assert r in Named(s.roles, p.identifier);
    } else {
      assert Named(s.roles, p.identifier) == {};
    }
  }

  /** A new membership has no roles and no grants and remembers the invite; who is a member already does
      not join again. Leaving takes the membership, saving one writes nothing but its invite. */
  lemma MembershipSteps(s: Org, p: Step)
    requires KeysOk(s) && (p.Join? || p.Leave? || p.Save?)
    ensures var s' := Next(s, p);
            && s'.roles == s.roles && s'.invites == s.invites && s'.instances == s.instances && s'.owner == s.owner
            && (p.Join? ==> var there := exists id :: id in s.members && s.members[id].user == p.u;
                  && (there ==> s' == s)
                  && (!there ==>
                        s'.members == s.members[s.nextMember := Member(p.u, {}, {}, {}, false, p.through, map[])]))
            && (p.Leave? ==> s'.members == s.members - {p.m})
            && (p.Save? ==> s'.members == if p.m in s.members
                  then s.members[p.m := s.members[p.m].(createdThrough := p.stale.createdThrough)] else s.members)
  {
    if p.Join? {
      assert Survivors(s, p) == s.members;
    } else if p.Leave? {
      assert Survivors(s, p) == s.members - {p.m};
    } else {
      assert Survivors(s, p) == if p.m in s.members
        then s.members[p.m := s.members[p.m].(createdThrough := p.stale.createdThrough)] else s.members;
    }
  }

  /** An instance that is added is there with its steward and its hub's creator. */
  lemma InstanceSteps(s: Org, x: InstanceId, row: Instance)
    ensures Next(s, AddInstance(x, row)) == s.(instances := s.instances[x := row])
    ensures Next(s, DropInstance(x)) == s.(instances := s.instances - {x})
  {
    assert Survivors(s, AddInstance(x, row)) == s.members;
    assert Survivors(s, DropInstance(x)) == s.members;
  }

  // --- what lok takes back ------------------------------------------------------------------

  /** The step changes by hand whether the membership holds `r`. */
  predicate Touches(p: Step, id: MemberId, r: RoleId) {
    match p
    case Give(m, rs) => m == id && r in rs
    case Take(m, rs) => m == id && r in rs
    case Clear(m) => m == id
    case GiveTo(role, ms) => role == r && id in ms
    case TakeFrom(role, ms) => role == r && id in ms
    case ClearRole(role) => role == r
    case _ => false
  }

  /** Lok takes back only what it gave: through any run of syncs, owner changes, registrations,
      deletions, and changes of other roles and other members, a role given to this membership by
      hand stays as long as the role exists, and one lok gave never comes to count as given by
      hand. */
  lemma {:induction false} HandGivenIsConserved(s: Org, steps: seq<Step>, id: MemberId, r: RoleId)
    requires OrgOk(s) && id in s.members && Tracked(s.members[id], r)
    requires forall p :: p in steps ==> !Touches(p, id, r)
    ensures id in Run(s, steps).members ==> var m := Run(s, steps).members[id];
              && Tracked(m, r)
              && (HandGiven(m, r) <==> HandGiven(s.members[id], r) && r in Run(s, steps).roles)
  {
    RolesAreKnown(s, id);
    if steps != [] && id in Run(s, steps).members {
      var front, last := steps[..|steps| - 1], steps[|steps| - 1];
      assert steps == front + [last];
      HandGivenIsConserved(s, front, id, r);
      WasThereBefore(s, steps, id);
      EveryRunKeepsOrgOk(s, front);
      RolesAreKnown(Run(s, front), id);
      StepConservesHandGiven(Run(s, front), last, id, r);
      RoleKeysGrow(s, front);
      if HandGiven(s.members[id], r) && r in Run(s, steps).roles { RoleWasThere(Run(s, front), last, r); }
    }
  }

  lemma RolesAreKnown(s: Org, id: MemberId)
    requires OrgOk(s) && id in s.members
    ensures forall r :: r in s.members[id].roles ==> r in s.roles && r < s.nextRole
  {
    assert MemberOk(s.roles, s.members[id]);
  }

  lemma {:induction false} RoleKeysGrow(s: Org, steps: seq<Step>)
    ensures Run(s, steps).nextRole >= s.nextRole
  {
    if steps != [] { RoleKeysGrow(s, steps[..|steps| - 1]); }
  }

  lemma RoleWasThere(s: Org, p: Step, r: RoleId)
    requires r < s.nextRole && r in Next(s, p).roles
    ensures r in s.roles
  {
  }

  lemma StepConservesHandGiven(s: Org, p: Step, id: MemberId, r: RoleId)
    requires KeysOk(s) && id in s.members && (r in s.members[id].roles ==> r in s.roles)
    requires Tracked(s.members[id], r) && !Touches(p, id, r)
    ensures After(s, p, id).Some? ==> var m := After(s, p, id).value;
              Tracked(m, r) && (HandGiven(m, r) <==> HandGiven(s.members[id], r) && r in RolesAfter(s, p))
  {
    if p.Sync? && id in p.ms {
      SyncKeepsHandGiven(s.roles, s.owner, s.members[id], r);
    } else if !p.DeleteUser? && !p.DeleteRole? {
      OthersLeaveRole(s, p, id, r);
    }
  }

  /** Neither a sync, nor a hand, nor a deletion: the role is held, and on record, as before. */
  lemma OthersLeaveRole(s: Org, p: Step, id: MemberId, r: RoleId)
    requires KeysOk(s) && id in s.members && !Touches(p, id, r)
    requires !(p.Sync? && id in p.ms) && !p.DeleteUser? && !p.DeleteRole?
    ensures After(s, p, id).Some? ==> var m, m' := s.members[id], After(s, p, id).value;
              (r in m'.roles <==> r in m.roles) && (r in m'.automatic <==> r in m.automatic)
    ensures r in s.roles ==> r in RolesAfter(s, p)
  {
  }

  /** No hand step but a clear loses track: after any run without clears of this membership or
      this role, lok remembers `r` as its own only while it is held. */
  lemma {:induction false} TrackedWithoutClears(s: Org, steps: seq<Step>, id: MemberId, r: RoleId)
    requires KeysOk(s) && id in s.members && Tracked(s.members[id], r)
    requires forall p :: p in steps ==> p != Clear(id) && p != ClearRole(r)
    ensures id in Run(s, steps).members ==> Tracked(Run(s, steps).members[id], r)
  {
    if steps != [] && id in Run(s, steps).members {
      var front, last := steps[..|steps| - 1], steps[|steps| - 1];
      assert last in steps && forall p :: p in front ==> p in steps;
      TrackedWithoutClears(s, front, id, r);
      WasThereBefore(s, steps, id);
      StepKeepsTrack(Run(s, front), last, id, r);
    }
  }

  lemma StepKeepsTrack(s: Org, p: Step, id: MemberId, r: RoleId)
    requires id in s.members && Tracked(s.members[id], r) && p != Clear(id) && p != ClearRole(r)
    ensures After(s, p, id).Some? ==> Tracked(After(s, p, id).value, r)
  {
    if p.Sync? && id in p.ms { SyncKeepsHandGiven(s.roles, s.owner, s.members[id], r); }
  }

  // --- what stays withheld ------------------------------------------------------------------

  /** An admin gives `r` to the membership again. */
  predicate GivesBack(p: Step, id: MemberId, r: RoleId) {
    (p.Give? && p.m == id && r in p.rs) || (p.GiveTo? && p.r == r && id in p.ms)
  }

  /** The membership is synced while it administers and `r` is a service's admin role. */
  ghost predicate ComesBack(s: Org, p: Step, id: MemberId, r: RoleId) {
    && p.Sync? && id in p.ms && id in s.members && !s.members[id].Scoped()
    && Administers(s.roles, s.owner, s.members[id]) && r in AdminRoles(s.roles)
  }

  ghost predicate NeverComesBack(s: Org, steps: seq<Step>, id: MemberId, r: RoleId) {
    steps != [] ==> var front := steps[..|steps| - 1];
      NeverComesBack(s, front, id, r) && !ComesBack(Run(s, front), steps[|steps| - 1], id, r)
  }

  ghost predicate Off(s: Org, id: MemberId, r: RoleId) { id in s.members ==> r !in s.members[id].roles }

  ghost predicate AlwaysOff(s: Org, steps: seq<Step>, id: MemberId, r: RoleId) {
    Off(Run(s, steps), id, r) && (steps != [] ==> AlwaysOff(s, steps[..|steps| - 1], id, r))
  }

  /** The role is withheld from the membership as long as there are both. */
  ghost predicate KeptOff(s: Org, id: MemberId, r: RoleId) {
    Off(s, id, r) && (id in s.members && r in s.roles ==> Withholds(s.members[id], r))
  }

  /** A role withheld from a member stays off them, throughout a run in which no admin gives it
      again, exactly when no sync finds the member administering and the role a service's admin
      role; and then it stays withheld as long as it exists. */
  lemma {:induction false} WithheldStaysWithheld(s: Org, steps: seq<Step>, id: MemberId, r: RoleId)
    requires OrgOk(s) && id in s.members && Withholds(s.members[id], r)
    requires forall p :: p in steps ==> !GivesBack(p, id, r)
    ensures AlwaysOff(s, steps, id, r) <==> NeverComesBack(s, steps, id, r)
    ensures NeverComesBack(s, steps, id, r) ==> KeptOff(Run(s, steps), id, r)
  {
    if steps != [] {
      var front, last := steps[..|steps| - 1], steps[|steps| - 1];
      assert steps == front + [last];
      WithheldStaysWithheld(s, front, id, r);
      EveryRunKeepsOrgOk(s, front);
      KeysOnlyGrow(s, front);
      RoleKeysGrow(s, front);
      assert MemberOk(s.roles, s.members[id]) && r in s.roles;
      if NeverComesBack(s, front, id, r) { StepKeepsOffExactlyWhen(Run(s, front), last, id, r); }
    }
  }

  lemma StepKeepsOffExactlyWhen(s: Org, p: Step, id: MemberId, r: RoleId)
    requires OrgOk(s) && KeptOff(s, id, r) && id < s.nextMember && r < s.nextRole && !GivesBack(p, id, r)
    ensures Off(Next(s, p), id, r) <==> !ComesBack(s, p, id, r)
    ensures !ComesBack(s, p, id, r) ==> KeptOff(Next(s, p), id, r)
  {
    if id in s.members {
      if r in Next(s, p).roles { RoleWasThere(s, p, r); }
      assert id in Next(s, p).members ==> Next(s, p).members[id] == After(s, p, id).value;
      if p.Sync? && id in p.ms {
        SyncOnWithheld(s, p, id, r);
      } else {
        OtherStepsKeepOff(s, p, id, r);
      }
    }
  }

  lemma SyncOnWithheld(s: Org, p: Step, id: MemberId, r: RoleId)
    requires KeptOff(s, id, r) && p.Sync? && id in p.ms && id in s.members
    ensures r in After(s, p, id).value.roles <==> ComesBack(s, p, id, r)
    ensures After(s, p, id).value.withheld == s.members[id].withheld
  {
    if !s.members[id].Scoped() { SyncOutcome(s.roles, s.owner, s.members[id]); }
  }

  lemma OtherStepsKeepOff(s: Org, p: Step, id: MemberId, r: RoleId)
    requires KeptOff(s, id, r) && id in s.members && !(p.Sync? && id in p.ms) && !GivesBack(p, id, r)
    ensures After(s, p, id).Some? ==> r !in After(s, p, id).value.roles
    ensures After(s, p, id).Some? && r in s.roles && r in RolesAfter(s, p) ==> r in After(s, p, id).value.withheld
  {
  }

  /** An admin takes the default role `r` from the membership: from either side, or with all others. */
  predicate TakesDefault(s: Org, p: Step, id: MemberId, r: RoleId) {
    && id in s.members && r in DefaultRoles(s.roles)
    && ((p.Take? && p.m == id && r in p.rs && p.rs <= s.roles.Keys)
        || (p.TakeFrom? && p.r == r && id in p.ms)
        || (p == Clear(id) && r in s.members[id].roles))
  }

  /** So a default role an admin takes away, in whichever way, is off from then on, exactly as long
      as that does not happen. */
  lemma TakenDefaultStaysOff(s: Org, p: Step, steps: seq<Step>, id: MemberId, r: RoleId)
    requires OrgOk(s) && TakesDefault(s, p, id, r)
    requires forall q :: q in steps ==> !GivesBack(q, id, r)
    ensures AlwaysOff(Next(s, p), steps, id, r) <==> NeverComesBack(Next(s, p), steps, id, r)
  {
    assert After(s, p, id).Some? && Withholds(After(s, p, id).value, r);
    StepKeepsOrgOk(s, p);
    WithheldStaysWithheld(Next(s, p), steps, id, r);
  }

  /** Of the roles withheld from a member, a sync gives back those, and only those, that are a
      service's admin roles, and only to who administers. */
  lemma WithheldAdminRoleComesBack(roles: Roles, owner: UserId, m: Member, r: RoleId)
    requires Withholds(m, r)
    ensures r in Synced(roles, owner, m).roles <==> Administers(roles, owner, m) && r in AdminRoles(roles)
  {
    SyncOutcome(roles, owner, m);
  }

  // --- whatever lok takes, it gave ----------------------------------------------------------

  /** Lok has `r` on record as its own gift at the end of the run. */
  ghost predicate OnRecord(s: Org, steps: seq<Step>, id: MemberId, r: RoleId) {
    var t := Run(s, steps); id in t.members && r in t.members[id].automatic
  }

  ghost predicate HeldAfter(s: Org, steps: seq<Step>, id: MemberId, r: RoleId) {
    var t := Run(s, steps); id in t.members && r in t.members[id].roles
  }

  /** Step `j` of the run is a sync that gives `r` to the membership. */
  ghost predicate SyncGives(s: Org, steps: seq<Step>, j: nat, id: MemberId, r: RoleId) {
    && j < |steps| && steps[j].Sync?
    && !HeldAfter(s, steps[..j], id, r) && HeldAfter(s, steps[..j + 1], id, r) && OnRecord(s, steps[..j + 1], id, r)
  }

  /** Only a sync that gives the role puts it on record. */
  lemma RecordedByASync(s: Org, p: Step, id: MemberId, r: RoleId)
    requires id in s.members && r !in s.members[id].automatic
    requires After(s, p, id).Some? && r in After(s, p, id).value.automatic
    ensures p.Sync? && r !in s.members[id].roles && r in After(s, p, id).value.roles
  {
    if p.Sync? && id in p.ms { SyncOutcome(s.roles, s.owner, s.members[id]); }
  }

  lemma GivenAtLast(s: Org, steps: seq<Step>, id: MemberId, r: RoleId)
    requires KeysOk(s) && id in s.members && steps != []
    requires OnRecord(s, steps, id, r) && !OnRecord(s, steps[..|steps| - 1], id, r)
    ensures SyncGives(s, steps, |steps| - 1, id, r)
  {
    WasThereBefore(s, steps, id);
    RecordedByASync(Run(s, steps[..|steps| - 1]), steps[|steps| - 1], id, r);
    assert steps[..|steps|] == steps;
  }

  /** What is on record was given by an earlier sync of the run and has been on record since. */
  lemma {:induction false} OnRecordSinceGiven(s: Org, steps: seq<Step>, id: MemberId, r: RoleId) returns (j: nat)
    requires KeysOk(s) && id in s.members && r !in s.members[id].automatic && OnRecord(s, steps, id, r)
    ensures SyncGives(s, steps, j, id, r)
    ensures forall i :: j < i <= |steps| ==> OnRecord(s, steps[..i], id, r)
    decreases |steps|
  {
    assert steps != [];
    var front := steps[..|steps| - 1];
    assert steps[..|steps|] == steps;
    if OnRecord(s, front, id, r) {
      j := OnRecordSinceGiven(s, front, id, r);
      assert front[..j] == steps[..j] && front[..j + 1] == steps[..j + 1];
      forall i | j < i <= |front| ensures OnRecord(s, steps[..i], id, r) { assert front[..i] == steps[..i]; }
    } else {
      j := |front|;
      GivenAtLast(s, steps, id, r);
    }
  }

  /** Unless the membership or the role was cleared, what is on record is held. */
  lemma HeldWhileOnRecord(s: Org, steps: seq<Step>, i: nat, id: MemberId, r: RoleId)
    requires KeysOk(s) && id in s.members && r !in s.members[id].automatic
    requires i <= |steps| && OnRecord(s, steps[..i], id, r)
    requires forall p :: p in steps ==> p != Clear(id) && p != ClearRole(r)
    ensures HeldAfter(s, steps[..i], id, r)
  {
    forall p | p in steps[..i] ensures p in steps {}
    TrackedWithoutClears(s, steps[..i], id, r);
  }

  /** Whatever a sync takes from a membership, an earlier sync of the run gave, and it has been on
      record since; unless the membership or the role was cleared, nobody changed it by hand in
      between: it has been held all along. */
  lemma TakenWasGiven(s: Org, steps: seq<Step>, id: MemberId, r: RoleId) returns (j: nat)
    requires KeysOk(s) && id in s.members && r !in s.members[id].automatic
    requires steps != [] && steps[|steps| - 1].Sync? && id in Run(s, steps).members
    requires HeldAfter(s, steps[..|steps| - 1], id, r) && !HeldAfter(s, steps, id, r)
    ensures var front := steps[..|steps| - 1];
            && SyncGives(s, front, j, id, r)
            && (forall i :: j < i <= |front| ==> OnRecord(s, front[..i], id, r))
            && ((forall p :: p in front ==> p != Clear(id) && p != ClearRole(r)) ==>
                  forall i :: j < i <= |front| ==> HeldAfter(s, front[..i], id, r))
  {
    var front := steps[..|steps| - 1];
    WasThereBefore(s, steps, id);
    var before := Run(s, front);
    SyncOutcome(before.roles, before.owner, before.members[id]);
    j := OnRecordSinceGiven(s, front, id, r);
    if forall p :: p in front ==> p != Clear(id) && p != ClearRole(r) {
      forall i | j < i <= |front| { HeldWhileOnRecord(s, front, i, id, r); }
    }
  }

  /** The exact outcome of clearing a role from its own side and syncing later: it is held again
      exactly when it is wanted, nothing is withheld, and if lok had given it, it then counts as
      given by hand. */
  lemma ClearRoleThenSync(s: Org, r: RoleId, id: MemberId)
    requires id in s.members && !s.members[id].Scoped()
    ensures var m := s.members[id];
            var cleared := After(s, ClearRole(r), id).value;
            var m' := Synced(s.roles, s.owner, cleared);
            && (r in m'.roles <==> r in Wanted(s.roles, s.owner, cleared))
            && (HandGiven(m', r) <==> r in Wanted(s.roles, s.owner, cleared) && r in m.automatic)
            && Tracked(m', r) && m'.withheld == m.withheld
  {
    SyncOutcome(s.roles, s.owner, After(s, ClearRole(r), id).value);
  }

  // --- a role deleted through a stale instance ----------------------------------------------

  /** `role.delete()` on an instance that remembers `seen` as the role's identifier: the flags
      are recomputed only when what it remembers is `admin`. */
  function DeletedAs(s: Org, r: RoleId, seen: Option<string>, id: MemberId): Member
    requires id in s.members
  {
    var m := s.members[id];
    var left := m.(roles := m.roles - {r}, automatic := m.automatic - {r}, withheld := m.withheld - {r});
    Recomputed(s.roles - {r}, left, r in m.roles, seen == Some(ADMIN))
  }

  /** An instance that remembers the identifier rightly deletes as the plain step does. */
  lemma FreshDelete(s: Org, r: RoleId, id: MemberId)
    requires id in s.members && r in s.roles
    ensures After(s, DeleteRole(r), id) == Some(DeletedAs(s, r, s.roles[r].identifier, id))
  {
  }

  /** Deleting a role keeps a membership's flag right exactly when the instance in hand remembers
      an `admin` role as one, or the membership is not an admin through this role. */
  lemma StaleDeleteKeepsFlagExactlyWhen(s: Org, r: RoleId, seen: Option<string>, id: MemberId)
    requires OrgOk(s) && id in s.members && r in s.roles
    ensures var m := DeletedAs(s, r, seen, id);
            m.isAdmin == HoldsAdmin(s.roles - {r}, m.roles) <==>
              seen == Some(ADMIN) || s.roles[r].identifier != Some(ADMIN) || r !in s.members[id].roles
  {
    var m := s.members[id];
    assert MemberOk(s.roles, m);
    assert forall x :: x in m.roles && x != r ==> x in s.roles - {r} && (s.roles - {r})[x] == s.roles[x];
    if r in m.roles && s.roles[r].identifier == Some(ADMIN) {
      assert HoldsAdmin(s.roles, m.roles);
      assert forall x :: x in m.roles && x in s.roles && x != r ==> s.roles[x].identifier != Some(ADMIN);
    }
  }

  /** A member whose flag ends up wrong. */
  lemma StaleDeleteLeavesAnAdmin()
    ensures exists s: Org, r: RoleId, seen: Option<string>, id: MemberId ::
              && OrgOk(s) && r in s.roles && id in s.members && DeletedAs(s, r, seen, id).isAdmin
              && DeletedAs(s, r, seen, id).roles == {}
  {
    var m := Member(7, {0}, {}, {}, true, None, map[]);
    var s := Org(8, map[0 := Role(Some(ADMIN), false, false, None)], map[0 := m], map[], map[], 1, 1);
    assert HoldsAdmin(s.roles, {0}) by { assert 0 in s.roles; }
    assert OrgOk(s);
    var after := DeletedAs(s, 0, Some("editor"), 0);
    assert after.isAdmin && after.roles == {};
  }

  /** A step, or a role deleted through a stale instance. */
  datatype Move = Make(step: Step) | DeleteStale(r: RoleId, seen: Option<string>)

  function Moved(s: Org, v: Move): Org {
    match v
    case Make(p) => Next(s, p)
    case DeleteStale(r, seen) =>
      Next(s, DeleteRole(r)).(members := map id | id in s.members :: DeletedAs(s, r, seen, id))
  }

  function MovedAll(s: Org, moves: seq<Move>): Org {
    if moves == [] then s else Moved(MovedAll(s, moves[..|moves| - 1]), moves[|moves| - 1])
  }

  /** The instance in hand does not know that the role it deletes is `admin`, and somebody holds it. */
  ghost predicate LeavesAnAdmin(s: Org, v: Move) {
    && v.DeleteStale? && v.r in s.roles && s.roles[v.r].identifier == Some(ADMIN) && v.seen != Some(ADMIN)
    && exists id :: id in s.members && v.r in s.members[id].roles
  }

  /** The invariant of organizations is kept exactly by the moves that are not such deletes. */
  lemma MoveKeepsOrgOkExactlyWhen(s: Org, v: Move)
    requires OrgOk(s)
    ensures OrgOk(Moved(s, v)) <==> !LeavesAnAdmin(s, v)
  {
    if v.Make? {
      StepKeepsOrgOk(s, v.step);
    } else {
      var stale := Moved(s, v);
      StepKeepsOrgOk(s, DeleteRole(v.r));
      forall id | id in s.members ensures MemberOk(stale.roles, stale.members[id]) <==> !LeavesAdmin(s, v, id) {
        StaleMemberOk(s, v.r, v.seen, id);
      }
      StaleKeepsTheRest(s, v.r, v.seen);
    }
  }

  ghost predicate LeavesAdmin(s: Org, v: Move, id: MemberId)
    requires id in s.members && v.DeleteStale?
  {
    v.r in s.roles && s.roles[v.r].identifier == Some(ADMIN) && v.seen != Some(ADMIN) && v.r in s.members[id].roles
  }

  lemma StaleMemberOk(s: Org, r: RoleId, seen: Option<string>, id: MemberId)
    requires OrgOk(s) && id in s.members
    ensures MemberOk(s.roles - {r}, DeletedAs(s, r, seen, id)) <==> !LeavesAdmin(s, DeleteStale(r, seen), id)
  {
    DeleteKeepsMemberOk(s, DeleteRole(r), id);
    assert MemberOk(s.roles, s.members[id]);
    var right, stale := After(s, DeleteRole(r), id).value, DeletedAs(s, r, seen, id);
    assert stale == right.(isAdmin := stale.isAdmin);
    if r in s.roles { StaleDeleteKeepsFlagExactlyWhen(s, r, seen, id); }
  }

  lemma StaleKeepsTheRest(s: Org, r: RoleId, seen: Option<string>)
    requires OrgOk(s)
    ensures var s' := Moved(s, DeleteStale(r, seen)); KeysOk(s') && UniqueOk(s') && InvitesOk(s')
  {
    StepKeepsOrgOk(s, DeleteRole(r));
    var right, stale := Next(s, DeleteRole(r)), Moved(s, DeleteStale(r, seen));
    forall id | id in s.members ensures id in right.members && stale.members[id].user == right.members[id].user {
      assert After(s, DeleteRole(r), id).Some?;
    }
  }

  ghost predicate AlwaysOk(s: Org, moves: seq<Move>) {
    OrgOk(MovedAll(s, moves)) && (moves != [] ==> AlwaysOk(s, moves[..|moves| - 1]))
  }

  ghost predicate NeverLeavesAnAdmin(s: Org, moves: seq<Move>) {
    moves != [] ==> var front := moves[..|moves| - 1];
      NeverLeavesAnAdmin(s, front) && !LeavesAnAdmin(MovedAll(s, front), moves[|moves| - 1])
  }

  /** Over any run of moves the invariant, with every cached flag right, holds throughout exactly
      when no held `admin` role is deleted through an instance that does not know it as one. */
  lemma {:induction false} FlagsRightExactlyWhen(s: Org, moves: seq<Move>)
    requires OrgOk(s)
    ensures AlwaysOk(s, moves) <==> NeverLeavesAnAdmin(s, moves)
  {
    if moves != [] {
      var front := moves[..|moves| - 1];
      FlagsRightExactlyWhen(s, front);
      if AlwaysOk(s, front) { MoveKeepsOrgOkExactlyWhen(MovedAll(s, front), moves[|moves| - 1]); }
    }
  }
}
