/** The organization as its code changes it: rows updated in place, receivers called in the order
    they are registered, guarded by the two context variables. Each method is proved to make
    exactly the steps of the state machine it stands for. */
module OrganizationStore {
  import opened Rows
  import opened ServiceRoles
  import opened Organizations
  import opened OrganizationWrites
  import Grants
  import Invites

  method StoreRows(grants: map<GrantKey, Grant>, call: Grants.Call)
    returns (rows: map<GrantKey, Grant>, answer: Option<bool>)
    ensures answer.None? <==> Grants.OverCap(grants, call)
    ensures answer.None? ==> PartlyStored(grants, call, rows)
    ensures answer.Some? ==> rows == Grants.Granted(grants, call) && (answer.value <==> Grants.Changes(grants, call))
  {
    NothingStored(grants, call);
    rows := grants;
    var existing, changed, todo := |grants|, false, call.refs.Keys;
    ghost var done: set<GrantKey> := {};
    while todo != {}
      invariant todo <= call.refs.Keys && done == call.refs.Keys - todo && WithinCap(grants, done)
      invariant Progress(rows, changed, existing) == StoredOf(grants, call, done)
      decreases |todo|
    {
      var k := Pick(todo);
      OneLess(call.refs.Keys, todo, k);
      StoredOneMore(grants, call, done, k);
      done := done + {k};
      var created, grew;
      rows, created, grew := StoreRow(rows, k, call);
      changed := changed || grew;
      if created {
        existing := existing + 1;
        if existing > MAX_GRANTS_PER_MEMBERSHIP {
          StoredIsPartly(grants, call, done);
          return rows, None;
        }
      }
      todo := todo - {k};
    }
    AllStored(grants, call, done);
    return rows, Some(changed);
  }

  /** One collaboration: created, or widened when that adds something. */
  method StoreRow(grants: map<GrantKey, Grant>, k: GrantKey, call: Grants.Call)
    returns (rows: map<GrantKey, Grant>, created: bool, grew: bool)
    requires k in call.refs
    ensures created == (k !in grants) && grew == Grants.Grows(grants, k, call.refs[k], call.mesh)
    ensures rows == grants[k := Grants.Put(grants, k, call.refs[k], call)]
  {
    if k !in grants {
      return grants[k := Grant(call.refs[k], call.mesh, call.through, call.granter, call.expiresAt)], true, true;
    }
    var roles := grants[k].roles + call.refs[k];
    if roles != grants[k].roles || (call.mesh && !grants[k].mesh) {
      var grant := grants[k].(
        roles := roles, mesh := grants[k].mesh || call.mesh, through := call.through, granter := call.granter);
      return grants[k := grant], false, true;
    }
    assert roles == grants[k].roles && grants[k := grants[k]] == grants;
    return grants, false, false;
  }

  class Organization {
    var owner: UserId
    var roles: map<RoleId, Role>
    var members: map<MemberId, Member>
    var instances: map<InstanceId, Instance>
    var invites: map<InviteId, Invite>
    var nextRole: RoleId
    var nextMember: MemberId
    /** Set while lok changes roles itself. */
    var syncing: bool
    /** Set while a membership is being made a full member. */
    var upgrading: Option<MemberId>

    function State(): Org
      reads this
    {
      Org(owner, roles, members, instances, invites, nextRole, nextMember)
    }

    /** Between requests neither context variable is set. */
    ghost predicate Idle()
      reads this
    {
      !syncing && upgrading.None?
    }

    constructor (owner: UserId)
      ensures State() == Org(owner, map[], map[], map[], map[], 0, 0) && Idle() && OrgOk(State())
    {
      this.owner, roles, members, instances, invites, nextRole, nextMember := owner, map[], map[], map[], map[], 0, 0;
      syncing, upgrading := false, None;
    }

    // --- the cached admin flag ----------------------------------------------------------------

    /** `sync_admin`: the flags of these memberships are right afterwards; nothing else changes. */
    method SyncAdmin(ids: set<MemberId>)
      modifies this`members
      ensures members == FlagsRecomputed(roles, old(members), ids)
      ensures forall id :: id in members && id in ids ==> members[id].isAdmin == HoldsAdmin(roles, members[id].roles)
      ensures forall id :: id in members ==> members[id] == old(members)[id].(isAdmin := members[id].isAdmin)
    {
      members := map id | id in members ::
        if id in ids then members[id].(isAdmin := HoldsAdmin(roles, members[id].roles)) else members[id];
    }

    /** `sync_all`: from any state every flag is right afterwards, and the answer is how many were wrong. */
    method SyncAll() returns (wrong: nat)
      modifies this`members
      ensures wrong ==
              |set id | id in old(members) && old(members)[id].isAdmin != HoldsAdmin(roles, old(members)[id].roles)|
      ensures members.Keys == old(members).Keys
      ensures forall id :: id in members ==> members[id].isAdmin == HoldsAdmin(roles, members[id].roles)
      ensures forall id :: id in members ==> members[id] == old(members)[id].(isAdmin := members[id].isAdmin)
    {
      var stale := WrongFlags(roles, members);
      SyncAdmin(stale);
      wrong := |stale|;
    }

    // --- the service roles lok hands out ------------------------------------------------------

    /** `_sync`, run while `syncing` is set: the role changes it makes are not an admin's. */
    method SyncOne(m: MemberId)
      requires syncing && m in members && !members[m].Scoped()
      modifies this`members, this`syncing
      ensures syncing
      ensures members == old(members)[m := Synced(roles, owner, old(members)[m])]
      decreases 0, 2
    {
      var adminRoles, defaultRoles := AdminRoles(roles), DefaultRoles(roles);
      var held, automatic, withheld := members[m].roles, members[m].automatic, members[m].withheld;
      var administers := members[m].user == owner || HoldsAdmin(roles, held);
      var wanted := (if administers then adminRoles else {}) + (defaultRoles - withheld);
      var give := wanted - held;
      var take := (automatic * held) - wanted;
      if give != {} {
        var ok := AddRoles(m, give);
        members := members[m := members[m].(automatic := members[m].automatic + give)];
      }
      ghost var row := RowsAdded(roles, old(members)[m], give);
      assert row.automatic + give == if give == {} then row.automatic else row.automatic + give;
      assert members == old(members)[m := row.(automatic := row.automatic + give)];
      if take != {} {
        RemoveRoles(m, take);
      }
      row := RowsRemoved(roles, row.(automatic := row.automatic + give), take);
      assert members == old(members)[m := row];
      assert take == {} && automatic - held == {} ==> row.automatic - (take + (automatic - held)) == row.automatic;
      if take != {} || automatic - held != {} {
        members := members[m := members[m].(automatic := members[m].automatic - (take + (automatic - held)))];
      }
      SyncedByParts(roles, owner, old(members)[m]);
      row := row.(automatic := row.automatic - (take + (automatic - held)));
      assert members == old(members)[m := row];
      assert row == Synced(roles, owner, old(members)[m]);
    }

    /** `sync_service_roles` */
    method SyncServiceRoles(ids: set<MemberId>)
      modifies this`members, this`syncing
      ensures syncing == old(syncing)
      ensures syncing ==> members == old(members)
      ensures !syncing ==> State() == Next(old(State()), Sync(ids))
      decreases if syncing then 0 else 1, 0
    {
      if ids == {} || syncing {
        SyncNobody(State());
        return;
      }
      syncing := true;
      SyncEach(FullMembers(members, ids));
      syncing := false;
      EachSynced(old(State()), ids, members);
    }

    method SyncEach(all: set<MemberId>)
      requires syncing && all <= members.Keys && forall id :: id in all ==> !members[id].Scoped()
      modifies this`members, this`syncing
      ensures syncing && EachIs(roles, owner, old(members), members, all)
      decreases 0, 3
    {
      var todo := all;
      while todo != {}
        invariant syncing && todo <= all && EachIs(roles, owner, old(members), members, all - todo)
        decreases |todo|
      {
        var id := Pick(todo);
        SyncOne(id);
        todo := todo - {id};
      }
      assert all - todo == all;
    }

    /** `_taken_by_an_admin` */
    method TakenByAnAdmin(ms: set<MemberId>, rs: set<RoleId>)
      modifies this`members
      ensures members == MarkedTaken(roles, old(members), ms, rs)
    {
      var defaults := rs * DefaultRoles(roles);
      members := map id | id in members :: if id in ms then members[id].(
        automatic := members[id].automatic - rs, withheld := members[id].withheld + defaults) else members[id];
    }

    /** `_given_by_an_admin` */
    method GivenByAnAdmin(ms: set<MemberId>, rs: set<RoleId>)
      modifies this`members
      ensures members == MarkedGiven(old(members), ms, rs)
    {
      members := map id | id in members ::
        if id in ms then members[id].(withheld := members[id].withheld - rs) else members[id];
    }

    // --- role changes from the membership's side ----------------------------------------------

    /** `membership.roles.add(*rs)` */
    method AddRoles(m: MemberId, rs: set<RoleId>) returns (ok: bool)
      requires m in members && rs <= roles.Keys
      modifies this`members, this`syncing
      ensures syncing == old(syncing)
      ensures ok <==> rs == {} || !old(members)[m].Scoped()
      ensures !syncing ==> State() == Run(old(State()), Invites.AddRoles(m, rs))
      ensures syncing ==>
          members == if ok then old(members)[m := RowsAdded(roles, old(members)[m], rs)] else old(members)
      decreases if syncing then 0 else 1, 1
    {
      if rs == {} { return true; }
      ghost var s := State();
      var missing := rs - members[m].roles;
      if members[m].Scoped() {  // _no_roles_for_scoped_members, before anything is written
        RefusedToAGuest(s, m, rs);
        return false;
      }
      members := members[m := members[m].(roles := members[m].roles + missing)];
      SyncAdmin({m});
      AddedByParts(roles, s.members, m, rs);
      if !syncing {
        GivenByAnAdmin({m}, missing);
        GivenByParts(s, m, rs);
        SyncServiceRoles({m});
        RunTwo(s, Give(m, rs), Sync({m}));
      }
      return true;
    }

    /** `membership.roles.remove(*rs)` */
    method RemoveRoles(m: MemberId, rs: set<RoleId>)
      requires m in members && (!syncing ==> rs <= roles.Keys)
      modifies this`members, this`syncing
      ensures syncing == old(syncing)
      ensures !syncing ==> State() == Run(old(State()), if rs == {} then [] else [Take(m, rs), Sync({m})])
      ensures syncing ==> members == old(members)[m := RowsRemoved(roles, old(members)[m], rs)]
      decreases if syncing then 0 else 1, 1
    {
      if rs == {} { return; }
      ghost var s := State();
      members := members[m := members[m].(roles := members[m].roles - rs)];
      SyncAdmin({m});
      RemovedByParts(roles, s.members, m, rs);
      if !syncing {
        TakenByAnAdmin({m}, rs);
        TakenByParts(s, m, rs);
        SyncServiceRoles({m});
        RunTwo(s, Take(m, rs), Sync({m}));
      }
    }

    /** `membership.roles.clear()` by hand */
    method ClearRoles(m: MemberId)
      requires m in members && !syncing
      modifies this`members, this`syncing
      ensures !syncing && State() == Run(old(State()), [Clear(m), Sync({m})])
    {
      ghost var s := State();
      var heldBefore := members[m].roles * DefaultRoles(roles);  // pre_clear
      members := members[m := members[m].(roles := {})];
      SyncAdmin({m});
      TakenByAnAdmin({m}, heldBefore);
      ClearedByParts(s, m);
      SyncServiceRoles({m});
      RunTwo(s, Clear(m), Sync({m}));
    }

    // --- role changes from the role's side ----------------------------------------------------

    /** `role.memberships.add(*ms)` */
    method AddMembers(r: RoleId, ms: set<MemberId>) returns (ok: bool)
      requires !syncing && r in roles && ms <= members.Keys
      modifies this`members, this`syncing
      ensures !syncing
      ensures ok <==> MayGiveTo(old(State()), GiveTo(r, ms))
      ensures State() == if ok then Run(old(State()), [GiveTo(r, ms), Sync(ms - Holders(old(members), r))])
              else old(State())
    {
      ghost var s := State();
      var missing := ms - Holders(members, r);
      if exists m :: m in missing && members[m].Scoped() { return false; }
      members := Inserted(members, r, missing);
      SyncAdmin(missing);
      GivenByAnAdmin(missing, {r});
      GivenToByParts(s, r, ms);
      SyncServiceRoles(missing);
      RunTwo(s, GiveTo(r, ms), Sync(missing));
      return true;
    }

    /** `role.memberships.remove(*ms)` */
    method RemoveMembers(r: RoleId, ms: set<MemberId>)
      requires !syncing && r in roles
      modifies this`members, this`syncing
      ensures !syncing && State() == Run(old(State()), [TakeFrom(r, ms), Sync(ms)])
    {
      ghost var s := State();
      members := Deleted(members, r, ms);
      SyncAdmin(ms);
      TakenByAnAdmin(ms, {r});
      TakenFromByParts(s, r, ms);
      SyncServiceRoles(ms);
      RunTwo(s, TakeFrom(r, ms), Sync(ms));
    }

    /** `role.memberships.clear()`: nobody is synced and nothing is withheld. */
    method ClearMembers(r: RoleId)
      modifies this`members
      ensures State() == Next(old(State()), ClearRole(r))
    {
      ghost var s := State();
      var heldBefore := Holders(members, r);  // pre_clear
      members := Deleted(members, r, heldBefore);
      SyncAdmin(heldBefore);
      ClearedRoleByParts(s, r);
    }

    /** A role saved with another identifier. */
    method RenameRole(r: RoleId, identifier: Option<string>) returns (ok: bool)
      requires r in roles
      modifies this`members, this`roles
      ensures ok <==> MayRename(old(State()), Rename(r, identifier))
      ensures State() == Next(old(State()), Rename(r, identifier))
    {
      ghost var s := State();
      var identifierBefore := roles[r].identifier;  // pre_save
      if identifier.Some? && exists other :: other in roles && other != r && roles[other].identifier == identifier {
        NoRow(s, Rename(r, identifier));
        return false;
      }
      roles := roles[r := roles[r].(identifier := identifier)];
      if (identifierBefore == Some(ADMIN)) != (identifier == Some(ADMIN)) {
        SyncAdmin(Holders(members, r));
      }
      RenamedByParts(s, r, identifier);
      assert FlagsRecomputed(roles, s.members, {}) == s.members;
      return true;
    }

    /** `role.delete()` */
    method DeleteRole(r: RoleId)
      requires r in roles
      modifies this`members, this`roles, this`invites
      ensures State() == Next(old(State()), Step.DeleteRole(r)) && roles == old(roles) - {r}
    {
      ghost var s := State();
      var heldBefore := if roles[r].identifier == Some(ADMIN) then Holders(members, r) else {};  // pre_delete
      members := RoleRowsGone(members, r);
      invites := map i | i in invites :: invites[i].(roles := invites[i].roles - {r});
      roles := roles - {r};
      SyncAdmin(heldBefore);
      DeletedByParts(s, r);
    }

    // --- collaboration grants -----------------------------------------------------------------

    /** `grant_collaborations`. When it raises, nothing has changed, or the membership is over the
        cap with some of the collaborations stored, for the caller's transaction to roll back. */
    method GrantCollaborations(m: MemberId, entries: seq<RawEntry>, through: Option<InviteId>, granter: Option<UserId>,
                               expiresAt: Option<int>, mesh: bool) returns (answer: Option<bool>)
      requires m in members
      modifies this`members
      ensures answer.Some? <==>
                && Grants.Merge(entries).Some?
                && MayPutGrants(old(State()),
                  PutGrants(m, Grants.Call(Grants.Merge(entries).value, through, granter, expiresAt, mesh)))
      ensures answer.Some? ==> var call := Grants.Call(Grants.Merge(entries).value, through, granter, expiresAt, mesh);
                && State() == Next(old(State()), PutGrants(m, call))
                && (answer.value <==> Grants.Changes(old(members)[m].grants, call))
      ensures answer.None? && members != old(members) ==>
                && Grants.Merge(entries).Some?
                && OverTheCap(old(members), members, m,
                  Grants.Call(Grants.Merge(entries).value, through, granter, expiresAt, mesh))
    {
      if members[m].roles != {} { return None; }
      var merged := Grants.MergeEntries(entries);
      if merged.None? || merged.value == map[] { return None; }
      var refs := merged.value;
      if exists k :: k in refs && k.instance !in instances { return None; }
      ghost var s, call := State(), Grants.Call(refs, through, granter, expiresAt, mesh);
      answer := StoreGrants(m, Grants.Call(refs, through, granter, expiresAt, mesh));
      if answer.Some? { GrantsStored(s, m, call); }
    }

    /** The loop over the collaborations, in any order, on the grant rows of the membership. */
    method StoreGrants(m: MemberId, call: Grants.Call) returns (answer: Option<bool>)
      requires m in members
      modifies this`members
      ensures answer.None? <==> Grants.OverCap(old(members)[m].grants, call)
      ensures answer.None? ==> OverTheCap(old(members), members, m, call)
      ensures answer.Some? ==>
          members == old(members)[m := old(members)[m].(grants := Grants.Granted(old(members)[m].grants, call))]
      ensures answer.Some? ==> (answer.value <==> Grants.Changes(old(members)[m].grants, call))
    {
      var rows;
      rows, answer := StoreRows(members[m].grants, call);
      members := members[m := members[m].(grants := rows)];
    }

    /** A grant row is deleted, and its receiver runs: the last grant takes the membership along,
        except while the membership is being upgraded, and except when the delete came from a
        membership, an organization or a user. */
    method DeleteGrant(m: MemberId, k: GrantKey, origin: Origin)
      requires m in members && k in members[m].grants
      modifies this`members
      ensures upgrading != Some(m) && !LeftToOrigin(origin) ==> State() == Next(old(State()), DropGrants({(m, k)}))
      ensures upgrading == Some(m) || LeftToOrigin(origin) ==>
                members == old(members)[m := old(members)[m].(grants := old(members)[m].grants - {k})]
    {
      ghost var s := State();
      members := members[m := members[m].(grants := members[m].grants - {k})];
      if upgrading == Some(m) { return; }
      if LeftToOrigin(origin) { return; }
      if members[m].grants == map[] && members[m].roles == {} {
        members := members - {m};
      }
      assert members == GrantGone(s.members, m, k);
      GrantGoneIsDropped(s, m, k);
    }

    /** `revoke_grant`: whether the membership went with its last grant. */
    method RevokeGrant(m: MemberId, k: GrantKey) returns (gone: bool)
      requires Idle() && m in members && k in members[m].grants
      modifies this`members
      ensures State() == Next(old(State()), DropGrants({(m, k)}))
      ensures gone <==> m !in members
    {
      DeleteGrant(m, k, FromGrant);
      gone := m !in members;
    }

    /** One turn of the loop below. */
    method DeleteOneMore(ghost s: Org, ghost selected: set<(MemberId, GrantKey)>, ghost todo: set<(MemberId, GrantKey)>,
                         m: MemberId, k: GrantKey, origin: Origin)
      requires Idle() && !LeftToOrigin(origin)
      requires (m, k) in todo && todo <= selected && m in s.members && k in s.members[m].grants
      requires State() == Next(s, DropGrants(selected - todo))
      modifies this`members
      ensures State() == Next(s, DropGrants(selected - (todo - {(m, k)})))
    {
      OneLess(selected, todo, (m, k));
      DropOneMore(s, selected - todo, m, k);
      DeleteGrant(m, k, origin);
    }

    /** Deletes these grant rows one by one, in any order. */
    method DeleteGrants(selected: set<(MemberId, GrantKey)>, origin: Origin)
      requires Idle() && !LeftToOrigin(origin)
      requires forall x :: x in selected ==> x.0 in members && x.1 in members[x.0].grants
      modifies this`members
      ensures State() == Next(old(State()), DropGrants(selected))
    {
      ghost var s := State();
      var todo := selected;
      DropNone(s);
      assert selected - selected == {};
      while todo != {}
        invariant todo <= selected && State() == Next(s, DropGrants(selected - todo))
        decreases |todo|
      {
        var x := Pick(todo);
        DeleteOneMore(s, selected, todo, x.0, x.1, origin);
        todo := todo - {x};
      }
      assert selected - {} == selected;
    }

    /** `revoke_invite_grants` */
    method RevokeInviteGrants(i: InviteId) returns (count: nat)
      requires Idle()
      modifies this`members
      ensures State() == Next(old(State()), DropGrants(GrantsThrough(old(members), i)))
      ensures count == |set id, k | id in old(members) && k in old(members)[id].grants &&
                                   old(members)[id].grants[k].through == Some(i) :: (id, k)|
    {
      var grants := GrantsThrough(members, i);
      DeleteGrants(grants, FromGrant);
      count := |grants|;
    }

    /** The roles a deleted service instance declared go with it. */
    method DeleteRolesOf(x: InstanceId) returns (ghost steps: seq<Step>)
      modifies this`members, this`roles, this`invites
      ensures forall p :: p in steps ==> p.DeleteRole?
      ensures State() == Run(old(State()), steps) && roles == RolesWithout(old(roles), x)
    {
      ghost var s := State();
      var all := set r | r in roles && roles[r].creatingInstance == Some(x);
      var todo := all;
      steps := [];
      while todo != {}
        invariant todo <= all && State() == Run(s, steps)
        invariant forall p :: p in steps ==> p.DeleteRole?
        invariant roles == s.roles - (all - todo)
        decreases |todo|
      {
        var r := Pick(todo);
        DeleteRole(r);
        RunOneMore(s, steps, Step.DeleteRole(r));
        OneRoleLess(s.roles, all, todo, r);
        steps := steps + [Step.DeleteRole(r)];
        todo := todo - {r};
      }
      NoRoleLeft(s.roles, all, x);
    }

    /** A service instance is deleted: the grants on it go, with the memberships that had no
        other, and the roles it declared. */
    method DeleteInstance(x: InstanceId) returns (ghost steps: seq<Step>)
      requires Idle()
      modifies this`members, this`roles, this`invites, this`instances
      ensures forall p :: p in steps ==> p.DeleteRole?
      ensures State() == Run(old(State()), [DropGrants(GrantsOn(old(members), x))] + steps + [DropInstance(x)])
      ensures roles == RolesWithout(old(roles), x)
    {
      ghost var s := State();
      DeleteGrants(GrantsOn(members, x), FromInstance);
      ghost var s1 := State();
      steps := DeleteRolesOf(x);
      instances := instances - {x};
      InstanceGone(s, s1, steps, x);
    }

    /** The grant rows that a deleted user takes along: their receivers leave the memberships alone. */
    method DeleteGrantsOfOthers(selected: set<(MemberId, GrantKey)>)
      requires forall x :: x in selected ==> x.0 in members && x.1 in members[x.0].grants
      modifies this`members
      ensures members == GrantRowsGone(old(members), selected)
    {
      ghost var before := members;
      var todo := selected;
      NoGrantRow(members);
      assert selected - selected == {};
      while todo != {}
        invariant todo <= selected && members == GrantRowsGone(before, selected - todo)
        decreases |todo|
      {
        var x := Pick(todo);
        assert (x.0, x.1) == x;
        OneLess(selected, todo, x);
        OneGrantRowMore(before, selected - todo, x.0, x.1);
        DeleteGrant(x.0, x.1, FromUser);
        todo := todo - {x};
      }
      assert selected - {} == selected;
    }

    /** `user.delete()`, for a user who does not own the organization: the grants on the instances
        they are responsible for, what refers to them, the roles these instances declared, and last
        their own membership. */
    method DeleteUser(u: UserId)
      requires u != owner
      modifies this`members, this`roles, this`invites, this`instances
      ensures State() == Next(old(State()), Step.DeleteUser(u))
    {
      var before := State();
      var goneRoles := GoneRoles(before, u);
      var heldBefore := AdminsOf(members, roles, goneRoles);  // pre_delete of the roles
      DeleteGrantsOfOthers(GrantsOfOthers(members, u, GoneInstances(before, u)));
      members := StrippedRows(before, u, members);
      invites := WithoutRoles(invites - GoneInvites(before, u), goneRoles);
      roles, instances := roles - goneRoles, instances - GoneInstances(before, u);
      SyncAdmin(heldBefore);  // post_delete of the roles
      members := Others(members, u);
      UserDeletedByParts(before, u);
    }

    /** `upgrade_to_full`: the grants go one by one, the membership stays. */
    method UpgradeToFull(m: MemberId)
      requires Idle() && m in members
      modifies this`members, this`upgrading
      ensures Idle() && State() == Next(old(State()), Upgrade(m))
    {
      upgrading := Some(m);
      var todo := members[m].grants.Keys;
      while todo != {}
        invariant m in members && upgrading == Some(m) && members[m].grants.Keys == todo
        invariant members == old(members)[m := old(members)[m].(grants := members[m].grants)]
        decreases |todo|
      {
        var k :| k in todo;
        DeleteGrant(m, k, FromGrant);
        todo := todo - {k};
      }
      upgrading := None;
      OneRow(old(State()), Upgrade(m), m, old(members)[m].(grants := map[]));
    }

    // --- becoming a member --------------------------------------------------------------------

    method FindMember(u: UserId) returns (found: Option<MemberId>)
      requires UniqueOk(State())
      ensures found == Invites.MemberOf(State(), u)
    {
      if exists id :: id in members && members[id].user == u {
        var id :| id in members && members[id].user == u;
        assert IsMemberOf(State(), u, id);
        return Some(id);
      }
      assert forall id :: !IsMemberOf(State(), u, id);
      return None;
    }

    /** `Membership.objects.create` */
    method CreateMember(u: UserId, through: Option<InviteId>) returns (m: MemberId)
      requires MayJoin(State(), u)
      modifies this`members, this`nextMember
      ensures State() == Next(old(State()), Join(u, through))
      ensures m == old(nextMember) && m in members && !members[m].Scoped()
    {
      m := nextMember;
      members, nextMember := members[nextMember := NewMember(u, through)], nextMember + 1;
      assert Survivors(old(State()), Join(u, through)) == old(members);
    }

    /** The part of `redeem_invite` that makes a guest, or gives a guest more. */
    method GrantShared(i: InviteId, u: UserId, found: Option<MemberId>) returns (outcome: Invites.Outcome)
      requires Idle() && OrgOk(State()) && i in invites
      requires invites[i].shared.Some? && found == Invites.MemberOf(State(), u)
      modifies this`members, this`nextMember
      ensures var plan :=
          Invites.RedeemShared(old(State()), i, u); outcome == plan.outcome && State() == Run(old(State()), plan.steps)
    {
      var before, invite := State(), invites[i];
      NotAMember(before, u);
      var m;
      if found.None? { m := CreateMember(u, Some(i)); } else { m := found.value; }
      ghost var s1 := State();
      Joined(before, u, i);
      var answer := GrantCollaborations(m, invite.shared.value, Some(i), Some(invite.createdBy), None, invite.mesh);
      SharedByParts(before, s1, i, u);
      if answer.None? {
        members, nextMember := before.members, before.nextMember;  // the transaction is rolled back
        return Invites.Refused;
      }
      return if answer.value then Invites.BecameGuest(m) else Invites.HadItAll(m);
    }

    /** `membership.roles.set(rs)` */
    method SetRoles(m: MemberId, rs: set<RoleId>)
      requires Idle() && m in members && !members[m].Scoped() && members[m].roles + rs <= roles.Keys
      modifies this`members, this`syncing
      ensures Idle() && State() == Run(old(State()), Invites.SetRoles(old(State()), m, rs))
    {
      ghost var s := State();
      var held := members[m].roles;
      RemoveRoles(m, held - rs);
      ghost var s1 := State();
      TakingKeepsAFullMember(s, m, held - rs);
      var ok := AddRoles(m, rs - held);
      ghost var taking := if held - rs == {} then [] else [Take(m, held - rs), Sync({m})];
      Invites.RunConcat(s, taking, Invites.AddRoles(m, rs - held));
    }

    /** `_assign_invite_roles` */
    method AssignInviteRoles(m: MemberId, invite: Invite)
      requires Idle() && m in members && !members[m].Scoped() && members[m].roles + invite.roles <= roles.Keys
      modifies this`members, this`syncing
      ensures Idle() && State() == Run(old(State()), Invites.AssignInviteRoles(old(State()), m, invite))
    {
      if invite.roles != {} {
        SetRoles(m, invite.roles);
      } else {
        var ok := AddRoles(m, Named(roles, GUEST));
      }
    }

    /** The part of `redeem_invite` that makes a full member, also of a guest. */
    method EnterFully(i: InviteId, u: UserId, found: Option<MemberId>) returns (m: MemberId)
      requires Idle() && OrgOk(State()) && i in invites && found == Invites.MemberOf(State(), u)
      requires found.Some? ==> members[found.value].Scoped()
      modifies this`members, this`nextMember, this`syncing, this`upgrading
      ensures Idle()
      ensures var plan := Invites.RedeemOrdinary(old(State()), i, u);
              plan.outcome == Invites.BecameMember(m) && State() == Run(old(State()), plan.steps)
    {
      ghost var s := State();
      var invite := invites[i];
      NotAMember(s, u);
      if found.None? {
        m := CreateMember(u, Some(i));
      } else {
        m := found.value;
        UpgradeToFull(m);
        Upgraded(s, m, u, i);
        members := members[m := members[m].(createdThrough := Some(i))];
      }
      Entered(s, u, i);
      AssignInviteRoles(m, invite);
      Invites.RunConcat(s, Invites.EnteringFully(s, u, i),
        Invites.AssignInviteRoles(Run(s, Invites.EnteringFully(s, u, i)), m, invite));
    }

    /** The memberships' part of `redeem_invite`. */
    method Enter(i: InviteId, u: UserId, now: int) returns (outcome: Invites.Outcome)
      requires Idle() && OrgOk(State())
      modifies this`members, this`nextMember, this`syncing, this`upgrading
      ensures Idle()
      ensures var plan :=
          Invites.Entering(old(State()), i, u, now); outcome == plan.outcome && State() == Run(old(State()), plan.steps)
    {
      if i !in invites || !Invites.Acceptable(invites[i], now) { return Invites.Refused; }
      var found := FindMember(u);
      NotAMember(State(), u);
      if found.Some? && !members[found.value].Scoped() {
        outcome := Invites.AlreadyMember(found.value);
      } else if invites[i].shared.Some? {
        outcome := GrantShared(i, u, found);
      } else {
        var m := EnterFully(i, u, found);
        outcome := Invites.BecameMember(m);
      }
    }

    /** A redemption that gives something counts a use; an ordinary invite is accepted, a
        collaboration invite only when its uses are used up. */
    method SpendInvite(i: InviteId, outcome: Invites.Outcome)
      requires i in invites
      modifies this`invites
      ensures invites == old(invites)[i := Invites.InviteAfter(old(invites)[i], outcome)]
    {
      var invite := invites[i];
      if outcome.BecameGuest? || outcome.BecameMember? {
        invite := invite.(uses := invite.uses + 1);
      }
      var spent := invite.maxUses.Some? && invite.uses >= invite.maxUses.value;
      if outcome.BecameMember? || (outcome.AlreadyMember? && invite.shared.None?) || (outcome.BecameGuest? && spent) {
        invite := invite.(status := Accepted);
      }
      invites := invites[i := invite];
    }

    /** `redeem_invite` */
    method RedeemInvite(i: InviteId, u: UserId, now: int) returns (outcome: Invites.Outcome)
      requires Idle() && OrgOk(State())
      modifies this`members, this`nextMember, this`syncing, this`upgrading, this`invites
      ensures Idle()
      ensures var plan :=
          Invites.Redeem(old(State()), i, u, now); outcome == plan.outcome && State() == Run(old(State()), plan.steps)
    {
      ghost var s := State();
      outcome := Enter(i, u, now);
      Redeemed(s, i, u, now);
      if i in invites { SpendInvite(i, outcome); }
    }

    /** The first part of `MembershipRequest.approve`: `get_or_create`, and a guest is upgraded. */
    method LetIn(u: UserId) returns (m: MemberId)
      requires Idle() && OrgOk(State())
      modifies this`members, this`nextMember, this`upgrading
      ensures Idle() && State() == Run(old(State()), Invites.LettingIn(old(State()), u))
      ensures m == Invites.Entrant(old(State()), u)
      ensures IsMemberOf(State(), u, m) && !members[m].Scoped()
    {
      ghost var s := State();
      NotAMember(s, u);
      var found := FindMember(u);
      if found.None? {
        m := CreateMember(u, None);
        Invites.RunOne(s, Join(u, None));
      } else {
        m := found.value;
        if members[m].Scoped() {
          UpgradeToFull(m);
          Invites.RunOne(s, Upgrade(m));
          OneRow(s, Upgrade(m), m, s.members[m].(grants := map[]));
        }
      }
    }

    /** `MembershipRequest.approve` */
    method ApproveMembershipRequest(u: UserId, picked: set<RoleId>) returns (m: MemberId)
      requires Idle() && OrgOk(State()) && picked <= roles.Keys
      modifies this`members, this`nextMember, this`syncing, this`upgrading
      ensures Idle()
      ensures State() == Run(old(State()), Invites.Approve(old(State()), u, picked))
      ensures IsMemberOf(State(), u, m) && !members[m].Scoped()
    {
      ghost var s := State();
      m := LetIn(u);
      ghost var s1 := State();
      var rs := if picked != {} then picked else Named(roles, GUEST);
      var ok := AddRoles(m, rs);
      AddingKeepsAFullMember(s1, m, rs);
      Invites.RunConcat(s, Invites.LettingIn(s, u), Invites.AddRoles(m, rs));
    }
  }
}
