/** One organization as a state machine. A step is one write the code makes together with the
    receivers that run with it; a step the code refuses (it raises inside its transaction)
    leaves the organization as it was. A deferred `on_commit` sync is a `Sync` step taken later. */
module Organizations {
  import opened Rows
  import opened ServiceRoles
  import Grants

  datatype Step =
    | Give(m: MemberId, rs: set<RoleId>)
    | Take(m: MemberId, rs: set<RoleId>)
    | Clear(m: MemberId)
    | GiveTo(r: RoleId, ms: set<MemberId>)
    | TakeFrom(r: RoleId, ms: set<MemberId>)
    | ClearRole(r: RoleId)
    | Sync(ms: set<MemberId>)
    | Declare(identifier: string, adminRole: bool, defaultRole: bool, declaredBy: Option<InstanceId>)
    | Rename(r: RoleId, newIdentifier: Option<string>)
    | DeleteRole(r: RoleId)
    | SetOwner(u: UserId)
    | Join(u: UserId, through: Option<InviteId>)
    | Save(m: MemberId, stale: Member)
    | Leave(m: MemberId)
    | PutGrants(m: MemberId, call: Grants.Call)
    | DropGrants(selected: set<(MemberId, GrantKey)>)
    | Upgrade(m: MemberId)
    | PutInvite(i: InviteId, invite: Invite)
    | AddInstance(instance: InstanceId, row: Instance)
    | DropInstance(instance: InstanceId)
    | DeleteUser(u: UserId)

  /** Adding roles raises for a guest; unknown roles break a foreign key. */
  predicate MayGive(s: Org, p: Step)
    requires p.Give?
  {
    p.m in s.members && p.rs <= s.roles.Keys && !s.members[p.m].Scoped()
  }

  predicate MayGiveTo(s: Org, p: Step)
    requires p.GiveTo?
  {
    && p.r in s.roles && p.ms <= s.members.Keys
    && forall m :: m in p.ms && p.r !in s.members[m].roles ==> !s.members[m].Scoped()
  }

  /** `grant_collaborations` inside its transaction: no roles, something to grant, instances of
      the organization, within the cap. */
  predicate MayPutGrants(s: Org, p: Step)
    requires p.PutGrants?
  {
    && p.m in s.members && s.members[p.m].roles == {} && p.call.refs != map[]
    && (forall k :: k in p.call.refs ==> k.instance in s.instances)
    && !Grants.OverCap(s.members[p.m].grants, p.call)
  }

  predicate MayPutInvite(s: Org, p: Step)
    requires p.PutInvite?
  {
    p.invite.roles <= s.roles.Keys
  }

  /** A role's identifier is unique in its organization (null is not compared). */
  predicate MayRename(s: Org, p: Step)
    requires p.Rename?
  {
    && p.r in s.roles
    && (p.newIdentifier.Some? ==> forall r :: r in s.roles && r != p.r ==> s.roles[r].identifier != p.newIdentifier)
  }

  function Redeclared(role: Role, identifier: string, adminRole: bool, defaultRole: bool): Role {
    if role.identifier == Some(identifier) then role.(adminRole := adminRole, defaultRole := defaultRole) else role
  }

  function RolesAfter(s: Org, p: Step): map<RoleId, Role> {
    match p
    case Declare(identifier, adminRole, defaultRole, declaredBy) =>
      if Named(s.roles, identifier) == {} then
        s.roles[s.nextRole := Role(Some(identifier), adminRole, defaultRole, declaredBy)]
      else
        map r | r in s.roles :: Redeclared(s.roles[r], identifier, adminRole, defaultRole)
    case Rename(r, newIdentifier) =>
      if MayRename(s, p) then s.roles[r := s.roles[r].(identifier := newIdentifier)] else s.roles
    case DeleteRole(r) => s.roles - {r}
    case DeleteUser(u) => if MayDeleteUser(s, u) then s.roles - GoneRoles(s, u) else s.roles
    case _ => s.roles
  }

  // --- what goes with a user ----------------------------------------------------------------

  /** With its owner the organization itself goes, which is no state of it any more. */
  predicate MayDeleteUser(s: Org, u: UserId) { u != s.owner }

  /** The instances the user is responsible for, or whose hub they created. */
  function GoneInstances(s: Org, u: UserId): set<InstanceId> {
    set x | x in s.instances && (s.instances[x].steward == u || s.instances[x].creator == u)
  }

  /** The roles these instances declared. */
  function GoneRoles(s: Org, u: UserId): set<RoleId> {
    set r |
      r in s.roles && s.roles[r].creatingInstance.Some? && s.roles[r].creatingInstance.value in GoneInstances(s, u)
  }

  function GoneInvites(s: Org, u: UserId): set<InviteId> {
    set i | i in s.invites && s.invites[i].createdBy == u
  }

  /** A nullable reference once these rows are gone. */
  function Nulled(reference: Option<int>, gone: set<int>): Option<int> {
    if reference.Some? && reference.value in gone then None else reference
  }

  /** The grants of somebody else: those on the user's instances go, the user is no granter any more. */
  function GrantsLeft(s: Org, u: UserId, grants: map<GrantKey, Grant>): map<GrantKey, Grant> {
    map k | k in grants && k.instance !in GoneInstances(s, u) ::
      grants[k].(through := Nulled(grants[k].through, GoneInvites(s, u)), granter := Nulled(grants[k].granter, {u}))
  }

  /** Somebody else's membership. The receiver that drops a membership without grants returns when
      the delete comes from a user, so the membership stays even if its last grant went. */
  function Bereft(s: Org, u: UserId, m: Member): Member {
    var gone := GoneRoles(s, u);
    var left := m.(
      roles := m.roles - gone,
      automatic := m.automatic - gone,
      withheld := m.withheld - gone,
      createdThrough := Nulled(m.createdThrough, GoneInvites(s, u)),
      grants := GrantsLeft(s, u, m.grants));
    Recomputed(s.roles - gone, left, HoldsAdmin(s.roles, m.roles * gone), true)
  }

  function InstancesAfter(s: Org, p: Step): map<InstanceId, Instance> {
    match p
    case AddInstance(x, row) => s.instances[x := row]
    case DropInstance(x) => s.instances - {x}
    case DeleteUser(u) => if MayDeleteUser(s, u) then s.instances - GoneInstances(s, u) else s.instances
    case _ => s.instances
  }

  function WithoutRoles(invites: map<InviteId, Invite>, gone: set<RoleId>): map<InviteId, Invite> {
    map i | i in invites :: invites[i].(roles := invites[i].roles - gone)
  }

  function InvitesAfter(s: Org, p: Step): map<InviteId, Invite> {
    match p
    case PutInvite(i, invite) => if MayPutInvite(s, p) then s.invites[i := invite] else s.invites
    case DeleteRole(r) => WithoutRoles(s.invites, {r})
    case DeleteUser(u) =>
      if MayDeleteUser(s, u) then WithoutRoles(s.invites - GoneInvites(s, u), GoneRoles(s, u)) else s.invites
    case _ => s.invites
  }

  // --- the steps ----------------------------------------------------------------------------

  /** The cached flag is recomputed for whoever holds the role, when `recompute` says so. */
  function Recomputed(roles: Roles, m: Member, held: bool, recompute: bool): Member {
    if held && recompute then m.(isAdmin := HoldsAdmin(roles, m.roles)) else m
  }

  function Remaining(m: Member, id: MemberId, selected: set<(MemberId, GrantKey)>): map<GrantKey, Grant> {
    map k | k in m.grants && (id, k) !in selected :: m.grants[k]
  }

  /** What the step makes of an existing membership; `None` when the membership goes. */
  function After(s: Org, p: Step, id: MemberId): Option<Member>
    requires id in s.members
  {
    var m := s.members[id];
    match p
    case Give(target, rs) => Some(if id == target && MayGive(s, p) then Given(s.roles, m, rs) else m)
    case Take(target, rs) => Some(if id == target && rs <= s.roles.Keys then Taken(s.roles, m, rs) else m)
    case Clear(target) => Some(if id == target then Cleared(s.roles, m) else m)
    case GiveTo(r, ms) => Some(if id in ms && r !in m.roles && MayGiveTo(s, p) then Given(s.roles, m, {r}) else m)
    case TakeFrom(r, ms) => Some(if id in ms && r in s.roles then Taken(s.roles, m, {r}) else m)
    case ClearRole(r) => Some(Recomputed(s.roles, m.(roles := m.roles - {r}), r in m.roles, true))
    case Sync(ms) => Some(if id in ms then SyncedUnlessGuest(s.roles, s.owner, m) else m)
    case Rename(r, newIdentifier) =>
      Some(Recomputed(RolesAfter(s, p), m, r in m.roles,
                      MayRename(s, p) && (s.roles[r].identifier == Some(ADMIN)) != (newIdentifier == Some(ADMIN))))
    case DeleteRole(r) =>
      Some(Recomputed(RolesAfter(s, p),
        m.(roles := m.roles - {r}, automatic := m.automatic - {r}, withheld := m.withheld - {r}),
                      r in m.roles, r in s.roles && s.roles[r].identifier == Some(ADMIN)))
    case Save(target, stale) => Some(if id == target then m.(createdThrough := stale.createdThrough) else m)
    case Leave(target) => if id == target then None else Some(m)
    case PutGrants(target, call) =>
      Some(if id == target && MayPutGrants(s, p) then m.(grants := Grants.Granted(m.grants, call)) else m)
    case DropGrants(selected) =>
      var grants := Remaining(m, id, selected);
      if grants == map[] && m.Scoped() && m.roles == {} then None else Some(m.(grants := grants))
    case Upgrade(target) => Some(if id == target then m.(grants := map[]) else m)
    case DeleteUser(u) => if !MayDeleteUser(s, u) then Some(m) else if m.user == u then None else Some(Bereft(s, u, m))
    case _ => Some(m)
  }

  /** A user has at most one membership in the organization. */
  predicate MayJoin(s: Org, u: UserId) { forall id :: id in s.members ==> s.members[id].user != u }

  function NewMember(u: UserId, through: Option<InviteId>): Member {
    Member(u, {}, {}, {}, false, through, map[])
  }

  function Survivors(s: Org, p: Step): map<MemberId, Member> {
    map id | id in s.members && After(s, p, id).Some? :: After(s, p, id).value
  }

  function Next(s: Org, p: Step): Org {
    var joins := p.Join? && MayJoin(s, p.u);
    Org(
      if p.SetOwner? then p.u else s.owner,
      RolesAfter(s, p),
      if joins then Survivors(s, p)[s.nextMember := NewMember(p.u, p.through)] else Survivors(s, p),
      InstancesAfter(s, p),
      InvitesAfter(s, p),
      if p.Declare? && Named(s.roles, p.identifier) == {} then s.nextRole + 1 else s.nextRole,
      if joins then s.nextMember + 1 else s.nextMember)
  }

  function Run(s: Org, steps: seq<Step>): Org {
    if steps == [] then s else Next(Run(s, steps[..|steps| - 1]), steps[|steps| - 1])
  }

  // --- what every step keeps ---------------------------------------------------------------

  /** A guest holds no role; the cached flag is the definition; rows refer to rows that exist;
      the cap on grants holds. */
  ghost predicate MemberOk(roles: Roles, m: Member) {
    && (m.Scoped() ==> m.roles == {})
    && m.isAdmin == HoldsAdmin(roles, m.roles)
    && m.roles + m.automatic + m.withheld <= roles.Keys
    && |m.grants| <= MAX_GRANTS_PER_MEMBERSHIP
  }

  ghost predicate KeysOk(s: Org) {
    && 0 <= s.nextMember && (forall id :: id in s.members ==> 0 <= id < s.nextMember)
    && (forall r :: r in s.roles ==> r < s.nextRole)
  }

  ghost predicate UniqueOk(s: Org) {
    && (forall a, b :: a in s.members && b in s.members && s.members[a].user == s.members[b].user ==> a == b)
    && (forall a, b | a in s.roles && b in s.roles && s.roles[a].identifier.Some? ::
          s.roles[a].identifier == s.roles[b].identifier ==> a == b)
  }

  ghost predicate InvitesOk(s: Org) {
    forall i :: i in s.invites ==> s.invites[i].roles <= s.roles.Keys
  }

  ghost predicate OrgOk(s: Org) {
    && KeysOk(s) && UniqueOk(s) && InvitesOk(s)
    && forall id :: id in s.members ==> MemberOk(s.roles, s.members[id])
  }

  predicate ByHand(p: Step) { p.Give? || p.Take? || p.Clear? || p.GiveTo? || p.TakeFrom? || p.ClearRole? }

  lemma HandKeepsMemberOk(s: Org, p: Step, id: MemberId)
    requires ByHand(p) && id in s.members && MemberOk(s.roles, s.members[id])
    ensures After(s, p, id).Some? && MemberOk(s.roles, After(s, p, id).value)
  {
    var m := s.members[id];
    match p
    case Give(_, rs) => if id == p.m && MayGive(s, p) { GivingKeepsMemberOk(s.roles, m, rs); }
    case Take(_, rs) => if id == p.m && rs <= s.roles.Keys { TakingKeepsMemberOk(s.roles, m, rs); }
    case Clear(_) => RolesKeepMemberOk(s.roles, m, Cleared(s.roles, m));
    case GiveTo(r, ms) => if id in ms && r !in m.roles && MayGiveTo(s, p) { GivingKeepsMemberOk(s.roles, m, {r}); }
    case TakeFrom(r, ms) => if id in ms && r in s.roles { TakingKeepsMemberOk(s.roles, m, {r}); }
    case ClearRole(r) => if r !in m.roles { assert m.roles - {r} == m.roles; }
  }

  lemma GivingKeepsMemberOk(roles: Roles, m: Member, rs: set<RoleId>)
    requires MemberOk(roles, m) && !m.Scoped() && rs <= roles.Keys
    ensures MemberOk(roles, Given(roles, m, rs))
  {
    RolesKeepMemberOk(roles, m, Given(roles, m, rs));
  }

  lemma TakingKeepsMemberOk(roles: Roles, m: Member, rs: set<RoleId>)
    requires MemberOk(roles, m) && rs <= roles.Keys
    ensures MemberOk(roles, Taken(roles, m, rs))
  {
    RolesKeepMemberOk(roles, m, Taken(roles, m, rs));
  }

  lemma RolesKeepMemberOk(roles: Roles, m: Member, m': Member)
    requires MemberOk(roles, m) && m'.grants == m.grants && m'.isAdmin == HoldsAdmin(roles, m'.roles)
    requires m'.roles + m'.automatic + m'.withheld <= roles.Keys && (m.Scoped() ==> m'.roles == {})
    ensures MemberOk(roles, m')
  {
  }

  lemma SyncKeepsFlag(roles: Roles, owner: UserId, m: Member)
    requires m.isAdmin == HoldsAdmin(roles, m.roles)
    ensures Synced(roles, owner, m).isAdmin == HoldsAdmin(roles, Synced(roles, owner, m).roles)
  {
    var wanted := Wanted(roles, owner, m);
    var give, take := wanted - m.roles, (m.automatic * m.roles) - wanted;
    if give + take == {} {
      assert give == {} && take == {};
      assert (m.roles + give) - take == m.roles;
    }
  }

  lemma SyncKeepsMemberOk(roles: Roles, owner: UserId, m: Member)
    requires MemberOk(roles, m)
    ensures MemberOk(roles, SyncedUnlessGuest(roles, owner, m))
  {
    if !m.Scoped() {
      var m' := Synced(roles, owner, m);
      SyncKeepsFlag(roles, owner, m);
      assert Wanted(roles, owner, m) <= roles.Keys;
      assert m'.roles <= roles.Keys && m'.automatic <= roles.Keys;
      assert m'.grants == m.grants && m'.withheld == m.withheld;
    }
  }

  lemma GrantStepKeepsMemberOk(s: Org, p: Step, id: MemberId)
    requires (p.PutGrants? || p.DropGrants? || p.Upgrade?) && id in s.members && MemberOk(s.roles, s.members[id])
    ensures After(s, p, id).Some? ==> MemberOk(s.roles, After(s, p, id).value)
  {
    if p.PutGrants? && id == p.m && MayPutGrants(s, p) {
      PutKeepsMemberOk(s.roles, s.members[id], p.call);
    } else if p.DropGrants? {
      DropKeepsMemberOk(s.roles, s.members[id], id, p.selected);
    } else if p.Upgrade? && id == p.m {
      GrantsKeepMemberOk(s.roles, s.members[id], map[]);
    }
  }

  lemma PutKeepsMemberOk(roles: Roles, m: Member, call: Grants.Call)
    requires MemberOk(roles, m) && m.roles == {} && !Grants.OverCap(m.grants, call)
    ensures MemberOk(roles, m.(grants := Grants.Granted(m.grants, call)))
  {
    Grants.GrantedWithinCap(m.grants, call);
    GrantsKeepMemberOk(roles, m, Grants.Granted(m.grants, call));
  }

  lemma DropKeepsMemberOk(roles: Roles, m: Member, id: MemberId, selected: set<(MemberId, GrantKey)>)
    requires MemberOk(roles, m)
    ensures MemberOk(roles, m.(grants := Remaining(m, id, selected)))
  {
    DroppingShrinks(m, id, selected);
    if !m.Scoped() { assert Remaining(m, id, selected) == map[]; }
    GrantsKeepMemberOk(roles, m, Remaining(m, id, selected));
  }

  /** Grants may change as long as a member with roles gets none and the cap holds. */
  lemma GrantsKeepMemberOk(roles: Roles, m: Member, grants: map<GrantKey, Grant>)
    requires MemberOk(roles, m) && |grants| <= MAX_GRANTS_PER_MEMBERSHIP
    requires grants == map[] || m.roles == {}
    ensures MemberOk(roles, m.(grants := grants))
  {
  }

  lemma DeclareKeepsMemberOk(s: Org, p: Step, m: Member)
    requires KeysOk(s) && p.Declare? && MemberOk(s.roles, m)
    ensures MemberOk(RolesAfter(s, p), m)
  {
    var after := RolesAfter(s, p);
    assert s.roles.Keys <= after.Keys;
    assert forall r :: r in m.roles ==> r in s.roles && r in after && after[r].identifier == s.roles[r].identifier;
  }

  lemma RenameKeepsMemberOk(s: Org, p: Step, id: MemberId)
    requires p.Rename? && id in s.members && MemberOk(s.roles, s.members[id])
    ensures After(s, p, id).Some? && MemberOk(RolesAfter(s, p), After(s, p, id).value)
  {
    RenameKeepsFlag(s, p, s.members[id]);
    assert RolesAfter(s, p).Keys == s.roles.Keys;
  }

  lemma DeleteKeepsMemberOk(s: Org, p: Step, id: MemberId)
    requires p.DeleteRole? && id in s.members && MemberOk(s.roles, s.members[id])
    ensures After(s, p, id).Some? && MemberOk(RolesAfter(s, p), After(s, p, id).value)
  {
    var m, roles := s.members[id], RolesAfter(s, p);
    DeleteKeepsFlag(s, p, m);
    WithoutRole(s.roles.Keys, m.roles + m.automatic + m.withheld, m.roles, m.automatic, m.withheld, p.r);
    assert roles.Keys == s.roles.Keys - {p.r};
  }

  lemma WithoutRole(keys: set<RoleId>, all: set<RoleId>, a: set<RoleId>, b: set<RoleId>, c: set<RoleId>, r: RoleId)
    requires all == a + b + c && all <= keys
    ensures (a - {r}) + (b - {r}) + (c - {r}) <= keys - {r}
  {
  }

  lemma BereftKeepsMemberOk(s: Org, u: UserId, m: Member)
    requires MemberOk(s.roles, m)
    ensures MemberOk(s.roles - GoneRoles(s, u), Bereft(s, u, m))
  {
    var gone, m' := GoneRoles(s, u), Bereft(s, u, m);
    GoneKeepsFlag(s.roles, gone, m.roles);
    assert m'.grants.Keys <= m.grants.Keys;
    SubsetSize(m'.grants.Keys, m.grants.Keys);
    assert |m'.grants| == |m'.grants.Keys|;
    if !m.Scoped() { assert m'.grants == map[]; }
    assert m.roles == {} ==> m'.roles == {};
    assert m'.roles + m'.automatic + m'.withheld <= s.roles.Keys - gone;
    assert (s.roles - gone).Keys == s.roles.Keys - gone;
  }

  lemma UserDeleteKeepsMemberOk(s: Org, p: Step, id: MemberId)
    requires p.DeleteUser? && id in s.members && MemberOk(s.roles, s.members[id])
    ensures After(s, p, id).Some? ==> MemberOk(RolesAfter(s, p), After(s, p, id).value)
  {
    if MayDeleteUser(s, p.u) { BereftKeepsMemberOk(s, p.u, s.members[id]); }
  }

  lemma GoneKeepsFlag(roles: Roles, gone: set<RoleId>, held: set<RoleId>)
    ensures !HoldsAdmin(roles, held * gone) ==> HoldsAdmin(roles - gone, held - gone) == HoldsAdmin(roles, held)
  {
    if HoldsAdmin(roles, held) && !HoldsAdmin(roles, held * gone) {
      var r :| r in held && r in roles && roles[r].identifier == Some(ADMIN);
      assert r !in held * gone;
      assert r in held - gone && r in roles - gone;
    }
  }

  lemma StepKeepsMemberOk(s: Org, p: Step, id: MemberId)
    requires KeysOk(s) && id in s.members && MemberOk(s.roles, s.members[id])
    ensures After(s, p, id).Some? ==> MemberOk(RolesAfter(s, p), After(s, p, id).value)
  {
    if ByHand(p) {
      HandKeepsMemberOk(s, p, id);
    } else if p.Declare? {
      DeclareKeepsMemberOk(s, p, s.members[id]);
    } else if p.Rename? {
      RenameKeepsMemberOk(s, p, id);
    } else if p.DeleteRole? {
      DeleteKeepsMemberOk(s, p, id);
    } else if p.Sync? {
      SyncKeepsMemberOk(s.roles, s.owner, s.members[id]);
    } else if p.DeleteUser? {
      UserDeleteKeepsMemberOk(s, p, id);
    } else {
      if p.PutGrants? || p.DropGrants? || p.Upgrade? { GrantStepKeepsMemberOk(s, p, id); }
    }
  }

  lemma DroppingShrinks(m: Member, id: MemberId, selected: set<(MemberId, GrantKey)>)
    ensures |Remaining(m, id, selected)| <= |m.grants|
  {
    var left := Remaining(m, id, selected);
    assert left.Keys <= m.grants.Keys;
    SubsetSize(left.Keys, m.grants.Keys);
  }

  lemma SubsetSize<T>(a: set<T>, b: set<T>)
    requires a <= b
    ensures |a| <= |b|
  {
    assert b == a + (b - a);
  }

  lemma RenameKeepsFlag(s: Org, p: Step, m: Member)
    requires p.Rename? && MemberOk(s.roles, m)
    ensures var flips :=
        MayRename(s, p) && (s.roles[p.r].identifier == Some(ADMIN)) != (p.newIdentifier == Some(ADMIN));
            p.r !in m.roles || !flips ==> HoldsAdmin(RolesAfter(s, p), m.roles) == HoldsAdmin(s.roles, m.roles)
  {
    var after := RolesAfter(s, p);
    var flips := MayRename(s, p) && (s.roles[p.r].identifier == Some(ADMIN)) != (p.newIdentifier == Some(ADMIN));
    if p.r !in m.roles || !flips {
      assert forall r :: r in m.roles ==> ((r in after && after[r].identifier == Some(ADMIN)) <==>
        (r in s.roles && s.roles[r].identifier == Some(ADMIN)));
    }
  }

  lemma DeleteKeepsFlag(s: Org, p: Step, m: Member)
    requires p.DeleteRole? && MemberOk(s.roles, m)
    ensures var after := RolesAfter(s, p); var admin := p.r in s.roles && s.roles[p.r].identifier == Some(ADMIN);
            p.r !in m.roles || !admin ==> HoldsAdmin(after, m.roles - {p.r}) == HoldsAdmin(s.roles, m.roles)
  {
    var after := RolesAfter(s, p);
    assert forall r :: r in m.roles && r != p.r ==> r in after && after[r] == s.roles[r];
  }

  lemma StepKeepsUniqueRoles(s: Org, p: Step)
    requires KeysOk(s) && UniqueOk(s)
    ensures var after := RolesAfter(s, p);
            && (forall r :: r in after ==> r < Next(s, p).nextRole)
            && (forall a, b | a in after && b in after && after[a].identifier.Some? ::
                  after[a].identifier == after[b].identifier ==> a == b)
  {
    if p.Declare? && Named(s.roles, p.identifier) == {} {
      assert forall r :: r in s.roles ==> r !in Named(s.roles, p.identifier);
    }
  }

  lemma StepKeepsUser(s: Org, p: Step, id: MemberId)
    requires id in s.members
    ensures After(s, p, id).Some? ==> After(s, p, id).value.user == s.members[id].user
  {
  }

  lemma StepKeepsUniqueMembers(s: Org, p: Step)
    requires KeysOk(s) && UniqueOk(s)
    ensures var s' := Next(s, p);
            && 0 <= s'.nextMember && (forall id :: id in s'.members ==> 0 <= id < s'.nextMember)
            && (forall a, b | a in s'.members && b in s'.members ::
                  s'.members[a].user == s'.members[b].user ==> a == b)
  {
    forall id | id in s.members { StepKeepsUser(s, p, id); }
  }

  lemma StepKeepsInvitesOk(s: Org, p: Step)
    requires InvitesOk(s)
    ensures InvitesOk(Next(s, p))
  {
    if p.DeleteUser? && MayDeleteUser(s, p.u) {
      assert RolesAfter(s, p).Keys == s.roles.Keys - GoneRoles(s, p.u);
    } else {
      assert RolesAfter(s, p).Keys >= if p.DeleteRole? then s.roles.Keys - {p.r} else s.roles.Keys;
    }
  }

  lemma StepKeepsOrgOk(s: Org, p: Step)
    requires OrgOk(s)
    ensures OrgOk(Next(s, p))
  {
    var s' := Next(s, p);
    StepKeepsUniqueRoles(s, p);
    StepKeepsUniqueMembers(s, p);
    StepKeepsInvitesOk(s, p);
    forall id | id in s'.members ensures MemberOk(s'.roles, s'.members[id]) {
      if id in s.members && id != s.nextMember { StepKeepsMemberOk(s, p, id); }
    }
  }

  /** In every reachable state, after any steps in any order: guests hold no roles, every cached
      admin flag is right, no membership has more grants than the cap. */
  lemma {:induction false} EveryRunKeepsOrgOk(s: Org, steps: seq<Step>)
    requires OrgOk(s)
    ensures OrgOk(Run(s, steps))
  {
    if steps != [] {
      EveryRunKeepsOrgOk(s, steps[..|steps| - 1]);
      StepKeepsOrgOk(Run(s, steps[..|steps| - 1]), steps[|steps| - 1]);
    }
  }
}
