/** Accepting an invite (karakter/invites.py) and approving a request to join
    (karakter/models.py): the steps each takes, and what an invite can be spent on. */
module Invites {
  import opened Rows
  import opened ServiceRoles
  import opened Organizations
  import Grants

  datatype Outcome =
    | Refused
    | AlreadyMember(m: MemberId)
    | HadItAll(m: MemberId)
    | BecameGuest(m: MemberId)
    | BecameMember(m: MemberId)

  /** The steps an operation takes in one transaction; a refused one takes none. */
  datatype Plan = Plan(steps: seq<Step>, outcome: Outcome)

  ghost function MemberOf(s: Org, u: UserId): Option<MemberId> {
    if id :| IsMemberOf(s, u, id) then Some(id) else None
  }

  /** `Invite.is_valid` */
  predicate Acceptable(invite: Invite, now: int) {
    invite.status == Pending && (invite.expiresAt.Some? ==> invite.expiresAt.value >= now)
  }

  predicate LeavesInvites(p: Step) { !p.PutInvite? && !p.DeleteRole? && !p.DeleteUser? }

  predicate LeavesRoleTable(p: Step) { !p.Declare? && !p.Rename? && !p.DeleteRole? && !p.DeleteUser? }

  /** The steps change memberships only. */
  predicate Quiet(steps: seq<Step>) { forall p :: p in steps ==> LeavesInvites(p) && LeavesRoleTable(p) }

  /** `membership.roles.set(rs)`: what is not in `rs` goes first, then the rest comes. */
  function SetRoles(s: Org, m: MemberId, rs: set<RoleId>): (steps: seq<Step>)
    requires m in s.members
    ensures Quiet(steps)
  {
    var held := s.members[m].roles;
    (if held - rs == {} then [] else [Take(m, held - rs), Sync({m})]) +
    (if rs - held == {} then [] else [Give(m, rs - held), Sync({m})])
  }

  function AddRoles(m: MemberId, rs: set<RoleId>): (steps: seq<Step>)
    ensures Quiet(steps)
  {
    if rs == {} then [] else [Give(m, rs), Sync({m})]
  }

  function AssignInviteRoles(s: Org, m: MemberId, invite: Invite): (steps: seq<Step>)
    requires m in s.members
    ensures Quiet(steps)
  {
    if invite.roles != {} then SetRoles(s, m, invite.roles) else AddRoles(m, Named(s.roles, GUEST))
  }

  function CallOf(invite: Invite, i: InviteId, refs: Refs): Grants.Call {
    Grants.Call(refs, Some(i), Some(invite.createdBy), None, invite.mesh)
  }

  function SpentOnce(invite: Invite): Invite {
    invite.(uses := invite.uses + 1,
            status :=
                if invite.maxUses.Some? && invite.uses + 1 >= invite.maxUses.value then Accepted else invite.status)
  }

  ghost function Joining(s: Org, u: UserId, i: InviteId): seq<Step> {
    if MemberOf(s, u).None? then [Join(u, Some(i))] else []
  }

  ghost function Entrant(s: Org, u: UserId): MemberId {
    if MemberOf(s, u).None? then s.nextMember else MemberOf(s, u).value
  }

  /** A collaboration invite, for somebody who is not a full member. */
  ghost function RedeemShared(s: Org, i: InviteId, u: UserId): (plan: Plan)
    requires i in s.invites && s.invites[i].shared.Some?
    ensures Quiet(plan.steps) && (plan.outcome.BecameGuest? || plan.outcome.HadItAll? || plan.outcome.Refused?)
  {
    var invite, joining, m := s.invites[i], Joining(s, u, i), Entrant(s, u);
    var s1 := Run(s, joining);
    var refs := Grants.Merge(invite.shared.value);
    if refs.None? || !MayPutGrants(s1, PutGrants(m, CallOf(invite, i, refs.value))) then Plan([], Refused)
    else if !Grants.Changes(s1.members[m].grants, CallOf(invite, i, refs.value)) then Plan(joining, HadItAll(m))
    else Plan(joining + [PutGrants(m, CallOf(invite, i, refs.value))], BecameGuest(m))
  }

  ghost function EnteringFully(s: Org, u: UserId, i: InviteId): seq<Step> {
    if MemberOf(s, u).None? then [Join(u, Some(i))]
    else [Upgrade(Entrant(s, u)), Save(Entrant(s, u), NewMember(u, Some(i)))]
  }

  /** An ordinary invite, for somebody who is not a full member. */
  ghost function RedeemOrdinary(s: Org, i: InviteId, u: UserId): (plan: Plan)
    requires i in s.invites
    ensures Quiet(plan.steps) && (plan.outcome.BecameMember? || plan.outcome.Refused?)
  {
    var invite, m := s.invites[i], Entrant(s, u);
    var entering := EnteringFully(s, u, i);
    var s1 := Run(s, entering);
    if m !in s1.members then Plan([], Refused)
    else Plan(entering + AssignInviteRoles(s1, m, invite), BecameMember(m))
  }

  /** What redeeming does to the memberships. */
  ghost function Entering(s: Org, i: InviteId, u: UserId, now: int): (plan: Plan)
    ensures Quiet(plan.steps)
    ensures !plan.outcome.Refused? ==> i in s.invites && Acceptable(s.invites[i], now)
    ensures plan.outcome.BecameGuest? ==> s.invites[i].shared.Some?
    ensures plan.outcome.HadItAll? ==> s.invites[i].shared.Some?
    ensures plan.outcome.BecameMember? ==> s.invites[i].shared.None?
  {
    if i !in s.invites || !Acceptable(s.invites[i], now) then Plan([], Refused)
    else
      var found := MemberOf(s, u);
      if found.Some? && !s.members[found.value].Scoped() then Plan([], AlreadyMember(found.value))
      else if s.invites[i].shared.Some? then RedeemShared(s, i, u)
      else RedeemOrdinary(s, i, u)
  }

  /** The invite row after a redemption: spent once by a grant that changed something or by a new
      member, marked accepted by a full member of an ordinary invite, otherwise untouched. */
  function InviteAfter(invite: Invite, outcome: Outcome): Invite {
    if outcome.BecameGuest? then SpentOnce(invite)
    else if outcome.BecameMember? then invite.(uses := invite.uses + 1, status := Accepted)
    else if outcome.AlreadyMember? && invite.shared.None? then invite.(status := Accepted)
    else invite
  }

  /** `redeem_invite`: the memberships first, the invite row last. */
  ghost function Redeem(s: Org, i: InviteId, u: UserId, now: int): Plan {
    var plan := Entering(s, i, u, now);
    if i in s.invites then Plan(plan.steps + [PutInvite(i, InviteAfter(s.invites[i], plan.outcome))], plan.outcome)
    else plan
  }

  /** The requester is let in: a new membership, or a guest made a full member. */
  ghost function LettingIn(s: Org, u: UserId): seq<Step> {
    var found := MemberOf(s, u);
    if found.None? then [Join(u, None)] else if s.members[found.value].Scoped() then [Upgrade(found.value)] else []
  }

  /** `MembershipRequest.approve`. */
  ghost function Approve(s: Org, u: UserId, roles: set<RoleId>): seq<Step> {
    LettingIn(s, u) + AddRoles(Entrant(s, u), if roles != {} then roles else Named(s.roles, GUEST))
  }

  // --- what a redemption does ---------------------------------------------------------------

  lemma {:induction false} RunConcat(s: Org, a: seq<Step>, b: seq<Step>)
    ensures Run(s, a + b) == Run(Run(s, a), b)
  {
    if b == [] {
      assert a + b == a;
    } else {
      assert (a + b)[..|a + b| - 1] == a + b[..|b| - 1];
      RunConcat(s, a, b[..|b| - 1]);
    }
  }

  lemma RunOne(s: Org, p: Step)
    ensures Run(s, [p]) == Next(s, p)
  {
    assert [p][..|[p]| - 1] == [];
    assert Run(s, []) == s;
  }

  /** Writing an invite row back as it is changes nothing. */
  lemma Unchanged(s: Org, p: Step)
    requires p.PutInvite? && p.i in s.invites && s.invites[p.i] == p.invite
    ensures Next(s, p) == s
  {
    assert Survivors(s, p) == s.members;
    assert s.invites[p.i := p.invite] == s.invites;
  }

  lemma {:induction false} InvitesUntouched(s: Org, steps: seq<Step>)
    requires forall p :: p in steps ==> LeavesInvites(p)
    ensures Run(s, steps).invites == s.invites
  {
    if steps != [] {
      assert steps[|steps| - 1] in steps && forall p :: p in steps[..|steps| - 1] ==> p in steps;
      InvitesUntouched(s, steps[..|steps| - 1]);
    }
  }

  lemma {:induction false} RoleTableUntouched(s: Org, steps: seq<Step>)
    requires forall p :: p in steps ==> LeavesRoleTable(p)
    ensures Run(s, steps).roles == s.roles
  {
    if steps != [] {
      assert steps[|steps| - 1] in steps && forall p :: p in steps[..|steps| - 1] ==> p in steps;
      RoleTableUntouched(s, steps[..|steps| - 1]);
    }
  }

  lemma EndsWithInvite(s: Org, steps: seq<Step>, i: InviteId, invite: Invite)
    requires invite.roles <= s.roles.Keys
    requires Quiet(steps)
    ensures Run(s, steps + [PutInvite(i, invite)]).invites == s.invites[i := invite]
  {
    InvitesUntouched(s, steps);
    RoleTableUntouched(s, steps);
    RunConcat(s, steps, [PutInvite(i, invite)]);
    RunOne(Run(s, steps), PutInvite(i, invite));
    InvitePut(Run(s, steps), i, invite);
  }

  lemma InvitePut(s: Org, i: InviteId, invite: Invite)
    requires invite.roles <= s.roles.Keys
    ensures Next(s, PutInvite(i, invite)).invites == s.invites[i := invite]
  {
  }

  /** A redemption touches no invite but the one redeemed, and changes that as its outcome says. */
  lemma RedeemOutcome(s: Org, i: InviteId, u: UserId, now: int)
    requires OrgOk(s) && i in s.invites
    ensures var plan := Redeem(s, i, u, now);
            && Run(s, plan.steps).invites == s.invites[i := InviteAfter(s.invites[i], plan.outcome)]
            && (plan.outcome.BecameGuest? ==> s.invites[i].shared.Some?)
            && (plan.outcome.HadItAll? ==> s.invites[i].shared.Some?)
            && (plan.outcome.BecameMember? ==> s.invites[i].shared.None?)
            && (!plan.outcome.Refused? ==> Acceptable(s.invites[i], now))
  {
    var plan := Entering(s, i, u, now);
    EndsWithInvite(s, plan.steps, i, InviteAfter(s.invites[i], plan.outcome));
  }

  /** The collaborations of the invite cannot be granted: an entry is malformed, there is none, one is on
      no instance of the organization, or they are too many for the membership. */
  ghost predicate Ungrantable(s: Org, invite: Invite, u: UserId)
    requires invite.shared.Some?
  {
    var refs, before := Grants.Merge(invite.shared.value), GrantsBefore(s, u);
    || refs.None? || refs.value == map[]
    || (exists k :: k in refs.value && k.instance !in s.instances)
    || (refs.value.Keys - before.Keys != {} && |before| + |refs.value.Keys - before.Keys| > 200)
  }

  /** Who may accept: a redemption is refused exactly when there is no such invite, it is not pending, it
      has expired, or it is a collaboration invite that cannot be granted to somebody who is no full
      member. A full member is told so; of the others a collaboration invite makes guests. */
  lemma RefusedExactlyWhen(s: Org, i: InviteId, u: UserId, now: int)
    requires OrgOk(s)
    ensures var found, outcome := MemberOf(s, u), Redeem(s, i, u, now).outcome;
            var full := found.Some? && !s.members[found.value].Scoped();
            && (outcome.Refused? <==>
                  || i !in s.invites || s.invites[i].status != Pending
                  || (s.invites[i].expiresAt.Some? && s.invites[i].expiresAt.value < now)
                  || (!full && s.invites[i].shared.Some? && Ungrantable(s, s.invites[i], u)))
            && (!outcome.Refused? ==> (outcome.AlreadyMember? <==> full))
            && (!outcome.Refused? && !full ==> (outcome.BecameMember? <==> s.invites[i].shared.None?))
  {
    if i in s.invites && Acceptable(s.invites[i], now) {
      if MemberOf(s, u).None? || s.members[MemberOf(s, u).value].Scoped() {
        if s.invites[i].shared.Some? { SharedRefusedExactlyWhen(s, i, u); } else { FullRow(s, u, i); }
      }
    }
  }

  lemma SharedRefusedExactlyWhen(s: Org, i: InviteId, u: UserId)
    requires OrgOk(s) && i in s.invites && s.invites[i].shared.Some?
    requires MemberOf(s, u).None? || s.members[MemberOf(s, u).value].Scoped()
    ensures RedeemShared(s, i, u).outcome.Refused? <==> Ungrantable(s, s.invites[i], u)
  {
    EntrantGrants(s, u, i);
    SharedNeedsGrants(s, i, u);
    var refs := Grants.Merge(s.invites[i].shared.value);
    if refs.Some? {
      var s1, call := Run(s, Joining(s, u, i)), CallOf(s.invites[i], i, refs.value);
      MayPutExactlyWhen(s1, Entrant(s, u), call, GrantsBefore(s, u));
    }
  }

  lemma SharedNeedsGrants(s: Org, i: InviteId, u: UserId)
    requires i in s.invites && s.invites[i].shared.Some?
    ensures var invite, refs := s.invites[i], Grants.Merge(s.invites[i].shared.value);
            RedeemShared(s, i, u).outcome.Refused? <==>
              || refs.None?
              || !MayPutGrants(Run(s, Joining(s, u, i)), PutGrants(Entrant(s, u), CallOf(invite, i, refs.value)))
  {
  }

  /** The membership that a redemption begins with. */
  lemma EntrantGrants(s: Org, u: UserId, i: InviteId)
    requires OrgOk(s)
    ensures var s1, m := Run(s, Joining(s, u, i)), Entrant(s, u);
            && m in s1.members && s1.members[m].grants == GrantsBefore(s, u) && s1.instances == s.instances
            && (MemberOf(s, u).None? || s.members[m].Scoped() ==> s1.members[m].roles == {})
            && s1.members[m].user == u && (MemberOf(s, u).None? ==> s1.members[m].createdThrough == Some(i))
  {
    JoinsOrIsThere(s, u, Some(i));
    RunOne(s, Join(u, Some(i)));
    if MemberOf(s, u).Some? { assert MemberOk(s.roles, s.members[MemberOf(s, u).value]); }
  }

  lemma MayPutExactlyWhen(s: Org, m: MemberId, call: Grants.Call, before: map<GrantKey, Grant>)
    requires m in s.members && s.members[m].roles == {} && s.members[m].grants == before
    ensures MayPutGrants(s, PutGrants(m, call)) <==>
              && call.refs != map[] && (forall k :: k in call.refs ==> k.instance in s.instances)
              && !(call.refs.Keys - before.Keys != {} && |before| + |call.refs.Keys - before.Keys| > 200)
  {
  }

  /** Somebody who is new to the organization always gains something from a collaboration invite. */
  lemma NewcomerGains(s: Org, i: InviteId, u: UserId)
    requires OrgOk(s) && i in s.invites && s.invites[i].shared.Some? && MemberOf(s, u).None?
    ensures !RedeemShared(s, i, u).outcome.HadItAll?
  {
    if RedeemShared(s, i, u).outcome.HadItAll? {
      var s1 := Run(s, [Join(u, Some(i))]);
      RunOne(s, Join(u, Some(i)));
      var call := CallOf(s.invites[i], i, Grants.Merge(s.invites[i].shared.value).value);
      forall id | id in s.members ensures s.members[id].user != u { assert !IsMemberOf(s, u, id); }
      assert s1.members[s.nextMember].grants == map[];
      var k :| k in call.refs;
      assert Grants.Grows(map[], k, call.refs[k], call.mesh);
      assert false;
    }
  }

  /** Opening a shared link as a member, or as a guest who has it all, changes nothing at all. */
  lemma NothingNewSpendsNothing(s: Org, i: InviteId, u: UserId, now: int)
    requires OrgOk(s) && i in s.invites && s.invites[i].shared.Some?
    requires var o := Redeem(s, i, u, now).outcome; o.AlreadyMember? || o.HadItAll? || o.Refused?
    ensures Run(s, Redeem(s, i, u, now).steps) == s
  {
    if MemberOf(s, u).None? { NewcomerGains(s, i, u); }
    var plan := Redeem(s, i, u, now);
    assert plan.steps == [PutInvite(i, s.invites[i])];
    RunOne(s, PutInvite(i, s.invites[i]));
    Unchanged(s, PutInvite(i, s.invites[i]));
  }

  lemma JoinsOrIsThere(s: Org, u: UserId, through: Option<InviteId>)
    requires OrgOk(s)
    ensures var found := MemberOf(s, u);
            var s1 := Run(s, if found.None? then [Join(u, through)] else []);
            var m := if found.None? then s.nextMember else found.value;
            && s1.roles == s.roles && m in s1.members && s1.members[m].user == u
            && s1.members[m] == if found.None? then NewMember(u, through) else s.members[m]
  {
    var found := MemberOf(s, u);
    if found.None? {
      forall id | id in s.members ensures s.members[id].user != u { assert !IsMemberOf(s, u, id); }
      RunOne(s, Join(u, through));
    }
  }

  /** The membership after the last two steps of a redemption, of which the second writes the invite. */
  lemma LastSteps(s: Org, front: seq<Step>, p: Step, i: InviteId, invite: Invite, m: MemberId)
    requires m in Run(s, front).members && After(Run(s, front), p, m).Some? && !p.Join?
    ensures var s' := Run(s, front + [p] + [PutInvite(i, invite)]);
            m in s'.members && s'.members[m] == After(Run(s, front), p, m).value
  {
    RunConcat(s, front, [p]);
    RunOne(Run(s, front), p);
    var s2 := Next(Run(s, front), p);
    assert s2.members == Survivors(Run(s, front), p);
    RunConcat(s, front + [p], [PutInvite(i, invite)]);
    RunOne(s2, PutInvite(i, invite));
    assert After(s2, PutInvite(i, invite), m) == Some(s2.members[m]);
  }

  /** The membership row a collaboration invite leaves. */
  lemma GuestRow(s: Org, i: InviteId, u: UserId, invite': Invite, call: Grants.Call)
    requires OrgOk(s) && MayPutGrants(Run(s, Joining(s, u, i)), PutGrants(Entrant(s, u), call))
    ensures var s' := Run(s, Joining(s, u, i) + [PutGrants(Entrant(s, u), call)] + [PutInvite(i, invite')]);
            && Entrant(s, u) in s'.members
            && IsGuest(s'.members[Entrant(s, u)], u, Grants.Granted(GrantsBefore(s, u), call))
            && (MemberOf(s, u).None? ==> s'.members[Entrant(s, u)].createdThrough == Some(i))
  {
    EntrantGrants(s, u, i);
    PutRow(Run(s, Joining(s, u, i)), Entrant(s, u), call);
    LastSteps(s, Joining(s, u, i), PutGrants(Entrant(s, u), call), i, invite', Entrant(s, u));
    GrantedCovers(GrantsBefore(s, u), call);
  }

  predicate IsGuest(m: Member, u: UserId, grants: map<GrantKey, Grant>) {
    m.user == u && m.roles == {} && m.grants == grants && m.Scoped()
  }

  lemma PutRow(s: Org, m: MemberId, call: Grants.Call)
    requires m in s.members && MayPutGrants(s, PutGrants(m, call))
    ensures After(s, PutGrants(m, call), m) == Some(s.members[m].(grants := Grants.Granted(s.members[m].grants, call)))
    ensures s.members[m].roles == {}
  {
  }

  /** The grants somebody has before a redemption. */
  ghost function GrantsBefore(s: Org, u: UserId): map<GrantKey, Grant> {
    var found := MemberOf(s, u);
    if found.Some? && found.value in s.members then s.members[found.value].grants else map[]
  }

  /** Accepting a collaboration invite makes a guest, without roles. Each of its collaborations that is
      new is granted with the invite's roles and mesh, by whoever made the invite, through it and for
      good; one there already gains what is new; every other grant stays as it was. */
  lemma RedeemMakesAGuest(s: Org, i: InviteId, u: UserId, now: int)
    requires OrgOk(s) && Redeem(s, i, u, now).outcome.BecameGuest?
    ensures var plan := Redeem(s, i, u, now);
            var s', m, invite := Run(s, plan.steps), plan.outcome.m, s.invites[i];
            var refs, before := Grants.Merge(invite.shared.value), GrantsBefore(s, u);
            && m in s'.members && refs.Some? && s'.invites == s.invites[i := SpentOnce(invite)]
            && s'.members[m].user == u && s'.members[m].Scoped() && s'.members[m].roles == {}
            && (MemberOf(s, u).None? ==> s'.members[m].createdThrough == Some(i))
            && s'.members[m].grants.Keys == before.Keys + refs.value.Keys
            && (forall k :: k in refs.value && k !in before ==>
                  s'.members[m].grants[k] == Grant(refs.value[k], invite.mesh, Some(i), Some(invite.createdBy), None))
            && (forall k :: k in refs.value && k in before ==>
                  && s'.members[m].grants[k].roles == before[k].roles + refs.value[k]
                  && s'.members[m].grants[k].mesh == (before[k].mesh || invite.mesh)
                  && s'.members[m].grants[k].expiresAt == before[k].expiresAt)
            && (forall k :: k in before && k !in refs.value ==> s'.members[m].grants[k] == before[k])
  {
    var plan, invite := Redeem(s, i, u, now), s.invites[i];
    assert Entering(s, i, u, now) == RedeemShared(s, i, u);
    var call := CallOf(invite, i, Grants.Merge(invite.shared.value).value);
    assert plan.steps == Joining(s, u, i) + [PutGrants(Entrant(s, u), call)] + [PutInvite(i, SpentOnce(invite))];
    GuestRow(s, i, u, SpentOnce(invite), call);
    RedeemOutcome(s, i, u, now);
    GrantedColumns(GrantsBefore(s, u), call);
  }

  lemma GrantedColumns(before: map<GrantKey, Grant>, call: Grants.Call)
    ensures var after := Grants.Granted(before, call);
            && after.Keys == before.Keys + call.refs.Keys
            && (forall k :: k in call.refs && k !in before ==>
                  after[k] == Grant(call.refs[k], call.mesh, call.through, call.granter, call.expiresAt))
            && (forall k :: k in call.refs && k in before ==>
                  && after[k].roles == before[k].roles + call.refs[k] && after[k].mesh == (before[k].mesh || call.mesh)
                  && after[k].expiresAt == before[k].expiresAt)
            && (forall k :: k in before && k !in call.refs ==> after[k] == before[k])
  {
    forall k | k in call.refs && k in before && !Grants.Gains(before[k], call.refs[k], call.mesh)
      ensures before[k].roles + call.refs[k] == before[k].roles {}
    forall k { Grants.GrantedRow(before, call, k); }
  }

  lemma GrantedCovers(grants: map<GrantKey, Grant>, call: Grants.Call)
    requires call.refs != map[]
    ensures Grants.Granted(grants, call) != map[]
    ensures forall k :: k in call.refs ==>
            k in Grants.Granted(grants, call) && call.refs[k] <= Grants.Granted(grants, call)[k].roles
  {
    var k :| k in call.refs;
    assert k in Grants.Granted(grants, call);
  }

  /** The membership as it enters: new, or the guest's without its grants. */
  ghost function EntrantRow(s: Org, u: UserId, i: InviteId): Member
    requires MemberOf(s, u).Some? ==> MemberOf(s, u).value in s.members
  {
    if MemberOf(s, u).None? then NewMember(u, Some(i))
    else s.members[MemberOf(s, u).value].(grants := map[], createdThrough := Some(i))
  }

  lemma FullRow(s: Org, u: UserId, i: InviteId)
    requires OrgOk(s) && (MemberOf(s, u).Some? ==> s.members[MemberOf(s, u).value].Scoped())
    ensures var s1, m := Run(s, EnteringFully(s, u, i)), Entrant(s, u);
            && s1.roles == s.roles && s1.owner == s.owner && m in s1.members && s1.members[m] == EntrantRow(s, u, i)
            && s1.members[m].user == u && !s1.members[m].Scoped() && s1.members[m].roles == {}
  {
    var m := Entrant(s, u);
    if MemberOf(s, u).None? {
      JoinsOrIsThere(s, u, Some(i));
      RunOne(s, Join(u, Some(i)));
    } else {
      var save := Save(m, NewMember(u, Some(i)));
      assert [Upgrade(m), save] == [Upgrade(m)] + [save];
      RunConcat(s, [Upgrade(m)], [save]);
      RunOne(s, Upgrade(m));
      RunOne(Next(s, Upgrade(m)), save);
      assert After(s, Upgrade(m), m) == Some(s.members[m].(grants := map[]));
      assert MemberOk(s.roles, s.members[m]);
    }
  }

  /** What a member holds once these roles are added: they and those held, except what lok counts as
      its own, and what lok wants the member to hold. */
  function HeldOnceAdded(roles: Roles, owner: UserId, m: Member, rs: set<RoleId>): set<RoleId> {
    if rs == {} then m.roles else Wanted(roles, owner, Given(roles, m, rs)) + (m.roles + rs - m.automatic)
  }

  /** By their columns: of a member's roles and those added, what lok has no record of; and what is due
      to the member with these roles, where a role that is new is not withheld any more. */
  lemma HeldOnceAddedMeans(roles: Roles, owner: UserId, m: Member, rs: set<RoleId>, r: RoleId)
    ensures r in HeldOnceAdded(roles, owner, m, rs) <==>
      if rs == {} then r in m.roles
      else
        || ((r in m.roles || r in rs) && r !in m.automatic)
        || (r in roles && roles[r].adminRole &&
            (|| m.user == owner
             || exists a :: (a in m.roles || a in rs) && a in roles && roles[a].identifier == Some("admin")))
        || (r in roles && roles[r].defaultRole && (r !in m.withheld || (r in rs && r !in m.roles)))
  {
    if rs != {} { SyncGivesAndTakes(roles, owner, Given(roles, m, rs), r); }
  }

  lemma AddedRoles(s: Org, m: MemberId, rs: set<RoleId>)
    requires m in s.members && !s.members[m].Scoped() && rs <= s.roles.Keys
    ensures var s' := Run(s, AddRoles(m, rs));
            && m in s'.members && !s'.members[m].Scoped() && s'.members[m].user == s.members[m].user
            && s'.members[m].roles == HeldOnceAdded(s.roles, s.owner, s.members[m], rs)
            && s'.members[m].createdThrough == s.members[m].createdThrough
  {
    if rs != {} {
      assert AddRoles(m, rs) == [Give(m, rs)] + [Sync({m})];
      RunConcat(s, [Give(m, rs)], [Sync({m})]);
      RunOne(s, Give(m, rs));
      var s1 := Next(s, Give(m, rs));
      assert After(s, Give(m, rs), m) == Some(Given(s.roles, s.members[m], rs));
      RunOne(s1, Sync({m}));
      SyncOutcome(s1.roles, s1.owner, s1.members[m]);
      assert After(s1, Sync({m}), m) == Some(Synced(s1.roles, s1.owner, s1.members[m]));
    }
  }

  /** The roles an ordinary invite gives: its own, or `guest`. */
  function InviteRoles(s: Org, invite: Invite): set<RoleId> {
    if invite.roles != {} then invite.roles else Named(s.roles, GUEST)
  }

  lemma InviteRolesMean(s: Org, invite: Invite, r: RoleId)
    ensures r in InviteRoles(s, invite) <==>
      if invite.roles != {} then r in invite.roles else r in s.roles && s.roles[r].identifier == Some("guest")
  {
  }

  /** Accepting an ordinary invite makes a full member, also of a guest (whose grants go), holding
      exactly the invite's roles and what lok wants them to hold. Of the invite's roles only those
      are missing that lok still counts as its own and does not want. */
  lemma RedeemMakesAMember(s: Org, i: InviteId, u: UserId, now: int)
    requires OrgOk(s) && Redeem(s, i, u, now).outcome.BecameMember?
    ensures var plan := Redeem(s, i, u, now); var s', m := Run(s, plan.steps), plan.outcome.m;
            && m in s'.members && s'.members[m].user == u && !s'.members[m].Scoped()
            && s'.members[m].roles == HeldOnceAdded(s.roles, s.owner, EntrantRow(s, u, i), InviteRoles(s, s.invites[i]))
            && s'.members[m].createdThrough == Some(i)
  {
    var plan, invite, m := Redeem(s, i, u, now), s.invites[i], Entrant(s, u);
    assert Entering(s, i, u, now) == RedeemOrdinary(s, i, u);
    FullRow(s, u, i);
    SettingIsAdding(Run(s, EnteringFully(s, u, i)), m, invite);
    var adding, last := AddRoles(m, InviteRoles(s, invite)), PutInvite(i, InviteAfter(invite, plan.outcome));
    assert plan.steps == EnteringFully(s, u, i) + adding + [last];
    MemberRow(s, i, u, InviteRoles(s, invite), last);
  }

  lemma MemberRow(s: Org, i: InviteId, u: UserId, rs: set<RoleId>, last: Step)
    requires OrgOk(s) && rs <= s.roles.Keys && last.PutInvite?
    requires MemberOf(s, u).Some? ==> s.members[MemberOf(s, u).value].Scoped()
    ensures var s', m := Run(s, EnteringFully(s, u, i) + AddRoles(Entrant(s, u), rs) + [last]), Entrant(s, u);
            && m in s'.members && s'.members[m].user == u && !s'.members[m].Scoped()
            && s'.members[m].roles == HeldOnceAdded(s.roles, s.owner, EntrantRow(s, u, i), rs)
            && s'.members[m].createdThrough == Some(i)
  {
    var m, entering := Entrant(s, u), EnteringFully(s, u, i);
    var adding := AddRoles(m, rs);
    FullRow(s, u, i);
    var s1 := Run(s, entering);
    RunConcat(s, entering, adding);
    AddedRoles(s1, m, rs);
    var s2 := Run(s1, adding);
    RunConcat(s, entering + adding, [last]);
    RunOne(s2, last);
    assert After(s2, last, m) == Some(s2.members[m]);
  }

  lemma SettingIsAdding(s: Org, m: MemberId, invite: Invite)
    requires m in s.members && s.members[m].roles == {}
    ensures AssignInviteRoles(s, m, invite) == AddRoles(m, InviteRoles(s, invite))
  {
    assert s.members[m].roles - invite.roles == {} && invite.roles - s.members[m].roles == invite.roles;
  }

  // --- over a whole run ---------------------------------------------------------------------

  datatype Event =
    | Redeeming(i: InviteId, u: UserId, now: int)
    | Declining(i: InviteId)
    | Cancelling(i: InviteId)
    | Other(step: Step)

  /** Declining a collaboration invite leaves it open for others. */
  ghost function StepsOf(s: Org, e: Event): seq<Step> {
    match e
    case Redeeming(i, u, now) => Redeem(s, i, u, now).steps
    case Declining(i) =>
      if i in s.invites && s.invites[i].shared.None? then [PutInvite(i, s.invites[i].(status := Declined))] else []
    case Cancelling(i) => if i in s.invites then [PutInvite(i, s.invites[i].(status := Cancelled))] else []
    case Other(p) => if p.PutInvite? then [] else [p]
  }

  ghost function Play(s: Org, events: seq<Event>): Org {
    if events == [] then s else var s' := Play(s, events[..|events| - 1]); Run(s', StepsOf(s', events[|events| - 1]))
  }

  ghost predicate Spends(s: Org, e: Event, i: InviteId) {
    e.Redeeming? && e.i == i && var o := Redeem(s, i, e.u, e.now).outcome; o.BecameGuest? || o.BecameMember?
  }

  ghost predicate Redeems(s: Org, e: Event, i: InviteId) {
    e.Redeeming? && e.i == i && !Redeem(s, i, e.u, e.now).outcome.Refused?
  }

  /** How many redemptions of `i` in the run changed a grant or made a member. */
  ghost function Spendings(s: Org, events: seq<Event>, i: InviteId): nat {
    if events == [] then 0
    else var front := events[..|events| - 1];
      Spendings(s, front, i) + if Spends(Play(s, front), events[|events| - 1], i) then 1 else 0
  }

  ghost function Redemptions(s: Org, events: seq<Event>, i: InviteId): nat {
    if events == [] then 0
    else var front := events[..|events| - 1];
      Redemptions(s, front, i) + if Redeems(Play(s, front), events[|events| - 1], i) then 1 else 0
  }

  /** The event cancels the invite, or declines an ordinary one. */
  ghost predicate Closes(s: Org, e: Event, i: InviteId) {
    || (e.Cancelling? && e.i == i)
    || (e.Declining? && e.i == i && i in s.invites && s.invites[i].shared.None?)
  }

  /** How an event changes an invite: its terms never change. A redemption is of a pending one. One
      that gives something counts a use: a collaboration invite stays pending exactly while it has
      uses left, an ordinary one is accepted, also by who is a member already. What is neither
      redeemed nor closed keeps its status. */
  predicate Legal(before: Invite, after: Invite, spends: bool, redeems: bool, closes: bool) {
    && after == before.(status := after.status, uses := after.uses, roles := after.roles)
    && after.uses == before.uses + (if spends then 1 else 0)
    && (redeems ==> before.status == Pending && !closes)
    && (spends ==> redeems)
    && (spends && before.shared.Some? ==>
          (after.status == Pending <==> after.maxUses.None? || after.uses < after.maxUses.value))
    && (redeems && !spends && before.shared.Some? ==> after.status == Pending)
    && (redeems && before.shared.None? ==> after.status == Accepted)
    && (closes ==> after.status == Cancelled || after.status == Declined)
    && (!redeems && !closes ==> after.status == before.status)
    && (after.status == Pending ==> before.status == Pending)
  }

  lemma OutcomeIsLegal(invite: Invite, outcome: Outcome, now: int)
    requires outcome.BecameGuest? ==> invite.shared.Some?
    requires outcome.BecameMember? || outcome.HadItAll? || outcome.AlreadyMember? || outcome.BecameGuest? ==>
        Acceptable(invite, now)
    requires outcome.HadItAll? ==> invite.shared.Some?
    requires outcome.BecameMember? ==> invite.shared.None?
    ensures Legal(invite, InviteAfter(invite, outcome), outcome.BecameGuest? || outcome.BecameMember?,
            !outcome.Refused?, false)
  {
  }

  /** What any event does to any invite: a legal change; or it goes with the user who made it, which
      redeems nothing; and one that is gone is gone. */
  lemma EventOnInvite(s: Org, e: Event, i: InviteId)
    requires OrgOk(s)
    ensures var s' := Run(s, StepsOf(s, e));
            && (i in s.invites && i in s'.invites ==>
                  Legal(s.invites[i], s'.invites[i], Spends(s, e, i), Redeems(s, e, i), Closes(s, e, i)))
            && (i !in s.invites || i !in s'.invites ==> i !in s'.invites && !Spends(s, e, i) && !Redeems(s, e, i))
  {
    match e
    case Redeeming(j, u, now) =>
      if i in s.invites { RedeemingIsLegal(s, j, u, now, i); } else { RedeemingAnother(s, j, u, now, i); }
    case Declining(j) => if j in s.invites && s.invites[j].shared.None? { StatusOnly(s, j, Declined); }
    case Cancelling(j) => if j in s.invites { StatusOnly(s, j, Cancelled); }
    case Other(p) => if !p.PutInvite? { RunOne(s, p); }
  }

  lemma RedeemingAnother(s: Org, j: InviteId, u: UserId, now: int, i: InviteId)
    requires OrgOk(s) && i !in s.invites
    ensures i !in Run(s, Redeem(s, j, u, now).steps).invites && (i == j ==> Redeem(s, j, u, now).outcome.Refused?)
  {
    if j in s.invites {
      RedeemOutcome(s, j, u, now);
    } else {
      InvitesUntouched(s, Entering(s, j, u, now).steps);
    }
  }

  lemma RedeemingIsLegal(s: Org, j: InviteId, u: UserId, now: int, i: InviteId)
    requires OrgOk(s) && i in s.invites
    ensures var plan := Redeem(s, j, u, now); var s' := Run(s, plan.steps);
            && i in s'.invites
            && Legal(s.invites[i], s'.invites[i],
                     i == j && (plan.outcome.BecameGuest? || plan.outcome.BecameMember?),
                     i == j && !plan.outcome.Refused?, false)
  {
    var outcome := Redeem(s, j, u, now).outcome;
    if j in s.invites {
      RedeemOutcome(s, j, u, now);
      OutcomeIsLegal(s.invites[j], outcome, now);
    } else {
      InvitesUntouched(s, Entering(s, j, u, now).steps);
    }
  }

  lemma StatusOnly(s: Org, j: InviteId, status: Status)
    requires OrgOk(s) && j in s.invites
    ensures Run(s, [PutInvite(j, s.invites[j].(status := status))]).invites ==
            s.invites[j := s.invites[j].(status := status)]
  {
    RunOne(s, PutInvite(j, s.invites[j].(status := status)));
  }

  /** What is left of the invite agrees with what the run spent and redeemed of it, and with whether
      it was closed meanwhile. */
  ghost predicate Balanced(before: Invite, left: Option<Invite>, spendings: nat, redemptions: nat, closed: bool) {
    && (left.Some? ==>
          left.value == before.(status := left.value.status, uses := left.value.uses, roles := left.value.roles))
    && (left.Some? ==> left.value.uses == before.uses + spendings)
    && (left.Some? && left.value.status == Pending ==> before.status == Pending)
    && (WithinLimit(before) && before.maxUses.Some? ==> before.uses + spendings <= before.maxUses.value)
    && (WithinLimit(before) && left.Some? ==> WithinLimit(left.value))
    && (before.status != Pending ==> redemptions == 0 && spendings == 0)
    && (before.shared.None? ==> redemptions <= 1)
    && (before.shared.None? && left.Some? && before.status == Pending && !closed ==>
          (left.value.status == Pending <==> redemptions == 0) && (redemptions > 0 ==> left.value.status == Accepted))
    && (before.shared.Some? && left.Some? && before.status == Pending && !closed && WithinLimit(before) ==>
          (left.value.status == Pending <==> before.maxUses.None? || before.uses + spendings < before.maxUses.value))
    && (before.shared.None? && left.Some? && left.value.status == Pending ==> redemptions == 0)
  }

  ghost predicate Closed(s: Org, events: seq<Event>, i: InviteId) {
    events != [] && var front := events[..|events| - 1];
      Closed(s, front, i) || Closes(Play(s, front), events[|events| - 1], i)
  }

  function InviteOf(s: Org, i: InviteId): Option<Invite> { if i in s.invites then Some(s.invites[i]) else None }

  /** Over any run: `uses` counts exactly the redemptions that gave something, a collaboration
      invite with a limit never exceeds it, and unless it is closed it is pending exactly as long as
      the limit is not reached; an ordinary invite is redeemed at most once, and pending exactly until
      then; no invite is ever pending again; and the bounds hold also when the invite goes. */
  lemma {:induction false} InviteLedger(s: Org, events: seq<Event>, i: InviteId)
    requires OrgOk(s) && i in s.invites
    ensures OrgOk(Play(s, events))
    ensures Balanced(s.invites[i], InviteOf(Play(s, events), i), Spendings(s, events, i), Redemptions(s, events, i),
                     Closed(s, events, i))
  {
    if events != [] {
      var front, last := events[..|events| - 1], events[|events| - 1];
      InviteLedger(s, front, i);
      EventOnInvite(Play(s, front), last, i);
      EveryRunKeepsOrgOk(Play(s, front), StepsOf(Play(s, front), last));
    }
  }

  /** At most the limit, and below it while pending. */
  predicate WithinLimit(invite: Invite) {
    invite.maxUses.Some? ==>
      invite.uses <= invite.maxUses.value && (invite.status == Pending ==> invite.uses < invite.maxUses.value)
  }
}
