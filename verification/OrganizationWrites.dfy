/** The single writes the organization's code makes, as functions on rows, and how they add up to
    the steps of the state machine. */
module OrganizationWrites {
  import opened Rows
  import opened ServiceRoles
  import opened Organizations
  import Grants
  import Invites

  // --- how single steps act on the rows -----------------------------------------------------

  lemma OneRow(s: Org, p: Step, m: MemberId, row: Member)
    requires m in s.members && (p.Give? || p.Take? || p.Clear? || p.PutGrants? || p.Upgrade? || p.Save?) && p.m == m
    requires After(s, p, m) == Some(row)
    ensures Next(s, p) == s.(members := s.members[m := row])
  {
    assert Survivors(s, p) == s.members[m := row];
  }

  lemma SyncRows(s: Org, ms: set<MemberId>)
    ensures Next(s, Sync(ms)) == s.(members := map id | id in s.members ::
            if id in ms then SyncedUnlessGuest(s.roles, s.owner, s.members[id]) else s.members[id])
  {
    assert Survivors(s, Sync(ms)) == map id | id in s.members ::
      if id in ms then SyncedUnlessGuest(s.roles, s.owner, s.members[id]) else s.members[id];
  }

  lemma NoRow(s: Org, p: Step)
    requires forall id :: id in s.members ==> After(s, p, id) == Some(s.members[id])
    requires p.Give? || p.GiveTo? || p.Take? || p.TakeFrom? || p.Sync? || p.PutGrants? || p.DropGrants? || p.Rename?
    requires p.Rename? ==> !MayRename(s, p)
    ensures Next(s, p) == s
  {
    assert Survivors(s, p) == s.members;
  }

  lemma RunTwo(s: Org, a: Step, b: Step)
    ensures Run(s, [a, b]) == Next(Next(s, a), b)
  {
    assert [a, b] == [a] + [b];
    Invites.RunConcat(s, [a], [b]);
    Invites.RunOne(s, a);
    Invites.RunOne(Next(s, a), b);
  }

  lemma RunOneMore(s: Org, steps: seq<Step>, p: Step)
    ensures Run(s, steps + [p]) == Next(Run(s, steps), p)
  {
    assert (steps + [p])[..|steps + [p]| - 1] == steps;
  }

  // --- the writes the methods make, as values ----------------------------------------------

  type Members = map<MemberId, Member>

  function FlagsRecomputed(roles: Roles, members: Members, ids: set<MemberId>): Members {
    map id | id in members :: if id in ids then members[id].(isAdmin := HoldsAdmin(roles, members[id].roles))
      else members[id]
  }

  function WrongFlags(roles: Roles, members: Members): set<MemberId> {
    set id | id in members && members[id].isAdmin != HoldsAdmin(roles, members[id].roles)
  }

  function MarkedTaken(roles: Roles, members: Members, ids: set<MemberId>, rs: set<RoleId>): Members {
    map id | id in members :: if id in ids then members[id].(
      automatic := members[id].automatic - rs, withheld := members[id].withheld + rs * DefaultRoles(roles))
        else members[id]
  }

  function MarkedGiven(members: Members, ids: set<MemberId>, rs: set<RoleId>): Members {
    map id | id in members :: if id in ids then members[id].(withheld := members[id].withheld - rs) else members[id]
  }

  /** Role rows inserted, or deleted, and the flag recomputed: what lok's own changes do. */
  function RowsAdded(roles: Roles, m: Member, rs: set<RoleId>): Member {
    if rs == {} then m else m.(roles := m.roles + rs, isAdmin := HoldsAdmin(roles, m.roles + rs))
  }

  function RowsRemoved(roles: Roles, m: Member, rs: set<RoleId>): Member {
    if rs == {} then m else m.(roles := m.roles - rs, isAdmin := HoldsAdmin(roles, m.roles - rs))
  }

  lemma AddedByParts(roles: Roles, members: Members, m: MemberId, rs: set<RoleId>)
    requires m in members && rs != {}
    ensures var missing := rs - members[m].roles;
            FlagsRecomputed(roles, members[m := members[m].(roles := members[m].roles + missing)], {m}) ==
              members[m := RowsAdded(roles, members[m], rs)]
  {
    assert members[m].roles + (rs - members[m].roles) == members[m].roles + rs;
  }

  lemma GivenByParts(s: Org, m: MemberId, rs: set<RoleId>)
    requires m in s.members && rs != {} && MayGive(s, Give(m, rs))
    ensures MarkedGiven(s.members[m := RowsAdded(s.roles, s.members[m], rs)], {m}, rs - s.members[m].roles) ==
            Next(s, Give(m, rs)).members
    ensures Next(s, Give(m, rs)) == s.(members := Next(s, Give(m, rs)).members)
  {
    OneRow(s, Give(m, rs), m, Given(s.roles, s.members[m], rs));
  }

  lemma RemovedByParts(roles: Roles, members: Members, m: MemberId, rs: set<RoleId>)
    requires m in members && rs != {}
    ensures FlagsRecomputed(roles, members[m := members[m].(roles := members[m].roles - rs)], {m}) ==
            members[m := RowsRemoved(roles, members[m], rs)]
  {
  }

  lemma TakenByParts(s: Org, m: MemberId, rs: set<RoleId>)
    requires m in s.members && rs != {} && rs <= s.roles.Keys
    ensures MarkedTaken(s.roles, s.members[m := RowsRemoved(s.roles, s.members[m], rs)], {m}, rs) ==
            Next(s, Take(m, rs)).members
    ensures Next(s, Take(m, rs)) == s.(members := Next(s, Take(m, rs)).members)
  {
    OneRow(s, Take(m, rs), m, Taken(s.roles, s.members[m], rs));
  }

  lemma ClearedByParts(s: Org, m: MemberId)
    requires m in s.members
    ensures var heldBefore := s.members[m].roles * DefaultRoles(s.roles);
            var emptied := FlagsRecomputed(s.roles, s.members[m := s.members[m].(roles := {})], {m});
            MarkedTaken(s.roles, emptied, {m}, heldBefore) == Next(s, Clear(m)).members
    ensures Next(s, Clear(m)) == s.(members := Next(s, Clear(m)).members)
  {
    var heldBefore := s.members[m].roles * DefaultRoles(s.roles);
    assert heldBefore * DefaultRoles(s.roles) == heldBefore;
    OneRow(s, Clear(m), m, Cleared(s.roles, s.members[m]));
  }

  lemma SyncedByParts(roles: Roles, owner: UserId, m: Member)
    ensures var wanted := Wanted(roles, owner, m);
            var give, take := wanted - m.roles, (m.automatic * m.roles) - wanted;
            var given := RowsAdded(roles, m, give);
            var taken := RowsRemoved(roles, given.(automatic := given.automatic + give), take);
            Synced(roles, owner, m) == taken.(automatic := taken.automatic - (take + (m.automatic - m.roles)))
  {
  }

  /** The memberships of `done` are synced, the others as they were. */
  ghost predicate EachIs(roles: Roles, owner: UserId, before: Members, after: Members, done: set<MemberId>) {
    && before.Keys == after.Keys
    && forall id :: id in before ==> after[id] == if id in done then Synced(roles, owner, before[id]) else before[id]
  }

  function FullMembers(members: Members, ids: set<MemberId>): (full: set<MemberId>)
    ensures full <= members.Keys && forall id :: id in full ==> !members[id].Scoped()
  {
    set id | id in ids && id in members && !members[id].Scoped()
  }

  lemma EachSynced(s: Org, ids: set<MemberId>, members: Members)
    requires EachIs(s.roles, s.owner, s.members, members, FullMembers(s.members, ids))
    ensures s.(members := members) == Next(s, Sync(ids))
  {
    SyncRows(s, ids);
    assert members == Next(s, Sync(ids)).members;
  }

  lemma SyncNobody(s: Org)
    ensures Next(s, Sync({})) == s
  {
    NoRow(s, Sync({}));
  }

  lemma RefusedToAGuest(s: Org, m: MemberId, rs: set<RoleId>)
    requires m in s.members && s.members[m].Scoped() && rs != {}
    ensures Run(s, Invites.AddRoles(m, rs)) == s
  {
    NoRow(s, Give(m, rs));
    NoRow(s, Sync({m}));
    RunTwo(s, Give(m, rs), Sync({m}));
  }

  function Inserted(members: Members, r: RoleId, ids: set<MemberId>): Members {
    map id | id in members :: if id in ids then members[id].(roles := members[id].roles + {r}) else members[id]
  }

  function Deleted(members: Members, r: RoleId, ids: set<MemberId>): Members {
    map id | id in members :: if id in ids then members[id].(roles := members[id].roles - {r}) else members[id]
  }

  function Holders(members: Members, r: RoleId): set<MemberId> { set id | id in members && r in members[id].roles }

  lemma GivenToByParts(s: Org, r: RoleId, ms: set<MemberId>)
    requires MayGiveTo(s, GiveTo(r, ms))
    ensures var missing := ms - Holders(s.members, r);
            MarkedGiven(FlagsRecomputed(s.roles, Inserted(s.members, r, missing), missing), missing, {r}) ==
              Next(s, GiveTo(r, ms)).members
    ensures Next(s, GiveTo(r, ms)) == s.(members := Next(s, GiveTo(r, ms)).members)
  {
    var missing := ms - Holders(s.members, r);
    assert forall id :: id in s.members && id in missing ==> {r} - s.members[id].roles == {r};
  }

  lemma TakenFromByParts(s: Org, r: RoleId, ms: set<MemberId>)
    requires r in s.roles
    ensures MarkedTaken(s.roles, FlagsRecomputed(s.roles, Deleted(s.members, r, ms), ms), ms, {r}) ==
            Next(s, TakeFrom(r, ms)).members
    ensures Next(s, TakeFrom(r, ms)) == s.(members := Next(s, TakeFrom(r, ms)).members)
  {
  }

  lemma ClearedRoleByParts(s: Org, r: RoleId)
    ensures var held := Holders(s.members, r);
            FlagsRecomputed(s.roles, Deleted(s.members, r, held), held) == Next(s, ClearRole(r)).members
    ensures Next(s, ClearRole(r)) == s.(members := Next(s, ClearRole(r)).members)
  {
    assert forall id :: id in s.members && r !in s.members[id].roles ==>
        s.members[id].roles - {r} == s.members[id].roles;
  }

  /** The rows that refer to a role go with it. */
  function RoleRowsGone(members: Members, r: RoleId): Members {
    map id | id in members ::
      members[id].(
        roles := members[id].roles - {r},
        automatic := members[id].automatic - {r},
        withheld := members[id].withheld - {r})
  }

  lemma RenamedByParts(s: Org, r: RoleId, identifier: Option<string>)
    requires MayRename(s, Rename(r, identifier))
    ensures var p := Rename(r, identifier);
            var flips := (s.roles[r].identifier == Some(ADMIN)) != (identifier == Some(ADMIN));
            && Next(s, p).members ==
                 FlagsRecomputed(RolesAfter(s, p), s.members, if flips then Holders(s.members, r) else {})
            && Next(s, p) == s.(roles := RolesAfter(s, p), members := Next(s, p).members)
  {
  }

  lemma DeletedByParts(s: Org, r: RoleId)
    requires r in s.roles
    ensures var p, admin := DeleteRole(r), s.roles[r].identifier == Some(ADMIN);
            && Next(s, p).members ==
                 FlagsRecomputed(s.roles - {r}, RoleRowsGone(s.members, r), if admin then Holders(s.members, r) else {})
            && Next(s, p) == s.(roles := s.roles - {r}, members := Next(s, p).members, invites := Next(s, p).invites)
  {
  }

  // --- grants -------------------------------------------------------------------------------

  /** The rows once the collaborations of `done` are stored. */
  ghost function RowsStored(grants: map<GrantKey, Grant>, call: Grants.Call, done: set<GrantKey>): map<GrantKey, Grant>
    requires done <= call.refs.Keys
  {
    map k | k in grants.Keys + done :: if k in done then Grants.Put(grants, k, call.refs[k], call) else grants[k]
  }

  /** Some collaboration of `done` was created or grew. */
  ghost predicate SomeGrew(grants: map<GrantKey, Grant>, call: Grants.Call, done: set<GrantKey>)
    requires done <= call.refs.Keys
  {
    exists k :: k in done && Grants.Grows(grants, k, call.refs[k], call.mesh)
  }

  ghost predicate WithinCap(grants: map<GrantKey, Grant>, done: set<GrantKey>) {
    done - grants.Keys != {} ==> |grants| + |done - grants.Keys| <= MAX_GRANTS_PER_MEMBERSHIP
  }

  /** Where the loop of `grant_collaborations` stands. */
  datatype Progress = Progress(rows: map<GrantKey, Grant>, changed: bool, existing: int)

  ghost function StoredOf(grants: map<GrantKey, Grant>, call: Grants.Call, done: set<GrantKey>): Progress
    requires done <= call.refs.Keys
  {
    Progress(RowsStored(grants, call, done), SomeGrew(grants, call, done), |grants| + |done - grants.Keys|)
  }

  lemma NothingStored(grants: map<GrantKey, Grant>, call: Grants.Call)
    ensures StoredOf(grants, call, {}) == Progress(grants, false, |grants|) && WithinCap(grants, {})
  {
    assert RowsStored(grants, call, {}) == grants;
    assert {} - grants.Keys == {};
  }

  /** The progress after the collaboration `k`. */
  function OneStored(p: Progress, call: Grants.Call, k: GrantKey): Progress
    requires k in call.refs
  {
    Progress(p.rows[k := Grants.Put(p.rows, k, call.refs[k], call)],
             p.changed || Grants.Grows(p.rows, k, call.refs[k], call.mesh),
             p.existing + if k in p.rows then 0 else 1)
  }

  /** One turn of the loop: the count goes past the cap exactly when the call must be refused. */
  lemma StoredOneMore(grants: map<GrantKey, Grant>, call: Grants.Call, done: set<GrantKey>, k: GrantKey)
    requires done <= call.refs.Keys && k in call.refs && k !in done && WithinCap(grants, done)
    ensures var p, p' := StoredOf(grants, call, done), StoredOf(grants, call, done + {k});
            && p' == OneStored(p, call, k)
            && if k !in p.rows && p'.existing > MAX_GRANTS_PER_MEMBERSHIP then Grants.OverCap(grants, call)
               else WithinCap(grants, done + {k})
  {
    RowsStep(grants, call, done, k);
    CountStep(grants, call, done, k);
  }

  /** Rows over the cap, as they are when the loop raises: some of the collaborations are stored. */
  ghost predicate PartlyStored(grants: map<GrantKey, Grant>, call: Grants.Call, rows: map<GrantKey, Grant>) {
    |rows| > MAX_GRANTS_PER_MEMBERSHIP &&
    exists done: set<GrantKey> | done <= call.refs.Keys :: rows == RowsStored(grants, call, done)
  }

  /** Of the memberships only this one changed: its grants are over the cap, partly stored. */
  ghost predicate OverTheCap(before: Members, after: Members, m: MemberId, call: Grants.Call)
    requires m in before
  {
    && m in after && PartlyStored(before[m].grants, call, after[m].grants)
    && after == before[m := before[m].(grants := after[m].grants)]
  }

  lemma StoredIsPartly(grants: map<GrantKey, Grant>, call: Grants.Call, done: set<GrantKey>)
    requires done <= call.refs.Keys && StoredOf(grants, call, done).existing > MAX_GRANTS_PER_MEMBERSHIP
    ensures PartlyStored(grants, call, StoredOf(grants, call, done).rows)
  {
    StoredSize(grants, call, done);
  }

  lemma StoredSize(grants: map<GrantKey, Grant>, call: Grants.Call, done: set<GrantKey>)
    requires done <= call.refs.Keys
    ensures |RowsStored(grants, call, done)| == |grants| + |done - grants.Keys|
  {
    var rows := RowsStored(grants, call, done);
    assert rows.Keys == grants.Keys + done;
    UnionSize(grants.Keys, done);
    assert |rows| == |rows.Keys| && |grants| == |grants.Keys|;
  }

  lemma UnionSize<T>(a: set<T>, b: set<T>)
    ensures |a + b| == |a| + |b - a|
  {
    assert a + b == a + (b - a);
  }

  lemma CountStep(grants: map<GrantKey, Grant>, call: Grants.Call, done: set<GrantKey>, k: GrantKey)
    requires done <= call.refs.Keys && k in call.refs && k !in done && WithinCap(grants, done)
    ensures |done + {k} - grants.Keys| == |done - grants.Keys| + if k in grants then 0 else 1
    ensures if k !in grants && |grants| + |done + {k} - grants.Keys| > MAX_GRANTS_PER_MEMBERSHIP
            then Grants.OverCap(grants, call) else WithinCap(grants, done + {k})
  {
    CountOneMore(grants.Keys, call.refs.Keys, done, k);
  }

  lemma CountOneMore(there: set<GrantKey>, wanted: set<GrantKey>, done: set<GrantKey>, k: GrantKey)
    requires done <= wanted && k in wanted && k !in done
    ensures |done + {k} - there| == |done - there| + (if k in there then 0 else 1) <= |wanted - there|
    ensures k !in there ==> wanted - there != {}
    ensures k in there ==> done + {k} - there == done - there
  {
    if k in there {
      assert done + {k} - there == done - there;
    } else {
      assert done + {k} - there == (done - there) + {k};
    }
    SubsetSize(done + {k} - there, wanted - there);
  }

  lemma RowsStep(grants: map<GrantKey, Grant>, call: Grants.Call, done: set<GrantKey>, k: GrantKey)
    requires done <= call.refs.Keys && k in call.refs && k !in done
    ensures var rows := RowsStored(grants, call, done);
            && (k in rows <==> k in grants)
            && Grants.Grows(rows, k, call.refs[k], call.mesh) == Grants.Grows(grants, k, call.refs[k], call.mesh)
            && RowsStored(grants, call, done + {k}) == rows[k := Grants.Put(rows, k, call.refs[k], call)]
    ensures SomeGrew(grants, call, done + {k}) ==
            (SomeGrew(grants, call, done) || Grants.Grows(grants, k, call.refs[k], call.mesh))
  {
    var rows := RowsStored(grants, call, done);
    assert RowsStored(grants, call, done + {k}) == rows[k := Grants.Put(rows, k, call.refs[k], call)];
  }

  lemma AllStored(grants: map<GrantKey, Grant>, call: Grants.Call, done: set<GrantKey>)
    requires done == call.refs.Keys - {} && WithinCap(grants, done)
    ensures !Grants.OverCap(grants, call)
    ensures StoredOf(grants, call, done).rows == Grants.Granted(grants, call)
    ensures StoredOf(grants, call, done).changed == Grants.Changes(grants, call)
  {
    assert done == call.refs.Keys;
    assert RowsStored(grants, call, done) == Grants.Granted(grants, call);
  }

  lemma GrantsStored(s: Org, m: MemberId, call: Grants.Call)
    requires m in s.members && MayPutGrants(s, PutGrants(m, call))
    ensures Next(s, PutGrants(m, call)) ==
            s.(members := s.members[m := s.members[m].(grants := Grants.Granted(s.members[m].grants, call))])
  {
    OneRow(s, PutGrants(m, call), m, s.members[m].(grants := Grants.Granted(s.members[m].grants, call)));
  }

  /** What a delete began with, as its signals say. */
  datatype Origin = FromGrant | FromInstance | FromMembership | FromOrganization | FromUser

  /** The receiver leaves the membership to the delete it comes from. */
  predicate LeftToOrigin(origin: Origin) { origin.FromMembership? || origin.FromOrganization? || origin.FromUser? }

  /** The membership rows after one grant row is deleted and the receiver has run. */
  function GrantGone(members: Members, m: MemberId, k: GrantKey): Members
    requires m in members
  {
    var row := members[m].(grants := members[m].grants - {k});
    if row.grants == map[] && row.roles == {} then members - {m} else members[m := row]
  }

  lemma GrantGoneIsDropped(s: Org, m: MemberId, k: GrantKey)
    requires m in s.members && k in s.members[m].grants
    ensures Next(s, DropGrants({(m, k)})) == s.(members := GrantGone(s.members, m, k))
  {
    var p := DropGrants({(m, k)});
    forall id | id in s.members && id != m ensures After(s, p, id) == Some(s.members[id]) {
      assert Remaining(s.members[id], id, p.selected) == s.members[id].grants;
    }
    assert Remaining(s.members[m], m, p.selected) == s.members[m].grants - {k};
    assert Survivors(s, p) == GrantGone(s.members, m, k);
  }

  /** Deleting one more grant row after others gives the same as selecting it with them. */
  lemma DropOneMore(s: Org, done: set<(MemberId, GrantKey)>, m: MemberId, k: GrantKey)
    requires m in s.members && k in s.members[m].grants && (m, k) !in done
    ensures var s1 := Next(s, DropGrants(done));
            && m in s1.members && k in s1.members[m].grants
            && Next(s1, DropGrants({(m, k)})) == Next(s, DropGrants(done + {(m, k)}))
  {
    var s1 := Next(s, DropGrants(done));
    assert k in Remaining(s.members[m], m, done);
    assert s1 == s.(members := Survivors(s, DropGrants(done)));
    forall id | id in s.members { DropOneMoreAt(s, s1, done, m, k, id); }
    assert Survivors(s1, DropGrants({(m, k)})) == Survivors(s, DropGrants(done + {(m, k)}));
  }

  lemma DropOneMoreAt(s: Org, s1: Org, done: set<(MemberId, GrantKey)>, m: MemberId, k: GrantKey, id: MemberId)
    requires id in s.members && m in s.members && k in s.members[m].grants && (m, k) !in done
    requires s1 == s.(members := Survivors(s, DropGrants(done)))
    ensures After(s, DropGrants(done + {(m, k)}), id) ==
            if id in s1.members then After(s1, DropGrants({(m, k)}), id) else None
  {
    var row, left := s.members[id], Remaining(s.members[id], id, done);
    assert k in Remaining(s.members[m], m, done);
    assert Remaining(row.(grants := left), id, {(m, k)}) == Remaining(row, id, done + {(m, k)});
    if id != m {
      assert Remaining(row, id, done + {(m, k)}) == left;
    }
  }

  lemma DropNone(s: Org)
    ensures Next(s, DropGrants({})) == s
  {
    forall id | id in s.members ensures After(s, DropGrants({}), id) == Some(s.members[id]) {
      assert Remaining(s.members[id], id, {}) == s.members[id].grants;
    }
    NoRow(s, DropGrants({}));
  }

  /** The grants an invite handed out, and those on an instance, across the organization. */
  function GrantsThrough(members: Members, i: InviteId): set<(MemberId, GrantKey)> {
    set id, k | id in members && k in members[id].grants && members[id].grants[k].through == Some(i) :: (id, k)
  }

  function GrantsOn(members: Members, instance: InstanceId): set<(MemberId, GrantKey)> {
    set id, k | id in members && k in members[id].grants && k.instance == instance :: (id, k)
  }

  /** What revoking an invite's grants leaves: exactly the grants not handed out through it, as they
      were; the memberships that had others, or none at all. */
  lemma InviteGrantsRevoked(s: Org, i: InviteId, id: MemberId)
    requires OrgOk(s) && id in s.members
    ensures var s1, m := Next(s, DropGrants(GrantsThrough(s.members, i))), s.members[id];
            && (id in s1.members <==> !m.Scoped() || exists k :: k in m.grants && m.grants[k].through != Some(i))
            && (id in s1.members ==>
                  s1.members[id] ==
                  m.(grants := map k | k in m.grants && m.grants[k].through != Some(i) :: m.grants[k]))
  {
    var selected, m := GrantsThrough(s.members, i), s.members[id];
    var left := map k | k in m.grants && m.grants[k].through != Some(i) :: m.grants[k];
    assert Remaining(m, id, selected) == left;
    assert MemberOk(s.roles, m);
    if exists k :: k in m.grants && m.grants[k].through != Some(i) {
      var k :| k in m.grants && m.grants[k].through != Some(i);
      assert k in left;
    } else {
      assert left == map[];
    }
    assert After(s, DropGrants(selected), id) == if left == map[] && m.Scoped() then None else Some(m.(grants := left));
  }

  // --- deleting a user ----------------------------------------------------------------------

  /** Grant rows deleted, the memberships left. */
  function GrantRowsGone(members: Members, selected: set<(MemberId, GrantKey)>): Members {
    map id | id in members :: members[id].(grants := Remaining(members[id], id, selected))
  }

  lemma OneGrantRowMore(members: Members, gone: set<(MemberId, GrantKey)>, m: MemberId, k: GrantKey)
    requires m in members && k in members[m].grants && (m, k) !in gone
    ensures var left := GrantRowsGone(members, gone);
            && k in left[m].grants
            && left[m := left[m].(grants := left[m].grants - {k})] == GrantRowsGone(members, gone + {(m, k)})
  {
    var left := GrantRowsGone(members, gone);
    forall id | id in members && id != m
      ensures Remaining(members[id], id, gone + {(m, k)}) == Remaining(members[id], id, gone) {}
    assert Remaining(members[m], m, gone + {(m, k)}) == left[m].grants - {k};
  }

  lemma NoGrantRow(members: Members)
    ensures GrantRowsGone(members, {}) == members
  {
    forall id | id in members ensures Remaining(members[id], id, {}) == members[id].grants {}
  }

  /** The grants of others on these instances. */
  function GrantsOfOthers(members: Members, u: UserId, gone: set<InstanceId>): set<(MemberId, GrantKey)> {
    set id, k | id in members && k in members[id].grants && members[id].user != u && k.instance in gone :: (id, k)
  }

  /** References to the user and to their invites set to null. */
  function ReferencesNulled(m: Member, u: UserId, invites: set<InviteId>): Member {
    m.(createdThrough := Nulled(m.createdThrough, invites),
       grants := map k | k in m.grants ::
         m.grants[k].(through := Nulled(m.grants[k].through, invites), granter := Nulled(m.grants[k].granter, {u})))
  }

  function RolesRemoved(m: Member, gone: set<RoleId>): Member {
    m.(roles := m.roles - gone, automatic := m.automatic - gone, withheld := m.withheld - gone)
  }

  /** What the writes make of a membership, up to the flag. */
  function Stripped(s: Org, u: UserId, m: Member, grants: map<GrantKey, Grant>): Member {
    RolesRemoved(ReferencesNulled(m.(grants := grants), u, GoneInvites(s, u)), GoneRoles(s, u))
  }

  lemma StrippedIsBereft(s: Org, u: UserId, id: MemberId)
    requires id in s.members && s.members[id].user != u
    ensures var m := s.members[id];
            var grants := Remaining(m, id, GrantsOfOthers(s.members, u, GoneInstances(s, u)));
            Bereft(s, u, m) ==
              Recomputed(s.roles - GoneRoles(s, u), Stripped(s, u, m, grants),
                         HoldsAdmin(s.roles, m.roles * GoneRoles(s, u)), true)
  {
    var m := s.members[id];
    var left := Remaining(m, id, GrantsOfOthers(s.members, u, GoneInstances(s, u)));
    assert forall k :: k in left <==> k in m.grants && k.instance !in GoneInstances(s, u);
    assert Stripped(s, u, m, left).grants == GrantsLeft(s, u, m.grants);
  }

  /** Those who hold an `admin` role that goes. */
  function AdminsOf(members: Members, roles: Roles, gone: set<RoleId>): set<MemberId> {
    set id | id in members && HoldsAdmin(roles, members[id].roles * gone)
  }

  function StrippedRows(s: Org, u: UserId, members: Members): Members {
    map id | id in members :: Stripped(s, u, members[id], members[id].grants)
  }

  function Others(members: Members, u: UserId): Members {
    map id | id in members && members[id].user != u :: members[id]
  }

  /** All writes to the memberships, one after the other. */
  function RowsWithoutUser(s: Org, u: UserId): Members {
    var grantless := GrantRowsGone(s.members, GrantsOfOthers(s.members, u, GoneInstances(s, u)));
    var admins := AdminsOf(s.members, s.roles, GoneRoles(s, u));
    Others(FlagsRecomputed(s.roles - GoneRoles(s, u), StrippedRows(s, u, grantless), admins), u)
  }

  lemma RowWithoutUser(s: Org, u: UserId, id: MemberId)
    requires id in s.members
    ensures id in RowsWithoutUser(s, u) <==> s.members[id].user != u
    ensures s.members[id].user != u ==> RowsWithoutUser(s, u)[id] == Bereft(s, u, s.members[id])
  {
    if s.members[id].user != u { StrippedIsBereft(s, u, id); }
  }

  lemma UserDeletedByParts(s: Org, u: UserId)
    requires MayDeleteUser(s, u)
    ensures Next(s, DeleteUser(u)) == s.(
              members := RowsWithoutUser(s, u),
              roles := s.roles - GoneRoles(s, u),
              invites := WithoutRoles(s.invites - GoneInvites(s, u), GoneRoles(s, u)),
              instances := s.instances - GoneInstances(s, u))
  {
    OthersSurvive(s, u);
  }

  lemma OthersSurvive(s: Org, u: UserId)
    requires MayDeleteUser(s, u)
    ensures Survivors(s, DeleteUser(u)) == RowsWithoutUser(s, u)
  {
    forall id | id in s.members { RowWithoutUser(s, u, id); }
    NobodyNew(s, u);
    SurvivorsOfUser(s, u, RowsWithoutUser(s, u));
  }

  lemma SurvivorsOfUser(s: Org, u: UserId, rows: Members)
    requires MayDeleteUser(s, u) && rows.Keys <= s.members.Keys
    requires forall id :: id in s.members ==> (id in rows <==> s.members[id].user != u)
    requires forall id :: id in rows ==> rows[id] == Bereft(s, u, s.members[id])
    ensures Survivors(s, DeleteUser(u)) == rows
  {
  }

  lemma NobodyNew(s: Org, u: UserId)
    ensures RowsWithoutUser(s, u).Keys <= s.members.Keys
  {
  }

  function RolesWithout(roles: Roles, x: InstanceId): Roles {
    map r | r in roles && roles[r].creatingInstance != Some(x) :: roles[r]
  }

  lemma OneRoleLess(roles: Roles, all: set<RoleId>, todo: set<RoleId>, r: RoleId)
    requires r in todo && todo <= all
    ensures roles - (all - todo) - {r} == roles - (all - (todo - {r}))
  {
  }

  lemma NoRoleLeft(roles: Roles, all: set<RoleId>, x: InstanceId)
    requires forall r :: r in all <==> r in roles && roles[r].creatingInstance == Some(x)
    ensures roles - (all - {}) == RolesWithout(roles, x)
  {
    var left := roles - (all - {});
    forall r ensures r in left <==> r in RolesWithout(roles, x) {}
    assert left.Keys == RolesWithout(roles, x).Keys;
  }

  lemma InstanceGone(s: Org, s1: Org, steps: seq<Step>, x: InstanceId)
    requires s1 == Next(s, DropGrants(GrantsOn(s.members, x)))
    ensures s1.roles == s.roles
    ensures var s2 := Run(s1, steps);
            Run(s, [DropGrants(GrantsOn(s.members, x))] + steps + [DropInstance(x)]) ==
              s2.(instances := s2.instances - {x})
  {
    var drop, s2 := DropGrants(GrantsOn(s.members, x)), Run(s1, steps);
    Invites.RunOne(s, drop);
    Invites.RunConcat(s, [drop], steps);
    RunOneMore(s, [drop] + steps, DropInstance(x));
    InstanceRowGone(s2, x);
  }

  lemma InstanceRowGone(s: Org, x: InstanceId)
    ensures Next(s, DropInstance(x)) == s.(instances := s.instances - {x})
  {
    assert Survivors(s, DropInstance(x)) == s.members;
  }

  /** After a service instance is deleted no grant on it is left; a guest with grants elsewhere
      stays one, a guest without any is gone, and a full member is untouched. */
  lemma InstanceTakesItsGuests(s: Org, x: InstanceId, id: MemberId)
    requires OrgOk(s) && id in s.members
    ensures var s1, m := Next(s, DropGrants(GrantsOn(s.members, x))), s.members[id];
            && (id in s1.members <==> !m.Scoped() || exists k :: k in m.grants && k.instance != x)
            && (id in s1.members ==> s1.members[id].Scoped() == m.Scoped())
            && (id in s1.members ==>
                  s1.members[id] == m.(grants := map k | k in m.grants && k.instance != x :: m.grants[k]))
  {
    var selected, m := GrantsOn(s.members, x), s.members[id];
    var left := map k | k in m.grants && k.instance != x :: m.grants[k];
    assert Remaining(m, id, selected) == left;
    assert MemberOk(s.roles, m);
    if exists k :: k in m.grants && k.instance != x {
      var k :| k in m.grants && k.instance != x;
      assert k in left;
    } else {
      assert left == map[];
    }
    assert After(s, DropGrants(selected), id) == if left == map[] && m.Scoped() then None else Some(m.(grants := left));
  }

  /** The organization changes hands and is synced: whoever owns it now, or is an admin, holds every
      admin role of its services; the former owner keeps of them what was given by hand. */
  lemma OwnerChangesHands(s: Org, u: UserId, ms: set<MemberId>, id: MemberId)
    requires id in s.members && id in ms && !s.members[id].Scoped()
    ensures var s', m := Run(s, [SetOwner(u), Sync(ms)]), s.members[id];
            && s'.owner == u && id in s'.members
            && s'.members[id].roles == (if m.user == u || HoldsAdmin(s.roles, m.roles) then AdminRoles(s.roles) else {})
                                       + (DefaultRoles(s.roles) - m.withheld) + (m.roles - m.automatic)
  {
    RunTwo(s, SetOwner(u), Sync(ms));
    var s1 := Next(s, SetOwner(u));
    assert After(s, SetOwner(u), id) == Some(s.members[id]);
    SyncRows(s1, ms);
    SyncOutcome(s1.roles, s1.owner, s.members[id]);
  }

  // --- becoming a member --------------------------------------------------------------------

  lemma NotAMember(s: Org, u: UserId)
    requires UniqueOk(s)
    ensures Invites.MemberOf(s, u).None? <==> MayJoin(s, u)
    ensures Invites.MemberOf(s, u).Some? ==> IsMemberOf(s, u, Invites.MemberOf(s, u).value)
  {
    if Invites.MemberOf(s, u).None? {
      forall id | id in s.members ensures s.members[id].user != u { assert !IsMemberOf(s, u, id); }
    }
  }

  lemma Joined(s: Org, u: UserId, i: InviteId)
    requires OrgOk(s)
    ensures Run(s, Invites.Joining(s, u, i)) == if Invites.MemberOf(s, u).None? then Next(s, Join(u, Some(i))) else s
  {
    Invites.RunOne(s, Join(u, Some(i)));
  }

  /** Granting, then looking at what the call answered, is the plan of a collaboration invite. */
  lemma SharedByParts(s: Org, s1: Org, i: InviteId, u: UserId)
    requires OrgOk(s) && i in s.invites && s.invites[i].shared.Some? && s1 == Run(s, Invites.Joining(s, u, i))
    requires Invites.Entrant(s, u) in s1.members
    ensures var plan, m := Invites.RedeemShared(s, i, u), Invites.Entrant(s, u);
            var refs := Grants.Merge(s.invites[i].shared.value);
            if refs.None? || !MayPutGrants(s1, PutGrants(m, Invites.CallOf(s.invites[i], i, refs.value)))
            then plan == Invites.Plan([], Invites.Refused)
            else var call := Invites.CallOf(s.invites[i], i, refs.value);
              && Next(s1, PutGrants(m, call)) == Run(s, plan.steps)
              && plan.outcome == if Grants.Changes(s1.members[m].grants, call) then Invites.BecameGuest(m)
                else Invites.HadItAll(m)
  {
    var m, refs := Invites.Entrant(s, u), Grants.Merge(s.invites[i].shared.value);
    if refs.Some? && MayPutGrants(s1, PutGrants(m, Invites.CallOf(s.invites[i], i, refs.value))) {
      var call := Invites.CallOf(s.invites[i], i, refs.value);
      if Grants.Changes(s1.members[m].grants, call) {
        Invites.RunConcat(s, Invites.Joining(s, u, i), [PutGrants(m, call)]);
        Invites.RunOne(s1, PutGrants(m, call));
      } else {
        NothingGranted(s1, m, call);
      }
    }
  }

  lemma NothingGranted(s: Org, m: MemberId, call: Grants.Call)
    requires m in s.members && MayPutGrants(s, PutGrants(m, call)) && !Grants.Changes(s.members[m].grants, call)
    ensures Next(s, PutGrants(m, call)) == s
  {
    GrantsStored(s, m, call);
    Grants.ChangesExactlyWhenContentDoes(s.members[m].grants, call);
    assert s.members[m := s.members[m]] == s.members;
  }

  lemma TakingKeepsAFullMember(s: Org, m: MemberId, rs: set<RoleId>)
    requires m in s.members && !s.members[m].Scoped()
    ensures var s1 := Run(s, if rs == {} then [] else [Take(m, rs), Sync({m})]);
            m in s1.members && !s1.members[m].Scoped() && s1.roles == s.roles
  {
    if rs != {} {
      RunTwo(s, Take(m, rs), Sync({m}));
      var s1 := Next(s, Take(m, rs));
      assert After(s, Take(m, rs), m).Some?;
      assert After(s1, Sync({m}), m).Some?;
    }
  }

  lemma AddingKeepsAFullMember(s: Org, m: MemberId, rs: set<RoleId>)
    requires m in s.members && !s.members[m].Scoped()
    ensures var s1 := Run(s, Invites.AddRoles(m, rs));
            m in s1.members && !s1.members[m].Scoped() && s1.members[m].user == s.members[m].user
  {
    if rs != {} {
      RunTwo(s, Give(m, rs), Sync({m}));
      var s1 := Next(s, Give(m, rs));
      assert After(s, Give(m, rs), m).Some?;
      assert After(s1, Sync({m}), m).Some?;
    }
  }

  lemma Upgraded(s: Org, m: MemberId, u: UserId, i: InviteId)
    requires m in s.members
    ensures var s1 := Next(s, Upgrade(m));
            && m in s1.members
            && Run(s, [Upgrade(m), Save(m, NewMember(u, Some(i)))]) ==
              s1.(members := s1.members[m := s1.members[m].(createdThrough := Some(i))])
  {
    var s1, save := Next(s, Upgrade(m)), Save(m, NewMember(u, Some(i)));
    assert After(s, Upgrade(m), m).Some?;
    RunTwo(s, Upgrade(m), save);
    OneRow(s1, save, m, s1.members[m].(createdThrough := Some(i)));
  }

  lemma Entered(s: Org, u: UserId, i: InviteId)
    requires OrgOk(s) && i in s.invites
    requires (Invites.MemberOf(s, u).Some? ==> s.members[Invites.MemberOf(s, u).value].Scoped())
    ensures var s1, m := Run(s, Invites.EnteringFully(s, u, i)), Invites.Entrant(s, u);
            && m in s1.members && !s1.members[m].Scoped() && s1.members[m].roles == {} && s1.roles == s.roles
            && Invites.RedeemOrdinary(s, i, u) ==
                 Invites.Plan(Invites.EnteringFully(s, u, i) + Invites.AssignInviteRoles(s1, m, s.invites[i]),
                              Invites.BecameMember(m))
            && s.invites[i].roles <= s.roles.Keys
            && (Invites.MemberOf(s, u).None? ==> s1 == Next(s, Join(u, Some(i))))
  {
    Invites.FullRow(s, u, i);
    Invites.RunOne(s, Join(u, Some(i)));
  }

  /** The invite row is written last. */
  lemma InviteWritten(s: Org, steps: seq<Step>, i: InviteId, invite: Invite)
    requires Invites.Quiet(steps) && i in s.invites && invite.roles <= s.roles.Keys
    ensures var s1 := Run(s, steps);
            s1.invites == s.invites && Run(s, steps + [PutInvite(i, invite)]) == s1.(invites := s.invites[i := invite])
  {
    var s1 := Run(s, steps);
    Invites.RunConcat(s, steps, [PutInvite(i, invite)]);
    Invites.RunOne(s1, PutInvite(i, invite));
    Invites.InvitesUntouched(s, steps);
    Invites.RoleTableUntouched(s, steps);
    assert Survivors(s1, PutInvite(i, invite)) == s1.members;
  }

  /** The plan of a redemption, the memberships' part done. */
  lemma Redeemed(s: Org, i: InviteId, u: UserId, now: int)
    requires OrgOk(s)
    ensures var entering, plan := Invites.Entering(s, i, u, now), Invites.Redeem(s, i, u, now);
            var s1 := Run(s, entering.steps);
            && plan.outcome == entering.outcome && s1.invites == s.invites
            && Run(s, plan.steps) ==
                 if i in s.invites then s1.(invites := s.invites[i := Invites.InviteAfter(s.invites[i], plan.outcome)])
                 else s1
  {
    var entering := Invites.Entering(s, i, u, now);
    if i in s.invites {
      InviteWritten(s, entering.steps, i, Invites.InviteAfter(s.invites[i], entering.outcome));
    } else {
      Invites.InvitesUntouched(s, entering.steps);
    }
  }

  /** The requester's membership before roles are added: new, a guest's without its grants, or the
      full member's as it is. */
  ghost function LetInAs(s: Org, u: UserId): Member
    requires Invites.MemberOf(s, u).Some? ==> Invites.MemberOf(s, u).value in s.members
  {
    if Invites.MemberOf(s, u).None? then NewMember(u, None)
    else s.members[Invites.MemberOf(s, u).value].(grants := map[])
  }

  /** Approving a request leaves a full member, whatever the requester was before; they hold exactly
      what they held, the picked roles, or `guest`, and what lok wants them to hold. */
  lemma ApproveMakesAMember(s: Org, u: UserId, picked: set<RoleId>)
    requires OrgOk(s) && picked <= s.roles.Keys
    ensures var s', m := Run(s, Invites.Approve(s, u, picked)), Invites.Entrant(s, u);
            var rs := if picked != {} then picked else set r | r in s.roles && s.roles[r].identifier == Some("guest");
            && m in s'.members && s'.members[m].user == u && !s'.members[m].Scoped()
            && s'.members[m].roles == Invites.HeldOnceAdded(s.roles, s.owner, LetInAs(s, u), rs)
  {
    var m, rs := Invites.Entrant(s, u), if picked != {} then picked else Named(s.roles, GUEST);
    LetInRow(s, u);
    var s1 := Run(s, Invites.LettingIn(s, u));
    Invites.RunConcat(s, Invites.LettingIn(s, u), Invites.AddRoles(m, rs));
    Invites.AddedRoles(s1, m, rs);
  }

  lemma LetInRow(s: Org, u: UserId)
    requires OrgOk(s)
    ensures var s1, m := Run(s, Invites.LettingIn(s, u)), Invites.Entrant(s, u);
            && s1.roles == s.roles && s1.owner == s.owner
            && m in s1.members && s1.members[m].user == u && s1.members[m] == LetInAs(s, u)
  {
    var m := Invites.Entrant(s, u);
    NotAMember(s, u);
    if Invites.MemberOf(s, u).None? {
      Invites.RunOne(s, Join(u, None));
    } else if s.members[m].Scoped() {
      Invites.RunOne(s, Upgrade(m));
      OneRow(s, Upgrade(m), m, s.members[m].(grants := map[]));
    }
  }
}
