/** What each role change does to one membership (karakter/service_roles.py, karakter/roles.py),
    and the laws of the synchronisation that hands out service roles. */
module ServiceRoles {
  import opened Rows

  type Roles = map<RoleId, Role>

  predicate Administers(roles: Roles, owner: UserId, m: Member) {
    m.user == owner || HoldsAdmin(roles, m.roles)
  }

  /** The service roles lok wants the membership to hold. */
  function Wanted(roles: Roles, owner: UserId, m: Member): set<RoleId> {
    (if Administers(roles, owner, m) then AdminRoles(roles) else {}) + (DefaultRoles(roles) - m.withheld)
  }

  /** `_sync`: give what is wanted and not held, take what lok gave and is not wanted, forget
      what lok gave and is not held any more. The flag is recomputed when role rows changed. */
  function Synced(roles: Roles, owner: UserId, m: Member): Member {
    var wanted := Wanted(roles, owner, m);
    var give := wanted - m.roles;
    var take := (m.automatic * m.roles) - wanted;
    var held := (m.roles + give) - take;
    m.(roles := held,
       automatic := (m.automatic + give) - (take + (m.automatic - m.roles)),
       isAdmin := if give + take == {} then m.isAdmin else HoldsAdmin(roles, held))
  }

  /** `sync_service_roles` leaves guests alone. */
  function SyncedUnlessGuest(roles: Roles, owner: UserId, m: Member): Member {
    if m.Scoped() then m else Synced(roles, owner, m)
  }

  /** `membership.roles.add(*rs)` by hand, before the sync that follows it. */
  function Given(roles: Roles, m: Member, rs: set<RoleId>): Member {
    m.(roles := m.roles + rs,
       withheld := m.withheld - (rs - m.roles),
       isAdmin := HoldsAdmin(roles, m.roles + rs))
  }

  /** `membership.roles.remove(*rs)` by hand, before the sync that follows it. A default role is
      withheld even when it was not held. */
  function Taken(roles: Roles, m: Member, rs: set<RoleId>): Member {
    m.(roles := m.roles - rs,
       automatic := m.automatic - rs,
       withheld := m.withheld + (rs * DefaultRoles(roles)),
       isAdmin := HoldsAdmin(roles, m.roles - rs))
  }

  /** `membership.roles.clear()` by hand, before the sync that follows it: only the default roles
      it held stop being lok's. */
  function Cleared(roles: Roles, m: Member): Member {
    var defaults := m.roles * DefaultRoles(roles);
    m.(roles := {},
       automatic := m.automatic - defaults,
       withheld := m.withheld + defaults,
       isAdmin := HoldsAdmin(roles, {}))
  }

  /** What was given by hand: held, and not lok's. */
  predicate HandGiven(m: Member, r: RoleId) { r in m.roles && r !in m.automatic }

  /** Lok remembers `r` as its own only while it is held. */
  predicate Tracked(m: Member, r: RoleId) { r in m.automatic ==> r in m.roles }

  predicate Withholds(m: Member, r: RoleId) { r in m.withheld && r !in m.roles }

  /** After a sync the membership holds what is wanted and what was given by hand, and lok
      remembers as its own only what it gave and still wants. */
  lemma SyncOutcome(roles: Roles, owner: UserId, m: Member)
    ensures var m' := Synced(roles, owner, m); var wanted := Wanted(roles, owner, m);
            && m'.roles == wanted + (m.roles - m.automatic)
            && m'.automatic == wanted * ((m.automatic * m.roles) + (wanted - m.roles - m.automatic))
            && m'.automatic <= m'.roles * wanted
            && m'.withheld == m.withheld && m'.grants == m.grants && m'.user == m.user
  {
    var m' := Synced(roles, owner, m);
    var wanted := Wanted(roles, owner, m);
    forall r ensures r in m'.roles <==> r in wanted + (m.roles - m.automatic) { }
    forall r ensures r in m'.automatic <==>
        r in wanted * ((m.automatic * m.roles) + (wanted - m.roles - m.automatic)) { }
  }

  /** By its columns: the role is an admin role and the member owns the organization or holds a role
      named `admin`, or it is a default role and not withheld from the member. */
  ghost predicate Due(roles: Roles, owner: UserId, m: Member, r: RoleId) {
    && r in roles
    && ((roles[r].adminRole &&
         (m.user == owner || exists a :: a in m.roles && a in roles && roles[a].identifier == Some("admin")))
        || (roles[r].defaultRole && r !in m.withheld))
  }

  /** A sync gives exactly the roles that are due and not held, takes exactly those on record that are
      held and not due, and keeps on record exactly what is due of what was given and what was on
      record and held. When it changes a role, the flag says whether a role named `admin` is held. */
  lemma SyncGivesAndTakes(roles: Roles, owner: UserId, m: Member, r: RoleId)
    ensures var m' := Synced(roles, owner, m);
            && (r in m'.roles && r !in m.roles <==> r !in m.roles && Due(roles, owner, m, r))
            && (r in m.roles && r !in m'.roles <==> r in m.roles && r in m.automatic && !Due(roles, owner, m, r))
            && (r in m'.automatic <==> Due(roles, owner, m, r) && (r in m.automatic <==> r in m.roles))
            && (m'.roles != m.roles ==>
                  (m'.isAdmin <==> exists a :: a in m'.roles && a in roles && roles[a].identifier == Some("admin")))
            && m'.withheld == m.withheld && m'.grants == m.grants && m'.user == m.user
            && m'.createdThrough == m.createdThrough
  {
    SyncOutcome(roles, owner, m);
  }

  /** A sync changes nothing about what was given by hand, provided lok remembers as its own
      only what is held; otherwise it may come to count its own gift as given by hand. */
  lemma SyncKeepsHandGiven(roles: Roles, owner: UserId, m: Member, r: RoleId)
    requires Tracked(m, r)
    ensures var m' := Synced(roles, owner, m);
            Tracked(m', r) && (HandGiven(m', r) <==> HandGiven(m, r))
  {
  }

  /** Whether the membership administers once it is synced. */
  ghost predicate WillAdminister(roles: Roles, owner: UserId, m: Member) {
    m.user == owner || HoldsAdmin(roles, Wanted(roles, owner, m) + (m.roles - m.automatic))
  }

  /** A membership on which a second sync has nothing left to do: the first does not change who
      administers; or it makes an admin of who holds, or is given, every admin role anyway; or it
      ends with an admin who had, of the admin roles that are not defaults, those and only those
      given by hand. */
  ghost predicate Settled(roles: Roles, owner: UserId, m: Member) {
    var defaults := DefaultRoles(roles) - m.withheld;
    || WillAdminister(roles, owner, m) == Administers(roles, owner, m)
    || (!Administers(roles, owner, m) && AdminRoles(roles) <= defaults + (m.roles - m.automatic))
    || (Administers(roles, owner, m) &&
        forall r :: r in AdminRoles(roles) && r !in defaults ==> (r in m.roles <==> r !in m.automatic))
  }

  /** Exactly when, of the state before, a second sync changes nothing. */
  lemma SyncTwice(roles: Roles, owner: UserId, m: Member)
    ensures var m' := Synced(roles, owner, m); Synced(roles, owner, m') == m' <==> Settled(roles, owner, m)
  {
    var m' := Synced(roles, owner, m);
    var defaults := DefaultRoles(roles) - m.withheld;
    SyncOutcome(roles, owner, m);
    SecondSync(roles, owner, m);
    assert Administers(roles, owner, m') == WillAdminister(roles, owner, m);
    if Administers(roles, owner, m) && !Administers(roles, owner, m') {
      assert Wanted(roles, owner, m) == AdminRoles(roles) + defaults;
      assert forall r :: r in m'.automatic <==> r in Wanted(roles, owner, m) && (r in m.roles <==> r in m.automatic);
      if !(m'.automatic <= defaults) {
        var r := NotSubset(m'.automatic, defaults);
        assert r in AdminRoles(roles) && r !in defaults;
      }
    }
    if !Administers(roles, owner, m) {
      assert m'.roles == defaults + (m.roles - m.automatic);
    }
  }

  /** The same of the state after the first sync: who administers did not change under it, or what
      that change adds or drops is there or not there already. */
  lemma SecondSync(roles: Roles, owner: UserId, m: Member)
    ensures var m' := Synced(roles, owner, m); var defaults := DefaultRoles(roles) - m.withheld;
            Synced(roles, owner, m') == m' <==>
              || Administers(roles, owner, m') == Administers(roles, owner, m)
              || (Administers(roles, owner, m') && AdminRoles(roles) <= m'.roles)
              || (!Administers(roles, owner, m') && m'.automatic <= defaults)
  {
    var m' := Synced(roles, owner, m);
    var m'' := Synced(roles, owner, m');
    SyncOutcome(roles, owner, m);
    SyncOutcome(roles, owner, m');
    var wanted, wanted' := Wanted(roles, owner, m), Wanted(roles, owner, m');
    var defaults := DefaultRoles(roles) - m.withheld;
    if Administers(roles, owner, m') == Administers(roles, owner, m) {
      assert wanted' == wanted;
      assert wanted - m'.roles == {} && (m'.automatic * m'.roles) - wanted == {};
      assert m''.roles == m'.roles && m''.automatic == m'.automatic;
    } else if Administers(roles, owner, m') {
      if AdminRoles(roles) <= m'.roles {
        assert wanted' - m'.roles == {} && (m'.automatic * m'.roles) - wanted' == {};
        assert m''.roles == m'.roles && m''.automatic == m'.automatic;
      } else {
        var r := NotSubset(AdminRoles(roles), m'.roles);
        assert r in m''.roles;
      }
    } else {
      if m'.automatic <= defaults {
        assert wanted' - m'.roles == {} && (m'.automatic * m'.roles) - wanted' == {};
        assert m''.roles == m'.roles && m''.automatic == m'.automatic;
      } else {
        var r := NotSubset(m'.automatic, defaults);
        assert r !in m''.automatic;
      }
    }
  }

  /** The usual case: when `admin` is neither a service role nor lok's gift, a sync is idempotent. */
  lemma SyncIdempotent(roles: Roles, owner: UserId, m: Member)
    requires forall r :: r in Named(roles, ADMIN) ==> !roles[r].adminRole && !roles[r].defaultRole && r !in m.automatic
    ensures var m' := Synced(roles, owner, m); Synced(roles, owner, m') == m'
  {
    var m' := Synced(roles, owner, m);
    SyncOutcome(roles, owner, m);
    assert forall r :: r in Named(roles, ADMIN) ==> (r in m'.roles <==> r in m.roles);
    assert HoldsAdmin(roles, m'.roles) == HoldsAdmin(roles, m.roles) by {
      if HoldsAdmin(roles, m'.roles) {
        var r :| r in m'.roles && r in roles && roles[r].identifier == Some(ADMIN);
        assert r in Named(roles, ADMIN) && r in m.roles;
      }
      if HoldsAdmin(roles, m.roles) {
        var r :| r in m.roles && r in roles && roles[r].identifier == Some(ADMIN);
        assert r in Named(roles, ADMIN) && r in m'.roles;
      }
    }
    SecondSync(roles, owner, m);
  }

  /** A service declaring `admin` as its default role breaks idempotence: the first sync makes
      the member an admin, the second gives the admin roles. */
  lemma SyncNotIdempotentWhenAdminIsADefaultRole()
    ensures exists roles: Roles, owner: UserId, m: Member ::
              Synced(roles, owner, Synced(roles, owner, m)) != Synced(roles, owner, m)
  {
    var roles: Roles :=
        map[0 := Role(Some(ADMIN), false, true, None), 1 := Role(Some("mikro_admin"), true, false, None)];
    var m := Member(7, {}, {}, {}, false, None, map[]);
    var m' := Synced(roles, 8, m);
    SyncOutcome(roles, 8, m);
    assert !HoldsAdmin(roles, m.roles);
    assert 0 in DefaultRoles(roles) && 1 !in DefaultRoles(roles);
    assert 0 in m'.roles && 1 !in m'.roles;
    assert HoldsAdmin(roles, m'.roles);
    assert 1 in AdminRoles(roles);
    SyncOutcome(roles, 8, m');
    assert 1 in Synced(roles, 8, m').roles;
  }

  /** Giving back what was taken undoes the withholding: the roles are held again, none of them is
      withheld, and all of them count as given by hand. */
  lemma TakeThenGive(roles: Roles, m: Member, rs: set<RoleId>)
    ensures var m' := Given(roles, Taken(roles, m, rs), rs);
            && m'.roles == m.roles + rs && m'.withheld == m.withheld - rs && m'.automatic == m.automatic - rs
            && (forall r :: r in rs ==> HandGiven(m', r) && !Withholds(m', r))
            && m'.isAdmin == HoldsAdmin(roles, m.roles + rs)
  {
    assert (m.roles - rs) + rs == m.roles + rs;
    assert rs - (m.roles - rs) == rs;
  }

  /** A role given by hand is held after the sync that follows exactly when it is wanted or lok has
      no record of it; a record without the role is what a role-side clear leaves behind. */
  lemma GivenIsKeptExactlyWhen(roles: Roles, owner: UserId, m: Member, rs: set<RoleId>, r: RoleId)
    requires r in rs
    ensures r in Synced(roles, owner, Given(roles, m, rs)).roles <==>
              r in Wanted(roles, owner, Given(roles, m, rs)) || r !in m.automatic
  {
    SyncOutcome(roles, owner, Given(roles, m, rs));
  }

  /** The exact outcome of clearing a membership's roles: of the roles it holds afterwards, those
      counted as given by hand are the ones lok had given, kept no record of, and gave again. */
  lemma ClearThenSync(roles: Roles, owner: UserId, m: Member, r: RoleId)
    ensures var m' := Synced(roles, owner, Cleared(roles, m));
            HandGiven(m', r) <==>
              && r in Wanted(roles, owner, Cleared(roles, m))
              && r in m.automatic && !(r in m.roles && r in DefaultRoles(roles))
  {
    SyncOutcome(roles, owner, Cleared(roles, m));
  }

  /** Making a synced member an admin and taking it back restores the membership exactly: lok
      takes back what it gave for it and nothing else. */
  lemma PromoteThenDemote(roles: Roles, owner: UserId, m: Member, admin: RoleId)
    requires Named(roles, ADMIN) == {admin}
    requires !roles[admin].adminRole && !roles[admin].defaultRole
    requires m.user != owner && admin !in m.roles && admin !in m.automatic && admin !in m.withheld
    requires Synced(roles, owner, m) == m && m.isAdmin == HoldsAdmin(roles, m.roles)
    ensures var promoted := Synced(roles, owner, Given(roles, m, {admin}));
            && promoted.isAdmin && AdminRoles(roles) <= promoted.roles
            && Synced(roles, owner, Taken(roles, promoted, {admin})) == m
  {
    var given := Given(roles, m, {admin});
    assert admin in Named(roles, ADMIN);
    assert given.withheld == m.withheld;
    SyncOutcome(roles, owner, m);
    SyncOutcome(roles, owner, given);
    var promoted := Synced(roles, owner, given);
    assert HoldsAdmin(roles, given.roles);
    assert admin in promoted.roles && HoldsAdmin(roles, promoted.roles);
    OnlyAdminHolds(roles, m, admin);
    var taken := Taken(roles, promoted, {admin});
    assert {admin} * DefaultRoles(roles) == {};
    OnlyAdminHolds(roles, taken, admin);
    SyncOutcome(roles, owner, taken);
    var back := Synced(roles, owner, taken);
    assert Wanted(roles, owner, taken) == Wanted(roles, owner, m);
    assert back.roles == m.roles;
    assert back.automatic == m.automatic;
    OnlyAdminHolds(roles, back, admin);
  }

  lemma OnlyAdminHolds(roles: Roles, m: Member, admin: RoleId)
    requires Named(roles, ADMIN) == {admin}
    ensures HoldsAdmin(roles, m.roles) <==> admin in m.roles
  {
    assert admin in Named(roles, ADMIN);
    if HoldsAdmin(roles, m.roles) {
      var r :| r in m.roles && r in roles && roles[r].identifier == Some(ADMIN);
      assert r in Named(roles, ADMIN);
    }
  }
}
