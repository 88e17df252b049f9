/** What a guest's grants are worth now (karakter/collaboration_grants.py): the collaborations a
    token lists and the hubs reached on the mesh. */
module LiveGrants {
  import opened Rows
  import opened Organizations
  import Grants
  import Invites

  /** What the queries read besides the organization: active accounts, the clock, the name and
      the hub of each service instance. */
  datatype Setting = Setting(active: set<UserId>, now: int, names: map<InstanceId, string>, hubs: map<InstanceId, int>)

  /** By service name and collaboration id, the roles held there. */
  type Collabs = map<string, map<string, set<string>>>

  /** An active account that is a full member of the organization. */
  predicate MayGrant(s: Org, x: Setting, u: UserId) {
    u in x.active && exists id :: id in s.members && s.members[id].user == u && !s.members[id].Scoped()
  }

  predicate Unexpired(g: Grant, now: int) { g.expiresAt.Some? ==> g.expiresAt.value > now }

  predicate Live(s: Org, x: Setting,
                 g: Grant) { Unexpired(g, x.now) && g.granter.Some? && MayGrant(s, x, g.granter.value) }

  /** `live_grants` */
  function LiveKeys(s: Org, x: Setting, m: Member): set<GrantKey> {
    set k | k in m.grants && Live(s, x, m.grants[k])
  }

  /** `mesh_hub_ids` */
  function MeshHubs(s: Org, x: Setting, m: Member): set<int> {
    set k | k in LiveKeys(s, x, m) && m.grants[k].mesh && k.instance in x.hubs :: x.hubs[k.instance]
  }

  /** A grant is live by its columns: it has not expired, and its granter is an active user with a
      membership without grants. */
  ghost predicate LiveRow(s: Org, x: Setting, g: Grant) {
    && (g.expiresAt == None || x.now < g.expiresAt.value)
    && exists id :: id in s.members && g.granter == Some(s.members[id].user) && s.members[id].user in x.active
                    && s.members[id].grants == map[]
  }

  lemma LiveExactlyWhen(s: Org, x: Setting, m: Member, k: GrantKey)
    ensures k in LiveKeys(s, x, m) <==> k in m.grants && LiveRow(s, x, m.grants[k])
  {
  }

  ghost predicate OnHub(x: Setting, k: GrantKey, h: int) { k.instance in x.hubs && x.hubs[k.instance] == h }

  /** The hubs reached are those of the instances of live grants that allow the mesh. */
  lemma MeshHubsExactly(s: Org, x: Setting, m: Member, h: int)
    ensures h in MeshHubs(s, x, m) <==>
      exists k :: k in m.grants && LiveRow(s, x, m.grants[k]) && m.grants[k].mesh && OnHub(x, k, h)
  {
    if h in MeshHubs(s, x, m) {
      var k :| k in LiveKeys(s, x, m) && m.grants[k].mesh && k.instance in x.hubs && x.hubs[k.instance] == h;
      LiveExactlyWhen(s, x, m, k);
    }
    if k :| k in m.grants && LiveRow(s, x, m.grants[k]) && m.grants[k].mesh && OnHub(x, k, h) {
      LiveExactlyWhen(s, x, m, k);
    }
  }

  /** A collaboration that an invite grants anew is live for as long as whoever made the invite is an
      active full member. */
  lemma RedeemedIsLive(s: Org, i: InviteId, u: UserId, now: int, x: Setting, k: GrantKey)
    requires OrgOk(s) && Invites.Redeem(s, i, u, now).outcome.BecameGuest?
    ensures var plan := Invites.Redeem(s, i, u, now);
            var s', refs := Run(s, plan.steps), Grants.Merge(s.invites[i].shared.value);
            && plan.outcome.m in s'.members && refs.Some?
            && (k in refs.value && k !in Invites.GrantsBefore(s, u) && IsActiveMember(s', x, s.invites[i].createdBy) ==>
                  k in LiveKeys(s', x, s'.members[plan.outcome.m]))
  {
    Invites.RedeemMakesAGuest(s, i, u, now);
    var plan := Invites.Redeem(s, i, u, now);
    var s' := Run(s, plan.steps);
    LiveExactlyWhen(s', x, s'.members[plan.outcome.m], k);
  }

  ghost predicate IsActiveMember(s: Org, x: Setting, u: UserId) {
    u in x.active && exists id :: id in s.members && s.members[id].user == u && s.members[id].grants == map[]
  }

  function RoleNames(s: Org, held: set<RoleId>): set<string> {
    set r | r in held && r in s.roles && s.roles[r].identifier.Some? && s.roles[r].identifier.value != "" ::
      s.roles[r].identifier.value
  }

  /** The identifiers of the roles a user holds in the organization, over some of its memberships. */
  function NamesHeld(s: Org, ids: set<MemberId>, u: UserId): set<string> {
    set id, name |
      id in ids && id in s.members && s.members[id].user == u && name in RoleNames(s, s.members[id].roles) ::
      name
  }

  /** The roles of a grant, cut to what its granter holds now. */
  function Cut(s: Org, g: Grant): set<string>
    requires g.granter.Some?
  {
    g.roles * NamesHeld(s, s.members.Keys, g.granter.value)
  }

  /** Of the grant's roles exactly those remain whose name, not empty, some role has that the granter
      holds in the organization. */
  lemma CutExactly(s: Org, g: Grant, r: string)
    requires g.granter.Some?
    ensures r in Cut(s, g) <==>
      && r in g.roles && r != ""
      && exists id, role :: id in s.members && s.members[id].user == g.granter.value && role in s.members[id].roles
                            && role in s.roles && s.roles[role].identifier == Some(r)
  {
    if id, role :| id in s.members && s.members[id].user == g.granter.value && role in s.members[id].roles
                   && role in s.roles && s.roles[role].identifier == Some(r) && r != "" {
      assert r in RoleNames(s, s.members[id].roles);
    }
    if r in NamesHeld(s, s.members.Keys, g.granter.value) {
      var id :| id in s.members && s.members[id].user == g.granter.value && r in RoleNames(s, s.members[id].roles);
      var role :| role in s.members[id].roles && role in s.roles && s.roles[role].identifier == Some(r);
      assert role in s.members[id].roles;
    }
  }

  ghost predicate Distinct(order: seq<GrantKey>) {
    forall i, j :: 0 <= i < j < |order| ==> order[i] != order[j]
  }

  /** The grants of the membership in the order they were created. */
  ghost predicate Enumerates(order: seq<GrantKey>, m: Member) {
    Distinct(order) && forall k :: k in order <==> k in m.grants
  }

  lemma {:induction false} DistinctLength(order: seq<GrantKey>, keys: set<GrantKey>)
    requires Distinct(order) && forall k :: k in order ==> k in keys
    ensures |order| <= |keys|
  {
    if order != [] {
      var front, last := order[..|order| - 1], order[|order| - 1];
      forall k | k in front ensures k in keys - {last} { assert k in order; }
      DistinctLength(front, keys - {last});
    }
  }

  /** Below the cap no grant is cut off: the limit of the query leaves out nothing. */
  lemma LimitIsVacuous(s: Org, m: MemberId, order: seq<GrantKey>)
    requires OrgOk(s) && m in s.members && Enumerates(order, s.members[m])
    ensures |order| <= MAX_GRANTS_PER_MEMBERSHIP
  {
    assert MemberOk(s.roles, s.members[m]);
    DistinctLength(order, s.members[m].grants.Keys);
  }

  /** The live grants on the wanted instances, oldest first. */
  function Chosen(s: Org, x: Setting, m: Member, wanted: set<InstanceId>, order: seq<GrantKey>): seq<GrantKey> {
    if order == [] then []
    else
      var last := order[|order| - 1];
      Chosen(s, x, m, wanted, order[..|order| - 1]) + if last in Listable(s, x, m, wanted) then [last] else []
  }

  lemma {:induction false} ChosenAre(s: Org, x: Setting, m: Member, wanted: set<InstanceId>, order: seq<GrantKey>)
    ensures var rows := Chosen(s, x, m, wanted, order);
            && |rows| <= |order|
            && forall k :: k in rows <==> k in order && k in Listable(s, x, m, wanted)
  {
    if order != [] {
      var front, last := order[..|order| - 1], order[|order| - 1];
      assert order == front + [last];
      ChosenAre(s, x, m, wanted, front);
    }
  }

  /** They come in the order of creation. */
  lemma {:induction false} ChosenInOrder(s: Org, x: Setting, m: Member, wanted: set<InstanceId>, order: seq<GrantKey>,
                                         i: nat, j: nat)
    requires i < j < |Chosen(s, x, m, wanted, order)|
    ensures exists a, b :: 0 <= a < b < |order| && order[a] == Chosen(s, x, m, wanted, order)[i]
                           && order[b] == Chosen(s, x, m, wanted, order)[j]
  {
    var front, rows := order[..|order| - 1], Chosen(s, x, m, wanted, order);
    var before := Chosen(s, x, m, wanted, front);
    if j < |before| {
      ChosenInOrder(s, x, m, wanted, front, i, j);
      var a, b :| 0 <= a < b < |front| && front[a] == before[i] && front[b] == before[j];
      assert order[a] == rows[i] && order[b] == rows[j];
    } else {
      ChosenAre(s, x, m, wanted, front);
      assert before[i] in before;
      var a :| 0 <= a < |front| && front[a] == before[i];
      assert order[a] == rows[i] && order[|order| - 1] == rows[j];
    }
  }

  /** The query: at most as many as the cap. */
  method SelectLive(s: Org, x: Setting, m: Member, wanted: set<InstanceId>, order: seq<GrantKey>)
    returns (rows: seq<GrantKey>)
    requires forall k :: k in order ==> k in m.grants
    ensures |order| <= MAX_GRANTS_PER_MEMBERSHIP ==> rows == Chosen(s, x, m, wanted, order)
  {
    rows := [];
    for i := 0 to |order|
      invariant rows == Chosen(s, x, m, wanted, order[..i])
    {
      assert order[..i + 1][..i] == order[..i] && order[i] in order;
      if Live(s, x, m.grants[order[i]]) && order[i].instance in wanted { rows := rows + [order[i]]; }
    }
    assert order[..|order|] == order;
    ChosenAre(s, x, m, wanted, order);
    if |rows| > MAX_GRANTS_PER_MEMBERSHIP { rows := rows[..MAX_GRANTS_PER_MEMBERSHIP]; }
  }

  function Get(held: map<UserId, set<string>>, u: UserId): set<string> { if u in held then held[u] else {} }

  lemma OneMoreMembership(s: Org, ids: set<MemberId>, id: MemberId, u: UserId)
    requires id in s.members
    ensures NamesHeld(s, ids + {id}, u) ==
            NamesHeld(s, ids, u) + if u == s.members[id].user then RoleNames(s, s.members[id].roles) else {}
  {
  }

  /** The role identifiers each granter holds. */
  method RolesOfGranters(s: Org, granters: set<UserId>) returns (held: map<UserId, set<string>>)
    ensures forall u :: u in granters ==> Get(held, u) == NamesHeld(s, s.members.Keys, u)
  {
    held := map[];
    var todo := s.members.Keys;
    while todo != {}
      invariant todo <= s.members.Keys
      invariant forall u :: u in granters ==> Get(held, u) == NamesHeld(s, s.members.Keys - todo, u)
      decreases |todo|
    {
      var id := Pick(todo);
      OneLess(s.members.Keys, todo, id);
      forall u { OneMoreMembership(s, s.members.Keys - todo, id, u); }
      var names := RoleNames(s, s.members[id].roles);
      if s.members[id].user in granters { held := held[s.members[id].user := Get(held, s.members[id].user) + names]; }
      todo := todo - {id};
    }
    assert s.members.Keys - {} == s.members.Keys;
  }

  /** The place of a grant in the list: the name its hub gives the service, and its id there. */
  predicate StandsAt(x: Setting, k: GrantKey, name: string, collaboration: string) {
    k.instance in x.names && x.names[k.instance] == name && k.collaboration == collaboration
  }

  function ListOne(out: Collabs, name: string, collaboration: string, roles: set<string>): Collabs {
    var there := if name in out then out[name] else map[];
    out[name := there[collaboration := roles]]
  }

  ghost predicate Listed(out: Collabs, name: string, collaboration: string) {
    name in out && collaboration in out[name]
  }

  ghost predicate MayList(x: Setting, m: Member, rows: seq<GrantKey>) {
    forall k :: k in rows ==> k in m.grants && m.grants[k].granter.Some? && k.instance in x.names
  }

  /** The nested dictionary once these grants were entered, each in the place of any before it.
      Sorting them by place first, as the code does, keeps the order within a place. */
  ghost function Listing(s: Org, x: Setting, m: Member, rows: seq<GrantKey>): Collabs
    requires MayList(x, m, rows)
  {
    if rows == [] then map[]
    else
      var k := rows[|rows| - 1];
      assert k in rows && forall j :: j in rows[..|rows| - 1] ==> j in rows;
      ListOne(Listing(s, x, m, rows[..|rows| - 1]), x.names[k.instance], k.collaboration, Cut(s, m.grants[k]))
  }

  method ListRows(s: Org, x: Setting, m: Member, rows: seq<GrantKey>, held: map<UserId, set<string>>)
    returns (out: Collabs)
    requires MayList(x, m, rows)
    requires forall k | k in rows && k in m.grants && m.grants[k].granter.Some? ::
               Get(held, m.grants[k].granter.value) == NamesHeld(s, s.members.Keys, m.grants[k].granter.value)
    ensures out == Listing(s, x, m, rows)
  {
    out := map[];
    for i := 0 to |rows|
      invariant MayList(x, m, rows[..i]) && out == Listing(s, x, m, rows[..i])
    {
      var k := rows[i];
      assert k in rows && rows[..i + 1][..i] == rows[..i];
      var roles := m.grants[k].roles * Get(held, m.grants[k].granter.value);
      out := ListOne(out, x.names[k.instance], k.collaboration, roles);
    }
    assert rows[..|rows|] == rows;
  }

  /** No grant after the `i`th has its place. */
  ghost predicate LastAt(x: Setting, rows: seq<GrantKey>, i: nat, name: string, collaboration: string) {
    && i < |rows| && StandsAt(x, rows[i], name, collaboration)
    && forall j :: i < j < |rows| ==> !StandsAt(x, rows[j], name, collaboration)
  }

  lemma OneMoreListed(out: Collabs, name: string, collaboration: string, roles: set<string>, n: string, c: string)
    ensures var out' := ListOne(out, name, collaboration, roles);
            && (Listed(out', n, c) <==> Listed(out, n, c) || (n == name && c == collaboration))
            && (Listed(out', n, c) ==> out'[n][c] == if n == name && c == collaboration then roles else out[n][c])
  {
  }

  /** In a place with a grant stands the last one entered there, cut to what its granter holds. */
  lemma {:induction false} LatestStands(s: Org, x: Setting, m: Member, rows: seq<GrantKey>, i: nat, n: string,
                                        c: string)
    requires MayList(x, m, rows) && LastAt(x, rows, i, n, c)
    ensures rows[i] in m.grants && m.grants[rows[i]].granter.Some? && Listed(Listing(s, x, m, rows), n, c)
    ensures Listing(s, x, m, rows)[n][c] == Cut(s, m.grants[rows[i]])
  {
    var front, k := rows[..|rows| - 1], rows[|rows| - 1];
    assert rows[i] in rows && k in rows && forall j :: j in front ==> j in rows;
    OneMoreListed(Listing(s, x, m, front), x.names[k.instance], k.collaboration, Cut(s, m.grants[k]), n, c);
    if i < |front| {
      assert !StandsAt(x, k, n, c);
      LatestStands(s, x, m, front, i, n, c);
    }
  }

  /** A place without a grant is not listed. */
  lemma {:induction false} OnlyPlacesAreListed(s: Org, x: Setting, m: Member, rows: seq<GrantKey>, n: string, c: string)
    requires MayList(x, m, rows) && Listed(Listing(s, x, m, rows), n, c)
    ensures exists i :: 0 <= i < |rows| && StandsAt(x, rows[i], n, c)
  {
    var front, k := rows[..|rows| - 1], rows[|rows| - 1];
    assert k in rows && forall j :: j in front ==> j in rows;
    OneMoreListed(Listing(s, x, m, front), x.names[k.instance], k.collaboration, Cut(s, m.grants[k]), n, c);
    if StandsAt(x, k, n, c) {
      assert StandsAt(x, rows[|rows| - 1], n, c);
    } else {
      OnlyPlacesAreListed(s, x, m, front, n, c);
      var i :| 0 <= i < |front| && StandsAt(x, front[i], n, c);
      assert StandsAt(x, rows[i], n, c);
    }
  }

  lemma {:induction false} SomeLast(x: Setting, rows: seq<GrantKey>, n: string, c: string) returns (i: nat)
    requires exists j :: 0 <= j < |rows| && StandsAt(x, rows[j], n, c)
    ensures LastAt(x, rows, i, n, c)
  {
    i := |rows| - 1;
    while !StandsAt(x, rows[i], n, c)
      invariant i < |rows| && forall j :: i < j < |rows| ==> !StandsAt(x, rows[j], n, c)
      invariant exists j :: 0 <= j <= i && StandsAt(x, rows[j], n, c)
      decreases i
    {
      i := i - 1;
    }
  }

  /** Everything listed stands for one of these grants, with its roles cut. */
  ghost predicate ListedFrom(s: Org, x: Setting, m: Member, keys: set<GrantKey>, out: Collabs) {
    forall n, c | Listed(out, n, c) :: exists k :: k in keys && StandsFor(s, x, m, k, n, c, out[n][c])
  }

  ghost predicate StandsFor(s: Org, x: Setting, m: Member, k: GrantKey, n: string, c: string, roles: set<string>) {
    k in m.grants && m.grants[k].granter.Some? && StandsAt(x, k, n, c) && roles == Cut(s, m.grants[k])
  }

  /** Every one of these grants has its place in the list. */
  ghost predicate Lists(x: Setting, keys: set<GrantKey>, out: Collabs) {
    forall k :: k in keys ==> k.instance in x.names && Listed(out, x.names[k.instance], k.collaboration)
  }

  lemma ListingMeans(s: Org, x: Setting, m: Member, rows: seq<GrantKey>, keys: set<GrantKey>)
    requires MayList(x, m, rows) && forall k :: k in rows <==> k in keys
    ensures ListedFrom(s, x, m, keys, Listing(s, x, m, rows)) && Lists(x, keys, Listing(s, x, m, rows))
  {
    var out := Listing(s, x, m, rows);
    forall n, c | Listed(out, n, c) ensures exists k :: k in keys && StandsFor(s, x, m, k, n, c, out[n][c]) {
      OnlyPlacesAreListed(s, x, m, rows, n, c);
      var i := SomeLast(x, rows, n, c);
      LatestStands(s, x, m, rows, i, n, c);
      assert rows[i] in rows && StandsFor(s, x, m, rows[i], n, c, out[n][c]);
    }
    forall k | k in keys ensures k.instance in x.names && Listed(out, x.names[k.instance], k.collaboration) {
      var j :| 0 <= j < |rows| && rows[j] == k;
      assert StandsAt(x, rows[j], x.names[k.instance], k.collaboration);
      var i := SomeLast(x, rows, x.names[k.instance], k.collaboration);
      LatestStands(s, x, m, rows, i, x.names[k.instance], k.collaboration);
    }
  }

  /** `live_collaborations`: the dictionary of the live grants on the wanted instances, in the order
      they were created. Everything listed is such a grant, with exactly the roles of the grant
      that its granter holds now, and every such grant has its place. */
  method LiveCollaborations(s: Org, x: Setting, id: MemberId, wanted: set<InstanceId>, order: seq<GrantKey>)
    returns (out: Collabs)
    requires OrgOk(s) && id in s.members && Enumerates(order, s.members[id])
    requires forall k :: k in s.members[id].grants ==> k.instance in x.names
    ensures MayList(x, s.members[id], Chosen(s, x, s.members[id], wanted, order))
    ensures out == Listing(s, x, s.members[id], Chosen(s, x, s.members[id], wanted, order))
    ensures ListedFrom(s, x, s.members[id], Listable(s, x, s.members[id], wanted), out)
    ensures Lists(x, Listable(s, x, s.members[id], wanted), out)
  {
    var m := s.members[id];
    ChosenAre(s, x, m, wanted, order);
    if wanted == {} {
      assert Chosen(s, x, m, wanted, order) == [] by { NoneChosen(s, x, m, order); }
      return map[];
    }
    var rows := SelectLive(s, x, m, wanted, order);
    LimitIsVacuous(s, id, order);
    var granters := set k | k in rows :: m.grants[k].granter.value;
    var held := RolesOfGranters(s, granters);
    out := ListRows(s, x, m, rows, held);
    ListingMeans(s, x, m, rows, Listable(s, x, m, wanted));
  }

  lemma {:induction false} NoneChosen(s: Org, x: Setting, m: Member, order: seq<GrantKey>)
    ensures Chosen(s, x, m, {}, order) == []
  {
    if order != [] { NoneChosen(s, x, m, order[..|order| - 1]); }
  }

  function Listable(s: Org, x: Setting, m: Member, wanted: set<InstanceId>): set<GrantKey> {
    set k | k in LiveKeys(s, x, m) && k.instance in wanted
  }

  /** For a grant whose service name no other wanted instance has, the list is exact: it is listed
      when it is live and wanted, and what stands there is that grant, cut to its granter's roles. */
  lemma DistinctNamesListExactly(s: Org, x: Setting, m: Member, wanted: set<InstanceId>, out: Collabs, k: GrantKey)
    requires ListedFrom(s, x, m, Listable(s, x, m, wanted), out) && Lists(x, Listable(s, x, m, wanted), out)
    requires k.instance in x.names
    requires forall i :: i in wanted && i in x.names && x.names[i] == x.names[k.instance] ==> i == k.instance
    ensures Listed(out, x.names[k.instance], k.collaboration) <==>
              k in m.grants && k.instance in wanted && LiveRow(s, x, m.grants[k])
    ensures k in Listable(s, x, m, wanted) ==> out[x.names[k.instance]][k.collaboration] == Cut(s, m.grants[k])
  {
    LiveExactlyWhen(s, x, m, k);
    var n := x.names[k.instance];
    if Listed(out, n, k.collaboration) {
      var j :| j in Listable(s, x, m, wanted) && StandsFor(s, x, m, j, n, k.collaboration, out[n][k.collaboration]);
      assert j == k;
    }
  }

  /** A guest never holds more in a collaboration than whoever let them in holds in the
      organization now, and that one is an active full member. */
  lemma NoMoreThanTheGranter(s: Org, x: Setting, m: Member, wanted: set<InstanceId>, out: Collabs, n: string, c: string,
                             r: string)
    requires OrgOk(s) && ListedFrom(s, x, m, Listable(s, x, m, wanted), out) && Listed(out, n, c) && r in out[n][c]
    ensures exists k, id, role :: HeldByGranter(s, x, m, wanted, r, k, id, role)
  {
    var k :| k in Listable(s, x, m, wanted) && StandsFor(s, x, m, k, n, c, out[n][c]);
    LiveExactlyWhen(s, x, m, k);
    CutExactly(s, m.grants[k], r);
    var id, role :| id in s.members && s.members[id].user == m.grants[k].granter.value && role in s.members[id].roles
                    && role in s.roles && s.roles[role].identifier == Some(r);
    GranterIsFull(s, x, m.grants[k], id);
    assert HeldByGranter(s, x, m, wanted, r, k, id, role);
  }

  /** The role stands in an unexpired grant on a wanted instance, and the membership `id`, of its
      granter, active and without grants itself, holds a role of that name. */
  ghost predicate HeldByGranter(s: Org, x: Setting, m: Member, wanted: set<InstanceId>, r: string, k: GrantKey,
                                id: MemberId, role: RoleId)
  {
    && k in m.grants && (m.grants[k].expiresAt == None || x.now < m.grants[k].expiresAt.value)
    && k.instance in wanted && r in m.grants[k].roles
    && id in s.members && m.grants[k].granter == Some(s.members[id].user) && s.members[id].user in x.active
    && s.members[id].grants == map[]
    && role in s.members[id].roles && role in s.roles && s.roles[role].identifier == Some(r)
  }

  lemma GranterIsFull(s: Org, x: Setting, g: Grant, id: MemberId)
    requires UniqueOk(s) && LiveRow(s, x, g) && id in s.members && g.granter == Some(s.members[id].user)
    ensures s.members[id].grants == map[] && s.members[id].user in x.active
  {
  }
}
